/** The packet codec: the dispatch by the type byte. */
module PestPacketCodec {
  import opened ByteTypes
  import opened PestPackets
  import opened PestWire
  import opened PestRoundTrip
  import opened PestPlainPackets
  import opened PestArrayPackets

  lemma Untouched(src: Bytes)
    ensures !Decode(src).Continue? ==> After(src) == src
  {
    hide Decode;
  }

  /** One decoding in place: the packet that the bytes begin with, split off from them. */
  method DecodePacket(src: Bytes) returns (r: Flow<Packet>, rest: Bytes)
    ensures r == Decode(src)
    ensures rest == After(src)
  {
    hide CheckU32, CheckBody, CheckEnd, Encode, Sendable, After;
    Untouched(src);
    if src == [] {
      return NeedMore, src;
    }
    match src[0]
    case 0x50 => r, rest := ReadHello(src);
    case 0x51 => r, rest := ReadError(src);
    case 0x52 => r, rest := ReadOk(src);
    case 0x53 => r, rest := ReadNumber(src, 0x53);
    case 0x54 => r, rest := ReadTargetPopulations(src);
    case 0x55 => r, rest := ReadCreatePolicy(src);
    case 0x56 => r, rest := ReadNumber(src, 0x56);
    case 0x57 => r, rest := ReadNumber(src, 0x57);
    case 0x58 => r, rest := ReadSiteVisit(src);
    case _ => r, rest := Failed(UnknownPacket(src[0])), src;
  }

  method EncodePacket(p: Packet, dst: Bytes) returns (r: Bytes)
    ensures r == dst + Encode(p)
  {
    hide Encode;
    var raw: Bytes;
    match p {
      case Hello(protocol, version) => raw := WriteHello(protocol, version);
      case Error(message) => raw := WriteError(message);
      case Ok => raw := WriteOk();
      case DialAuthority(site) => raw := WriteNumber(p, 0x53, site);
      case TargetPopulations(site, targets) => raw := WriteTargetPopulations(site, targets);
      case CreatePolicy(species, action) => raw := WriteCreatePolicy(species, action);
      case DeletePolicy(policy) => raw := WriteNumber(p, 0x56, policy);
      case PolicyResult(policy) => raw := WriteNumber(p, 0x57, policy);
      case SiteVisit(site, visits) => raw := WriteSiteVisit(site, visits);
    }
    r := dst + raw;
  }

  /** What was encoded comes back, and what was behind it is left. */
  method RoundTrip(p: Packet, behind: Bytes) returns (q: Flow<Packet>, rest: Bytes)
    requires Sendable(p)
    ensures q == Continue(p) && rest == behind
  {
    hide Encode, Sendable, Decode;
    var raw := EncodePacket(p, []);
    DecodeIff(raw + behind, p);
    assert [] + Encode(p) == Encode(p);
    q, rest := DecodePacket(raw + behind);
  }
}
