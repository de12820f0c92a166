/** The codec of pest control as it works in place: a validating pass, a parsing pass without checks, a writer. */
module PestCodec {
  import opened ByteTypes
  import opened PestPackets
  import opened PestWire

  /** The sum of the bytes in one wrapping byte. */
  method WrappingSum(s: Bytes) returns (sum: Byte)
    ensures sum == Sum(s) % 0x100
  {
    var acc: int := 0;
    for i := 0 to |s|
      invariant acc == Sum(s[..i]) % 0x100
    {
      assert s[..i + 1][..i] == s[..i];
      acc := (acc + s[i]) % 0x100;
    }
    assert s[..|s|] == s;
    sum := acc;
  }

  // ---------------------------------------------------------------- writer

  class Writer {
    var bytes: Bytes

    constructor (t: Byte)
      ensures bytes == [t, 0, 0, 0, 0]
    {
      bytes := [t, 0, 0, 0, 0];
    }

    method WriteU8(b: Byte)
      modifies this
      ensures bytes == old(bytes) + [b]
    {
      bytes := bytes + [b];
    }

    method WriteU32(n: U32)
      modifies this
      ensures bytes == old(bytes) + ValueBytes(Num(n))
    {
      bytes := bytes + BE(n);
    }

    method WriteStr(t: Text)
      modifies this
      ensures bytes == old(bytes) + ValueBytes(Txt(t))
    {
      WriteU32(|t| % LIMIT);
      bytes := bytes + t;
    }

    /** Patches the length in and adds the checksum. */
    method Finalize() returns (r: Bytes)
      requires |bytes| >= 5
      modifies this
      ensures r == Sealed(old(bytes)[0], old(bytes)[5..])
    {
      hide BE, Sum;
      var length := BE((|bytes| + 1) % LIMIT);
      for k := 0 to 4
        invariant |bytes| == |old(bytes)| && bytes[0] == old(bytes)[0] && bytes[5..] == old(bytes)[5..]
        invariant bytes[1..1 + k] == length[..k]
      {
        bytes := bytes[1 + k := length[k]];
        assert bytes[1..2 + k] == bytes[1..1 + k] + [length[k]];
      }
      assert bytes == Unsealed(old(bytes)[0], old(bytes)[5..]) by {
        assert bytes == [bytes[0]] + bytes[1..5] + bytes[5..];
      }
      var sum := WrappingSum(bytes);
      r := bytes + [(0x100 - sum as int) % 0x100];
    }
  }

  // ------------------------------------------------------------- validator

  class Validator {
    var data: Bytes
    var cursor: nat
    var declared: Declared

    constructor (data: Bytes)
      ensures this.data == data && cursor == 0 && declared == Unknown
    {
      this.data, cursor, declared := data, 0, Unknown;
    }

    method ValidateU8() returns (r: Flow<Byte>)
      modifies this`cursor
      ensures r == CheckU8(data, old(cursor), declared)
      ensures cursor == old(cursor) + if r.Continue? then 1 else 0
    {
      if declared.Known? && cursor + 1 > declared.length {
        return Failed(InvalidPacket);
      }
      if |data| > cursor {
        r := Continue(data[cursor]);
        cursor := cursor + 1;
      } else {
        r := NeedMore;
      }
    }

    method ValidateU32() returns (r: Flow<U32>)
      modifies this`cursor
      ensures r == CheckU32(data, old(cursor), declared)
      ensures cursor == old(cursor) + if r.Continue? then 4 else 0
    {
      if declared.Known? && cursor + 4 > declared.length {
        return Failed(InvalidPacket);
      }
      if |data| > cursor + 4 {
        r := Continue(FromBE(data[cursor..cursor + 4]));
        cursor := cursor + 4;
      } else {
        r := NeedMore;
      }
    }

    method ValidateLength() returns (r: Flow<U32>)
      modifies this`cursor, this`declared
      ensures r == CheckU32(data, old(cursor), old(declared))
      ensures r.Continue? ==> cursor == old(cursor) + 4 && declared == Known(r.value)
    {
      var length :- ValidateU32();
      declared := Known(length);
      r := Continue(length);
    }

    method ValidateStr() returns (r: Flow<Text>)
      modifies this`cursor
      ensures r == CheckText(data, old(cursor), declared)
      ensures r.Continue? ==> cursor == old(cursor) + |ValueBytes(Txt(r.value))|
    {
      var len :- ValidateU32();
      if declared.Known? && cursor + len > declared.length {
        return Failed(InvalidPacket);
      }
      if |data| > cursor + len {
        var t := data[cursor..cursor + len];
        if !IsUtf8(t) {
          return Failed(NotUtf8);
        }
        cursor := cursor + len;
        r := Continue(t);
      } else {
        r := NeedMore;
      }
    }

    method ValidateChecksum() returns (r: Flow<Byte>)
      requires declared.Known?
      modifies this`cursor
      ensures r == CheckSum(data, old(cursor), declared.length)
      ensures r.Continue? ==> cursor == old(cursor) + 1
    {
      var checksum :- ValidateU8();
      var sum := WrappingSum(if declared.length <= |data| then data[..declared.length] else data);
      if sum != 0 {
        return Failed(InvalidChecksum);
      }
      r := Continue(checksum);
    }

    /** Splits the packet off, if it ends where its length says. */
    method RawPacket() returns (r: Flow<Bytes>)
      requires declared.Known? && (declared.length == cursor ==> cursor <= |data|)
      modifies this`data
      ensures if declared.length != cursor then r == Failed(InvalidPacket) && data == old(data)
              else r == Continue(old(data)[..cursor]) && data == old(data)[cursor..]
    {
      if declared.length != cursor {
        return Failed(InvalidPacket);
      }
      r := Continue(data[..cursor]);
      data := data[cursor..];
    }
  }

  // ---------------------------------------------------------------- parser

  /** Reads without any check: each call asks that the value is there. */
  class Parser {
    var rest: Bytes

    constructor (data: Bytes)
      ensures rest == data
    {
      rest := data;
    }

    method ReadU8() returns (b: Byte)
      requires rest != []
      modifies this
      ensures b == old(rest)[0] && rest == old(rest)[1..]
    {
      b := rest[0];
      rest := rest[1..];
    }

    method ReadU32(ghost n: U32, ghost tail: Bytes) returns (r: U32)
      requires rest == ValueBytes(Num(n)) + tail
      modifies this
      ensures r == n && rest == tail
    {
      BEInverse(n);
      assert rest[..4] == BE(n);
      r := FromBE([rest[0], rest[1], rest[2], rest[3]]);
      rest := rest[4..];
    }

    method ReadStr(ghost t: Text, ghost tail: Bytes) returns (r: Text)
      requires rest == ValueBytes(Txt(t)) + tail && Proper(Txt(t))
      modifies this
      ensures r == t && rest == tail
    {
      hide BE, FromBE, IsUtf8;
      BEInverse(|t|);
      assert rest == BE(|t|) + t + tail;
      assert rest[..4] == BE(|t|);
      assert [rest[0], rest[1], rest[2], rest[3]] == BE(|t|);
      var len := FromBE([rest[0], rest[1], rest[2], rest[3]]);
      r := rest[4..4 + len];
      rest := rest[len + 4..];
    }

    /** The type byte and the length, which the validator has seen already. */
    method SkipHeader(ghost p: Packet)
      requires rest == Encode(p) && Sendable(p)
      modifies this
      ensures rest == AllBytes(Values(p)) + [Checksum(Unsealed(TypeOf(p), AllBytes(Values(p))))]
    {
      hide AllBytes, Values, Checksum, BE, TypeOf;
      ghost var body := AllBytes(Values(p));
      ghost var tail := body + [Checksum(Unsealed(TypeOf(p), body))];
      assert rest == [TypeOf(p)] + BE(|Encode(p)|) + tail;
      var _ := ReadU8();
      assert rest == ValueBytes(Num(|Encode(p)|)) + tail;
      var _ := ReadU32(|Encode(p)|, tail);
    }
  }
}
