/** The packets of pest control. Text is held as its bytes. */
module PestPackets {
  import opened ByteTypes

  type Text = Bytes

  datatype Action = Conserve | Cull

  /** What the authority wants of one species at a site. */
  datatype Target = Target(species: Text, min: U32, max: U32)

  /** What a visitor has counted of one species. */
  datatype Visit = Visit(species: Text, count: U32)

  datatype Packet =
    | Hello(protocol: Text, version: U32)
    | Error(message: Text)
    | Ok
    | DialAuthority(site: U32)
    | TargetPopulations(site: U32, targets: seq<Target>)
    | CreatePolicy(species: Text, action: Action)
    | DeletePolicy(policy: U32)
    | PolicyResult(policy: U32)
    | SiteVisit(site: U32, visits: seq<Visit>)
}
