/** The reports of site visitors: a report goes on to the reconciler exactly if its counts agree with each other. */
module SiteVisitors {
  import opened Wrappers
  import opened ByteTypes
  import opened PestPackets
  import opened AuthorityServers

  /** What the decoder yields next from a visitor. */
  datatype Item = Received(packet: Packet) | Broken

  datatype Refusal = Conflicts | WrongPacket | Receiving

  /** The items that are passed on: site visits free of conflicts. */
  ghost predicate Acceptable(item: Item) {
    item.Received? && item.packet.SiteVisit? && ConflictFree(item.packet.visits)
  }

  /** Why an item ends the connection: it could not be read, is no site visit, or contradicts itself. */
  ghost predicate Judged(item: Item, reason: Refusal) {
    && (reason == Receiving <==> item.Broken?)
    && (reason == WrongPacket <==> item.Received? && !item.packet.SiteVisit?)
    && (reason == Conflicts <==> item.Received? && item.packet.SiteVisit? && !ConflictFree(item.packet.visits))
  }

  /** The map of the counts heard so far stands for the visits heard so far. */
  ghost predicate Heard(counts: map<Text, U32>, visits: seq<Visit>) {
    && (forall v <- visits :: v.species in counts && counts[v.species] == v.count)
    && (forall s <- counts :: Visit(s, counts[s]) in visits)
  }

  method HasConflict(visits: seq<Visit>) returns (conflict: bool)
    ensures conflict <==> !ConflictFree(visits)
  {
    var counts: map<Text, U32> := map[];
    for i := 0 to |visits|
      invariant Heard(counts, visits[..i])
    {
      var v := visits[i];
      if v.species in counts && counts[v.species] != v.count {
        assert Visit(v.species, counts[v.species]) in visits && v in visits;
        return true;
      }
      counts := counts[v.species := v.count];
      assert visits[..i + 1] == visits[..i] + [v];
    }
    assert visits[..|visits|] == visits;
    conflict := false;
  }

  /** Passes on the acceptable items up to the first that is not, which ends the connection. */
  method HandleVisits(items: seq<Item>) returns (sent: seq<Packet>, r: Result<(), Refusal>)
    ensures |sent| <= |items|
    ensures forall i :: 0 <= i < |sent| ==> Acceptable(items[i]) && sent[i] == items[i].packet
    ensures r.Ok? <==> |sent| == |items|
    ensures r.Err? ==> !Acceptable(items[|sent|]) && Judged(items[|sent|], r.error)
  {
    sent := [];
    while |sent| < |items|
      invariant |sent| <= |items|
      invariant forall i :: 0 <= i < |sent| ==> Acceptable(items[i]) && sent[i] == items[i].packet
      decreases |items| - |sent|
    {
      match items[|sent|]
      case Received(packet) =>
        if !packet.SiteVisit? {
          return sent, Err(WrongPacket);
        }
        var conflict := HasConflict(packet.visits);
        if conflict {
          return sent, Err(Conflicts);
        }
        sent := sent + [packet];
      case Broken =>
        return sent, Err(Receiving);
    }
    r := Result.Ok(());
  }

  /** What the visitors' side lets through is what the reconciler needs to be right. */
  lemma AcceptedReportsReconcile(item: Item, targets: seq<Target>, before: Policies, after: Policies, live: map<Id, Policy>)
    requires Acceptable(item) && DistinctTargets(targets) && Agree(after, live)
    requires forall s <- before :: FirstTarget(targets, s).Some?
    requires forall s :: ActionOf(after, s) == Effect(Plan(targets, item.packet.visits), ActionOf(before, s), s)
    ensures Reconciled(targets, item.packet.visits, live)
    ensures Settled(after, Plan(targets, item.packet.visits))
  {
    hide Plan, Effect, Reconciled, Settled, Consistent;
    AdjustReconciles(targets, item.packet.visits, before, after, live);
    PlanIsConsistent(targets, item.packet.visits);
    RepeatIsSilentIff(Plan(targets, item.packet.visits), before, after);
  }
}
