/**
  The reconciler of pest control: for one site it makes the policies at the authority follow the populations that
  visitors have counted.
 */
module AuthorityServers {
  import opened Wrappers
  import opened PestPackets

  type Id = nat

  datatype Policy = Policy(species: Text, action: Action)

  // --------------------------------------------------------- the authority

  /** One answered request. */
  datatype Exchange = Created(id: Id, policy: Policy) | Deleted(id: Id)

  /** The policies that stand after these exchanges. */
  function Live(log: seq<Exchange>): map<Id, Policy> {
    if log == [] then map[]
    else
      var before := Live(log[..|log| - 1]);
      match log[|log| - 1]
      case Created(id, policy) => before[id := policy]
      case Deleted(id) => before - {id}
  }

  lemma LiveAfter(log: seq<Exchange>, e: Exchange)
    ensures Live(log + [e]) == if e.Created? then Live(log)[e.id := e.policy] else Live(log) - {e.id}
  {
    assert (log + [e])[..|log|] == log;
  }

  lemma {:induction false} Unused(ids: set<Id>) returns (bound: Id)
    ensures forall id <- ids :: id < bound
  {
    bound := 0;
    if ids != {} {
      var id :| id in ids;
      bound := Unused(ids - {id});
      bound := if id < bound then bound else id + 1;
      assert forall x <- ids :: x == id || x in ids - {id};
    }
  }

  /** An authority that answers every request: a new policy gets any number that no standing policy has. */
  class Authority {
    var log: seq<Exchange>

    constructor ()
      ensures log == []
    {
      log := [];
    }

    method Create(policy: Policy) returns (id: Id)
      modifies this
      ensures id !in Live(old(log))
      ensures log == old(log) + [Created(id, policy)]
    {
      var bound := Unused(Live(log).Keys);
      assert bound !in Live(log);
      id :| id !in Live(log);
      log := log + [Created(id, policy)];
    }

    method Delete(id: Id)
      requires id in Live(log)
      modifies this
      ensures log == old(log) + [Deleted(id)]
    {
      log := log + [Deleted(id)];
    }
  }

  /** No species has two policies. */
  ghost predicate OnePerSpecies(live: map<Id, Policy>) {
    forall a <- live, b <- live :: live[a].species == live[b].species ==> a == b
  }

  /** At no moment did a species have two policies. */
  ghost predicate Orderly(log: seq<Exchange>) {
    forall k :: 0 <= k <= |log| ==> OnePerSpecies(Live(log[..k]))
  }

  // ------------------------------------------------------------- the plan

  /** The action that a count calls for. */
  function Verdict(t: Target, count: nat): Option<Action> {
    if t.min <= count <= t.max then None else if count < t.min then Some(Conserve) else Some(Cull)
  }

  function FirstTarget(targets: seq<Target>, species: Text): (r: Option<Target>)
    ensures r.Some? ==> r.value in targets && r.value.species == species
    ensures r.None? ==> forall t <- targets :: t.species != species
  {
    if targets == [] then None
    else if targets[0].species == species then Some(targets[0])
    else FirstTarget(targets[1..], species)
  }

  function LastTarget(targets: seq<Target>, species: Text): (r: Option<Target>)
    ensures r.Some? ==> r.value in targets && r.value.species == species
    ensures r.None? ==> forall t <- targets :: t.species != species
  {
    if targets == [] then None
    else if targets[|targets| - 1].species == species then Some(targets[|targets| - 1])
    else LastTarget(targets[..|targets| - 1], species)
  }

  predicate Visited(visits: seq<Visit>, species: Text) {
    exists v <- visits :: v.species == species
  }

  function LastCount(visits: seq<Visit>, species: Text): nat {
    if visits == [] then 0
    else if visits[|visits| - 1].species == species then visits[|visits| - 1].count
    else LastCount(visits[..|visits| - 1], species)
  }

  /** One thing to bring about: the policy that a species shall have. */
  datatype Setting = Setting(species: Text, want: Option<Action>)

  /** The settings for the visited species, in the order of the visits. */
  function VisitPlan(targets: seq<Target>, visits: seq<Visit>): seq<Setting> {
    if visits == [] then []
    else
      var v := visits[|visits| - 1];
      var t := FirstTarget(targets, v.species);
      VisitPlan(targets, visits[..|visits| - 1])
      + if t.Some? then [Setting(v.species, Verdict(t.value, v.count))] else []
  }

  /** The settings for the targets that nobody has seen, in the order of the targets. */
  function AbsentPlan(targets: seq<Target>, visits: seq<Visit>): seq<Setting> {
    if targets == [] then []
    else
      var t := targets[|targets| - 1];
      AbsentPlan(targets[..|targets| - 1], visits)
      + if Visited(visits, t.species) then [] else [Setting(t.species, Verdict(t, 0))]
  }

  function Plan(targets: seq<Target>, visits: seq<Visit>): seq<Setting> {
    VisitPlan(targets, visits) + AbsentPlan(targets, visits)
  }

  /** The policy of a species after a plan: the last setting for it. */
  function Effect(plan: seq<Setting>, before: Option<Action>, species: Text): Option<Action> {
    if plan == [] then before
    else if plan[|plan| - 1].species == species then plan[|plan| - 1].want
    else Effect(plan[..|plan| - 1], before, species)
  }

  // ------------------------------------------------------------ in place

  datatype Held = Held(id: Id, action: Action)

  type Policies = map<Text, Held>

  function ActionOf(policies: Policies, species: Text): Option<Action> {
    if species in policies then Some(policies[species].action) else None
  }

  /** What is held here is exactly what stands at the authority. */
  ghost predicate Agree(policies: Policies, live: map<Id, Policy>) {
    && (forall s <- policies :: policies[s].id in live && live[policies[s].id] == Policy(s, policies[s].action))
    && (forall id <- live :: live[id].species in policies && policies[live[id].species].id == id)
  }

  lemma AgreeIsOrderly(policies: Policies, log: seq<Exchange>, e: Exchange)
    requires Orderly(log) && Agree(policies, Live(log + [e]))
    ensures Orderly(log + [e])
  {
    var log' := log + [e];
    forall k | 0 <= k <= |log'| ensures OnePerSpecies(Live(log'[..k])) {
      if k <= |log| {
        assert log'[..k] == log[..k];
      } else {
        assert log'[..k] == log';
      }
    }
  }

  lemma CreationKeeps(policies: Policies, log: seq<Exchange>, id: Id, policy: Policy)
    requires Agree(policies, Live(log)) && Orderly(log) && policy.species !in policies && id !in Live(log)
    ensures var log' := log + [Created(id, policy)];
      Agree(policies[policy.species := Held(id, policy.action)], Live(log')) && Orderly(log')
  {
    hide Live, Orderly;
    LiveAfter(log, Created(id, policy));
    AgreeIsOrderly(policies[policy.species := Held(id, policy.action)], log, Created(id, policy));
  }

  lemma DeletionKeeps(policies: Policies, log: seq<Exchange>, species: Text)
    requires Agree(policies, Live(log)) && Orderly(log) && species in policies
    ensures policies[species].id in Live(log)
    ensures var log' := log + [Deleted(policies[species].id)];
      Agree(policies - {species}, Live(log')) && Orderly(log')
  {
    hide Live, Orderly;
    var e := Deleted(policies[species].id);
    LiveAfter(log, e);
    AgreeIsOrderly(policies - {species}, log, e);
  }

  /** The plan changes nothing on these policies. */
  ghost predicate Settled(policies: Policies, plan: seq<Setting>) {
    forall s <- plan :: ActionOf(policies, s.species) == s.want
  }

  /** How far a plan has been carried out. */
  ghost predicate Carried(plan: seq<Setting>, before: Policies, after: Policies, log0: seq<Exchange>, log1: seq<Exchange>) {
    && (forall s :: ActionOf(after, s) == Effect(plan, ActionOf(before, s), s))
    && log0 <= log1
    && (log0 == log1 <==> Settled(before, plan))
    && (log0 == log1 ==> before == after)
  }

  /** What bringing about one setting does to the policies, and the exchanges it takes. */
  function Exchanges(before: Policies, after: Policies, s: Setting): seq<Exchange> {
    if ActionOf(before, s.species) == s.want then []
    else
      (if s.species in before then [Deleted(before[s.species].id)] else [])
      + if s.species in after then [Created(after[s.species].id, Policy(s.species, after[s.species].action))] else []
  }

  ghost predicate SetTo(before: Policies, after: Policies, s: Setting) {
    && ActionOf(after, s.species) == s.want
    && after - {s.species} == before - {s.species}
    && (ActionOf(before, s.species) == s.want ==> after == before)
  }

  lemma NothingCarried(policies: Policies, log: seq<Exchange>)
    ensures Carried([], policies, policies, log, log)
  {
  }

  lemma CarriedOn(plan: seq<Setting>, s: Setting, p0: Policies, p1: Policies, p2: Policies,
                  log0: seq<Exchange>, log1: seq<Exchange>)
    requires Carried(plan, p0, p1, log0, log1) && SetTo(p1, p2, s)
    ensures Carried(plan + [s], p0, p2, log0, log1 + Exchanges(p1, p2, s))
  {
    hide Exchanges, Settled;
    var plan' := plan + [s];
    assert plan'[..|plan|] == plan;
    ExchangesIff(p1, p2, s);
    SettledOn(p0, plan, s);
    forall x: Text ensures ActionOf(p2, x) == Effect(plan', ActionOf(p0, x), x) {
      if x != s.species {
        assert x in p2 <==> x in p2 - {s.species};
        assert x in p1 <==> x in p1 - {s.species};
        assert x in p1 ==> (p1 - {s.species})[x] == p1[x];
        assert x in p2 ==> (p2 - {s.species})[x] == p2[x];
      }
    }
    assert log0 == log1 + Exchanges(p1, p2, s) <==> log0 == log1 && Exchanges(p1, p2, s) == [];
  }

  lemma ExchangesIff(before: Policies, after: Policies, s: Setting)
    requires SetTo(before, after, s)
    ensures Exchanges(before, after, s) == [] <==> ActionOf(before, s.species) == s.want
  {
  }

  lemma SettledOn(policies: Policies, plan: seq<Setting>, s: Setting)
    ensures Settled(policies, plan + [s]) <==> Settled(policies, plan) && ActionOf(policies, s.species) == s.want
  {
    if Settled(policies, plan + [s]) {
      assert s in plan + [s];
      forall x <- plan ensures ActionOf(policies, x.species) == x.want {
        assert x in plan + [s];
      }
    }
  }

  class AuthorityServer {
    var policies: Policies

    constructor ()
      ensures policies == map[]
    {
      policies := map[];
    }

    ghost predicate Valid(authority: Authority)
      reads this, authority
    {
      Agree(policies, Live(authority.log)) && Orderly(authority.log)
    }

    method DeletePolicy(authority: Authority, species: Text)
      requires Valid(authority)
      modifies this, authority
      ensures Valid(authority)
      ensures SetTo(old(policies), policies, Setting(species, None))
      ensures authority.log == old(authority.log) + Exchanges(old(policies), policies, Setting(species, None))
      ensures species !in policies && policies == old(policies) - {species}
    {
      hide Agree, Orderly, Live;
      if species in policies {
        var id := policies[species].id;
        DeletionKeeps(policies, authority.log, species);
        policies := policies - {species};
        authority.Delete(id);
      } else {
        assert policies - {species} == policies;
      }
    }

    method AddPolicy(authority: Authority, species: Text, action: Action)
      requires Valid(authority)
      modifies this, authority
      ensures Valid(authority)
      ensures SetTo(old(policies), policies, Setting(species, Some(action)))
      ensures authority.log == old(authority.log) + Exchanges(old(policies), policies, Setting(species, Some(action)))
    {
      hide Agree, Orderly, Live;
      if species in policies && policies[species].action == action {
        return;
      }
      DeletePolicy(authority, species);
      label Gone:
      var id := authority.Create(Policy(species, action));
      CreationKeeps(policies, old@Gone(authority.log), id, Policy(species, action));
      policies := policies[species := Held(id, action)];
      assert policies - {species} == old(policies) - {species};
    }

    method AdjustPolicies(authority: Authority, targets: seq<Target>, visits: seq<Visit>)
      requires Valid(authority)
      modifies this, authority
      ensures Valid(authority)
      ensures Carried(Plan(targets, visits), old(policies), policies, old(authority.log), authority.log)
    {
      hide Carried, SetTo, Exchanges, Effect, Agree, Orderly, Live, FirstTarget, ActionOf;
      ghost var p0, log0 := policies, authority.log;
      NothingCarried(p0, log0);
      var i := 0;
      while i < |visits|
        invariant 0 <= i <= |visits| && Valid(authority)
        invariant Carried(VisitPlan(targets, visits[..i]), p0, policies, log0, authority.log)
      {
        var v := visits[i];
        assert visits[..i + 1][..i] == visits[..i];
        var found := FirstTarget(targets, v.species);
        ghost var p1, log1 := policies, authority.log;
        if found.Some? {
          var t := found.value;
          if t.min <= v.count <= t.max {
            DeletePolicy(authority, v.species);
          } else if v.count < t.min {
            AddPolicy(authority, v.species, Conserve);
          } else if v.count > t.max {
            AddPolicy(authority, v.species, Cull);
          }
          CarriedOn(VisitPlan(targets, visits[..i]), Setting(v.species, Verdict(t, v.count)), p0, p1, policies, log0, log1);
        } else {
          assert VisitPlan(targets, visits[..i + 1]) == VisitPlan(targets, visits[..i]);
        }
        i := i + 1;
      }
      assert visits[..|visits|] == visits;
      ghost var plan := VisitPlan(targets, visits);
      assert plan + AbsentPlan([], visits) == plan;
      i := 0;
      while i < |targets|
        invariant 0 <= i <= |targets| && Valid(authority)
        invariant Carried(plan + AbsentPlan(targets[..i], visits), p0, policies, log0, authority.log)
      {
        var t := targets[i];
        assert targets[..i + 1][..i] == targets[..i];
        ghost var p1, log1 := policies, authority.log;
        if !Visited(visits, t.species) {
          if t.min <= 0 <= t.max {
            DeletePolicy(authority, t.species);
          } else if t.min > 0 {
            AddPolicy(authority, t.species, Conserve);
          }
          ghost var s := Setting(t.species, Verdict(t, 0));
          CarriedOn(plan + AbsentPlan(targets[..i], visits), s, p0, p1, policies, log0, log1);
          assert plan + AbsentPlan(targets[..i], visits) + [s] == plan + AbsentPlan(targets[..i + 1], visits);
        } else {
          assert AbsentPlan(targets[..i + 1], visits) == AbsentPlan(targets[..i], visits);
        }
        i := i + 1;
      }
      assert targets[..|targets|] == targets;
    }

    /** The rounds of a connection: one adjustment for each report. */
    method Run(authority: Authority, targets: seq<Target>, rounds: seq<seq<Visit>>)
      requires policies == map[] && authority.log == []
      requires DistinctTargets(targets) && forall r <- rounds :: ConflictFree(r)
      modifies this, authority
      ensures Valid(authority)
      ensures rounds != [] ==> Reconciled(targets, rounds[|rounds| - 1], Live(authority.log))
    {
      var i := 0;
      while i < |rounds|
        invariant 0 <= i <= |rounds| && Valid(authority)
        invariant forall s <- policies :: FirstTarget(targets, s).Some?
        invariant i > 0 ==> Reconciled(targets, rounds[i - 1], Live(authority.log))
      {
        ghost var before := policies;
        AdjustPolicies(authority, targets, rounds[i]);
        AdjustReconciles(targets, rounds[i], before, policies, Live(authority.log));
        i := i + 1;
      }
    }
  }

  // ----------------------------------------------------- what a plan does

  ghost predicate DistinctTargets(targets: seq<Target>) {
    forall i, j :: 0 <= i < j < |targets| ==> targets[i].species != targets[j].species
  }

  ghost predicate ConflictFree(visits: seq<Visit>) {
    forall v <- visits, w <- visits :: v.species == w.species ==> v.count == w.count
  }

  lemma {:induction false} EffectOfBoth(p: seq<Setting>, q: seq<Setting>, before: Option<Action>, species: Text)
    ensures Effect(p + q, before, species) == Effect(q, Effect(p, before, species), species)
  {
    if q == [] {
      assert p + q == p;
    } else {
      assert (p + q)[..|p + q| - 1] == p + q[..|q| - 1];
      EffectOfBoth(p, q[..|q| - 1], before, species);
    }
  }

  lemma {:induction false} VisitEffect(targets: seq<Target>, visits: seq<Visit>, before: Option<Action>, species: Text)
    ensures Effect(VisitPlan(targets, visits), before, species) ==
            var t := FirstTarget(targets, species);
            if t.Some? && Visited(visits, species) then Verdict(t.value, LastCount(visits, species)) else before
    decreases |visits|
  {
    if visits != [] {
      var init, v := visits[..|visits| - 1], visits[|visits| - 1];
      assert visits == init + [v];
      VisitEffect(targets, init, before, species);
      EffectOfBoth(VisitPlan(targets, init), VisitPlan(targets, visits)[|VisitPlan(targets, init)|..], before, species);
      assert Visited(visits, species) <==> Visited(init, species) || v.species == species;
    }
  }

  lemma {:induction false} AbsentEffect(targets: seq<Target>, visits: seq<Visit>, before: Option<Action>, species: Text)
    ensures Effect(AbsentPlan(targets, visits), before, species) ==
            var t := LastTarget(targets, species);
            if t.Some? && !Visited(visits, species) then Verdict(t.value, 0) else before
    decreases |targets|
  {
    if targets != [] {
      var init := targets[..|targets| - 1];
      AbsentEffect(init, visits, before, species);
      EffectOfBoth(AbsentPlan(init, visits), AbsentPlan(targets, visits)[|AbsentPlan(init, visits)|..], before, species);
    }
  }

  /**
    The plan for any targets and any report, repeats and conflicts included: a species without a target keeps its
    policy, a visited one gets what its first target says of the last count, an absent one what its last target
    says of none.
   */
  lemma PlanExact(targets: seq<Target>, visits: seq<Visit>, before: Option<Action>, species: Text)
    ensures var first, last := FirstTarget(targets, species), LastTarget(targets, species);
      && (first.None? <==> last.None?)
      && Effect(Plan(targets, visits), before, species) ==
         if first.None? then before
         else if Visited(visits, species) then Verdict(first.value, LastCount(visits, species))
         else Verdict(last.value, 0)
  {
    hide Verdict, LastCount, VisitPlan, AbsentPlan, Effect;
    EffectOfBoth(VisitPlan(targets, visits), AbsentPlan(targets, visits), before, species);
    VisitEffect(targets, visits, before, species);
    AbsentEffect(targets, visits, Effect(VisitPlan(targets, visits), before, species), species);
  }

  /** The count that a report gives for a species: none counts as zero. */
  ghost predicate Counted(visits: seq<Visit>, species: Text, count: nat) {
    if Visited(visits, species) then exists v <- visits :: v.species == species && v.count == count else count == 0
  }

  ghost predicate Stands(live: map<Id, Policy>, species: Text, action: Action) {
    exists id <- live :: live[id] == Policy(species, action)
  }

  /**
    Nothing but targets has policies, none has two, and each is culled if and only if its count is above the range,
    conserved if and only if it is below. Of a range with its bounds exchanged the lower bound counts.
   */
  ghost predicate Reconciled(targets: seq<Target>, visits: seq<Visit>, live: map<Id, Policy>) {
    && OnePerSpecies(live)
    && (forall id <- live :: exists t <- targets :: t.species == live[id].species)
    && (forall t <- targets, count: nat :: Counted(visits, t.species, count) ==>
          && (Stands(live, t.species, Cull) <==> count > t.max && count >= t.min)
          && (Stands(live, t.species, Conserve) <==> count < t.min))
  }

  lemma {:induction false} LastIsCounted(visits: seq<Visit>, species: Text)
    ensures Counted(visits, species, LastCount(visits, species))
  {
    if visits != [] {
      var init, v := visits[..|visits| - 1], visits[|visits| - 1];
      assert visits == init + [v];
      LastIsCounted(init, species);
    }
  }

  lemma CountIsOne(visits: seq<Visit>, species: Text, count: nat)
    requires ConflictFree(visits) && Counted(visits, species, count)
    ensures count == LastCount(visits, species)
  {
    LastIsCounted(visits, species);
  }

  lemma TargetIsOne(targets: seq<Target>, t: Target, u: Target)
    requires DistinctTargets(targets) && t in targets && u in targets && t.species == u.species
    ensures t == u
  {
  }

  /** With distinct targets and a report without conflicts, each target is set to what its count calls for. */
  lemma PlanIsCorrect(targets: seq<Target>, visits: seq<Visit>, before: Option<Action>, t: Target, count: nat)
    requires DistinctTargets(targets) && ConflictFree(visits) && t in targets && Counted(visits, t.species, count)
    ensures var want := Effect(Plan(targets, visits), before, t.species);
      && (want == Some(Cull) <==> count > t.max && count >= t.min)
      && (want == Some(Conserve) <==> count < t.min)
  {
    hide LastCount, Plan, Effect, DistinctTargets, ConflictFree;
    var first, last := FirstTarget(targets, t.species), LastTarget(targets, t.species);
    PlanExact(targets, visits, before, t.species);
    TargetIsOne(targets, t, first.value);
    TargetIsOne(targets, t, last.value);
    CountIsOne(visits, t.species, count);
  }

  lemma AgreeShows(policies: Policies, live: map<Id, Policy>, species: Text, action: Action)
    requires Agree(policies, live)
    ensures Stands(live, species, action) <==> ActionOf(policies, species) == Some(action)
  {
    if ActionOf(policies, species) == Some(action) {
      assert live[policies[species].id] == Policy(species, action);
    }
  }

  lemma AdjustReconciles(targets: seq<Target>, visits: seq<Visit>, before: Policies, after: Policies, live: map<Id, Policy>)
    requires DistinctTargets(targets) && ConflictFree(visits) && Agree(after, live)
    requires forall s <- before :: FirstTarget(targets, s).Some?
    requires forall s :: ActionOf(after, s) == Effect(Plan(targets, visits), ActionOf(before, s), s)
    ensures Reconciled(targets, visits, live)
    ensures forall s <- after :: FirstTarget(targets, s).Some?
  {
    hide Plan, Effect, DistinctTargets, ConflictFree, Counted, Stands;
    forall s <- after ensures FirstTarget(targets, s).Some? {
      PlanExact(targets, visits, ActionOf(before, s), s);
    }
    forall id <- live ensures exists t <- targets :: t.species == live[id].species {
      assert FirstTarget(targets, live[id].species).value in targets;
    }
    forall t <- targets, count: nat | Counted(visits, t.species, count)
      ensures Stands(live, t.species, Cull) <==> count > t.max && count >= t.min
      ensures Stands(live, t.species, Conserve) <==> count < t.min
    {
      PlanIsCorrect(targets, visits, ActionOf(before, t.species), t, count);
      AgreeShows(after, live, t.species, Cull);
      AgreeShows(after, live, t.species, Conserve);
    }
  }

  // ------------------------------------------------------------ repetition

  /** A plan never sets one species to two things. */
  ghost predicate Consistent(plan: seq<Setting>) {
    forall s <- plan, r <- plan :: s.species == r.species ==> s.want == r.want
  }

  lemma {:induction false} EffectIsSet(plan: seq<Setting>, before: Option<Action>, s: Setting)
    requires s in plan
    ensures Setting(s.species, Effect(plan, before, s.species)) in plan
  {
    if plan[|plan| - 1].species != s.species {
      assert plan == plan[..|plan| - 1] + [plan[|plan| - 1]];
      EffectIsSet(plan[..|plan| - 1], before, s);
    }
  }

  /** Carrying out a plan once more sends nothing exactly if the plan never sets a species to two things. */
  lemma RepeatIsSilentIff(plan: seq<Setting>, before: Policies, after: Policies)
    requires forall s :: ActionOf(after, s) == Effect(plan, ActionOf(before, s), s)
    ensures Settled(after, plan) <==> Consistent(plan)
  {
    hide Effect;
    forall s <- plan ensures Setting(s.species, ActionOf(after, s.species)) in plan {
      EffectIsSet(plan, ActionOf(before, s.species), s);
    }
  }

  lemma {:induction false} VisitSettings(targets: seq<Target>, visits: seq<Visit>, s: Setting)
    requires s in VisitPlan(targets, visits)
    ensures exists v <- visits :: v.species == s.species && FirstTarget(targets, v.species).Some?
                                  && s.want == Verdict(FirstTarget(targets, v.species).value, v.count)
    decreases |visits|
  {
    var init, v := visits[..|visits| - 1], visits[|visits| - 1];
    assert v in visits;
    if s in VisitPlan(targets, init) {
      VisitSettings(targets, init, s);
      assert forall w <- init :: w in visits;
    }
  }

  lemma {:induction false} AbsentSettings(targets: seq<Target>, visits: seq<Visit>, s: Setting)
    requires s in AbsentPlan(targets, visits)
    ensures exists t <- targets :: t.species == s.species && !Visited(visits, t.species) && s.want == Verdict(t, 0)
    decreases |targets|
  {
    var init, t := targets[..|targets| - 1], targets[|targets| - 1];
    assert t in targets;
    if s in AbsentPlan(init, visits) {
      AbsentSettings(init, visits, s);
      assert forall u <- init :: u in targets;
    }
  }

  /** Distinct targets and a report without conflicts make a consistent plan: reporting it again sends nothing. */
  lemma PlanIsConsistent(targets: seq<Target>, visits: seq<Visit>)
    requires DistinctTargets(targets) && ConflictFree(visits)
    ensures Consistent(Plan(targets, visits))
  {
    hide Verdict, VisitPlan, AbsentPlan, FirstTarget;
    forall s <- Plan(targets, visits), r <- Plan(targets, visits) | s.species == r.species
      ensures s.want == r.want
    {
      if s in VisitPlan(targets, visits) { VisitSettings(targets, visits, s); } else { AbsentSettings(targets, visits, s); }
      if r in VisitPlan(targets, visits) { VisitSettings(targets, visits, r); } else { AbsentSettings(targets, visits, r); }
    }
  }
}
