/** The tree of the file store stands for a flat map from paths to lists of revisions. */
module VcsRefinement {
  import opened Wrappers
  import opened Seqs
  import opened VcsPath
  import opened Vcs

  // ------------------------------------------------------------- invariant

  /** Every reference is known, below the next fresh one, and nothing leads back to the root. */
  ghost predicate RefsOk(s: Store) {
    && ROOT in s.dirs
    && (forall d <- s.dirs :: d < s.next && forall e <- s.dirs[d] ::
          e.subdirs in s.dirs && e.subdirs != ROOT && e.releases in s.files)
    && (forall f <- s.files :: f < s.next)
  }

  /** No list is shared by two entries. */
  ghost predicate Unshared(s: Store) {
    forall c <- s.dirs, d <- s.dirs :: forall a <- s.dirs[c], b <- s.dirs[d] ::
      a.subdirs == b.subdirs || a.releases == b.releases ==> c == d && a == b
  }

  /** Siblings have different names. */
  ghost predicate NamesUnique(s: Store) {
    forall d <- s.dirs :: forall i, j :: 0 <= i < j < |s.dirs[d]| ==> s.dirs[d][i].name != s.dirs[d][j].name
  }

  ghost predicate TreeOk(s: Store) {
    RefsOk(s) && Unshared(s) && NamesUnique(s)
  }

  /** Every entry has a release somewhere in its subtree. */
  ghost predicate Inhabited(s: Store, names: seq<Name>) {
    exists more: seq<Name> :: Lookup(s, names + more) != []
  }

  ghost predicate AllInhabited(s: Store) {
    forall names: seq<Name> :: names != [] && EntryAt(s, names).Some? ==> Inhabited(s, names)
  }

  ghost predicate Inv(s: Store) {
    TreeOk(s) && AllInhabited(s)
  }

  lemma {:induction false} WalkKnown(s: Store, names: seq<Name>)
    requires RefsOk(s)
    ensures DirAt(s, names).Some? ==> DirAt(s, names).value in s.dirs
    ensures names != [] && EntryAt(s, names).Some? ==>
              var up := DirAt(s, names[..|names| - 1]);
              up.Some? && up.value in s.dirs && EntryAt(s, names).value in s.dirs[up.value]
              && EntryAt(s, names).value.name == names[|names| - 1]
    decreases |names|
  {
    if names != [] {
      WalkKnown(s, names[..|names| - 1]);
    }
  }

  lemma SameChild(s: Store, c: Ref, d: Ref, a: Entry, b: Entry)
    requires Unshared(s) && c in s.dirs && d in s.dirs && a in s.dirs[c] && b in s.dirs[d]
    requires a.subdirs == b.subdirs || a.releases == b.releases
    ensures c == d && a == b
  {
  }

  lemma KnownEntry(s: Store, d: Ref, e: Entry)
    requires RefsOk(s) && d in s.dirs && e in s.dirs[d]
    ensures e.subdirs in s.dirs && e.subdirs != ROOT && e.releases in s.files
  {
  }

  /** A directory is reached by one sequence of names only. */
  lemma {:induction false} OneWay(s: Store, p: seq<Name>, q: seq<Name>)
    requires TreeOk(s) && DirAt(s, p).Some? && DirAt(s, p) == DirAt(s, q)
    ensures p == q
    decreases |p|
  {
    hide RefsOk, Unshared, NamesUnique, EntryAt;
    WalkKnown(s, p);
    WalkKnown(s, q);
    if p != [] && q != [] {
      OneEntryUp(s, p, q);
      OneWay(s, p[..|p| - 1], q[..|q| - 1]);
      assert p == p[..|p| - 1] + [p[|p| - 1]] && q == q[..|q| - 1] + [q[|q| - 1]];
    } else if p != [] {
      KnownEntry(s, DirAt(s, p[..|p| - 1]).value, EntryAt(s, p).value);
    } else if q != [] {
      KnownEntry(s, DirAt(s, q[..|q| - 1]).value, EntryAt(s, q).value);
    }
  }

  /** Two walks to one entry's lists come through one directory and one name. */
  lemma OneEntryUp(s: Store, p: seq<Name>, q: seq<Name>)
    requires TreeOk(s) && p != [] && q != [] && EntryAt(s, p).Some? && EntryAt(s, q).Some?
    requires EntryAt(s, p).value.subdirs == EntryAt(s, q).value.subdirs
          || EntryAt(s, p).value.releases == EntryAt(s, q).value.releases
    ensures DirAt(s, p[..|p| - 1]).Some? && DirAt(s, p[..|p| - 1]) == DirAt(s, q[..|q| - 1])
    ensures p[|p| - 1] == q[|q| - 1]
  {
    hide RefsOk, Unshared, NamesUnique, EntryAt;
    WalkKnown(s, p);
    WalkKnown(s, q);
    SameChild(s, DirAt(s, p[..|p| - 1]).value, DirAt(s, q[..|q| - 1]).value, EntryAt(s, p).value, EntryAt(s, q).value);
  }

  // ---------------------------------------------------------- a new entry

  lemma {:induction false} FindAppended(entries: seq<Entry>, e: Entry, name: Name)
    ensures Find(entries + [e], name) ==
            if Find(entries, name).Some? then Find(entries, name) else if e.name == name then Some(e) else None
  {
    if entries == [] {
      assert entries + [e] == [e];
      assert [e][1..] == [];
    } else {
      assert (entries + [e])[1..] == entries[1..] + [e];
      FindAppended(entries[1..], e, name);
    }
  }

  lemma AddEntryTree(s: Store, d: Ref, name: Name, releases: seq<Data>)
    requires TreeOk(s) && d in s.dirs && Find(s.dirs[d], name).None?
    ensures TreeOk(AddEntry(s, d, name, releases))
  {
    AddEntryRefs(s, d, name, releases);
    AddEntryUnshared(s, d, name, releases);
    AddEntryNames(s, d, name, releases);
  }

  lemma AddEntryRefs(s: Store, d: Ref, name: Name, releases: seq<Data>)
    requires RefsOk(s) && d in s.dirs
    ensures RefsOk(AddEntry(s, d, name, releases))
  {
  }

  lemma AddEntryKnown(s: Store, d: Ref, name: Name, releases: seq<Data>, c: Ref, e: Entry)
    requires RefsOk(s) && d in s.dirs
    requires var s' := AddEntry(s, d, name, releases); c in s'.dirs && e in s'.dirs[c]
    ensures if e.subdirs == s.next || e.releases == s.next then c == d && e == Entry(name, s.next, s.next)
            else c in s.dirs && e in s.dirs[c]
  {
  }

  lemma AddEntryUnshared(s: Store, d: Ref, name: Name, releases: seq<Data>)
    requires RefsOk(s) && Unshared(s) && d in s.dirs
    ensures Unshared(AddEntry(s, d, name, releases))
  {
    hide RefsOk, AddEntry;
    var s' := AddEntry(s, d, name, releases);
    forall c <- s'.dirs, d' <- s'.dirs, a <- s'.dirs[c], b <- s'.dirs[d'] | a.subdirs == b.subdirs || a.releases == b.releases
      ensures c == d' && a == b
    {
      AddEntryKnown(s, d, name, releases, c, a);
      AddEntryKnown(s, d, name, releases, d', b);
    }
  }

  lemma AddEntryNames(s: Store, d: Ref, name: Name, releases: seq<Data>)
    requires RefsOk(s) && NamesUnique(s) && d in s.dirs && Find(s.dirs[d], name).None?
    ensures NamesUnique(AddEntry(s, d, name, releases))
  {
    var s' := AddEntry(s, d, name, releases);
    assert forall e <- s.dirs[d] :: e.name != name;
    assert forall c <- s'.dirs :: c != d && c != s.next ==> s'.dirs[c] == s.dirs[c];
    assert s'.dirs[s.next] == [];
  }

  lemma FindAfterAdd(s: Store, d: Ref, name: Name, releases: seq<Data>, c: Ref, last: Name)
    requires RefsOk(s) && d in s.dirs && c in s.dirs && Find(s.dirs[d], name).None?
    ensures Find(Dir(AddEntry(s, d, name, releases), c), last) ==
            if c == d && last == name then Some(Entry(name, s.next, s.next)) else Find(Dir(s, c), last)
    ensures Find(Dir(AddEntry(s, d, name, releases), s.next), last) == None
  {
    FindAppended(s.dirs[d], Entry(name, s.next, s.next), last);
  }

  /** The walks after a new entry in the directory reached by `done`: one path more, nothing else. */
  lemma {:induction false} AddEntryWalks(s: Store, done: seq<Name>, name: Name, releases: seq<Data>, q: seq<Name>)
    requires TreeOk(s) && DirAt(s, done).Some? && Find(Dir(s, DirAt(s, done).value), name).None?
    ensures var s' := AddEntry(s, DirAt(s, done).value, name, releases);
      && (q != [] ==> EntryAt(s', q) == if q == done + [name] then Some(Entry(name, s.next, s.next)) else EntryAt(s, q))
      && (DirAt(s', q) == if q == done + [name] then Some(s.next) else DirAt(s, q))
    ensures q == done + [name] ==> DirAt(s, q) == None
    decreases |q|
  {
    hide RefsOk, Unshared, NamesUnique, AddEntry, Find;
    if q != [] {
      var d := DirAt(s, done).value;
      var init, last := q[..|q| - 1], q[|q| - 1];
      assert q == init + [last];
      WalkKnown(s, done);
      WalkKnown(s, init);
      AddEntryWalks(s, done, name, releases, init);
      if DirAt(s, init).Some? {
        FindAfterAdd(s, d, name, releases, DirAt(s, init).value, last);
        if DirAt(s, init) == Some(d) {
          OneWay(s, init, done);
        }
      } else {
        FindAfterAdd(s, d, name, releases, d, last);
      }
      assert q == done + [name] <==> init == done && last == name by { SplitLast(q, done, name); }
    }
  }

  lemma SplitLast(q: seq<Name>, done: seq<Name>, name: Name)
    requires q != []
    ensures q == done + [name] <==> q[..|q| - 1] == done && q[|q| - 1] == name
  {
    assert q == q[..|q| - 1] + [q[|q| - 1]];
  }

  lemma AddEntryLookup(s: Store, done: seq<Name>, name: Name, releases: seq<Data>, q: seq<Name>)
    requires TreeOk(s) && DirAt(s, done).Some? && Find(Dir(s, DirAt(s, done).value), name).None?
    ensures var s' := AddEntry(s, DirAt(s, done).value, name, releases);
      Lookup(s', q) == if q == done + [name] then releases else Lookup(s, q)
    ensures q == done + [name] ==> Lookup(s, q) == []
  {
    if q != [] {
      AddEntryWalks(s, done, name, releases, q);
      WalkKnown(s, q);
      if q == done + [name] {
        assert q[..|q| - 1] == done;
      }
    }
  }

  // --------------------------------------------------------- a new revision

  lemma {:induction false} PushWalks(s: Store, f: Ref, data: Data, q: seq<Name>)
    ensures DirAt(Push(s, f, data), q) == DirAt(s, q)
    ensures q != [] ==> EntryAt(Push(s, f, data), q) == EntryAt(s, q)
    decreases |q|
  {
    if q != [] {
      PushWalks(s, f, data, q[..|q| - 1]);
    }
  }

  /** An entry is reached by one sequence of names only, and so are its releases. */
  lemma OneEntry(s: Store, p: seq<Name>, q: seq<Name>)
    requires TreeOk(s) && p != [] && q != [] && EntryAt(s, p).Some? && EntryAt(s, q).Some?
    requires EntryAt(s, p).value.releases == EntryAt(s, q).value.releases
    ensures p == q
  {
    hide TreeOk, EntryAt, DirAt;
    OneEntryUp(s, p, q);
    OneWay(s, p[..|p| - 1], q[..|q| - 1]);
    SplitLast(p, q[..|q| - 1], q[|q| - 1]);
    assert q == q[..|q| - 1] + [q[|q| - 1]];
  }

  lemma PushTree(s: Store, f: Ref, data: Data)
    requires TreeOk(s) && f in s.files
    ensures TreeOk(Push(s, f, data))
  {
    var s' := Push(s, f, data);
    assert s'.dirs == s.dirs && s'.files.Keys == s.files.Keys && s'.next == s.next by { PushKeeps(s, f, data); }
    hide Push, Committed;
    SameTree(s, s');
  }

  lemma PushKeeps(s: Store, f: Ref, data: Data)
    requires f in s.files
    ensures var s' := Push(s, f, data); s'.dirs == s.dirs && s'.files.Keys == s.files.Keys && s'.next == s.next
  {
    hide Committed;
  }

  lemma SameTree(s: Store, s': Store)
    requires TreeOk(s) && s'.dirs == s.dirs && s'.files.Keys == s.files.Keys && s'.next == s.next
    ensures TreeOk(s')
  {
    assert forall f :: f in s'.files <==> f in s.files;
  }

  lemma EntryFile(s: Store, p: seq<Name>)
    requires TreeOk(s) && p != [] && EntryAt(s, p).Some?
    ensures EntryAt(s, p).value.releases in s.files
  {
    hide Unshared, NamesUnique, EntryAt, DirAt;
    WalkKnown(s, p);
    KnownEntry(s, DirAt(s, p[..|p| - 1]).value, EntryAt(s, p).value);
  }

  lemma PushLookup(s: Store, p: seq<Name>, data: Data, q: seq<Name>)
    requires TreeOk(s) && p != [] && EntryAt(s, p).Some?
    ensures var s' := Push(s, EntryAt(s, p).value.releases, data);
      Lookup(s', q) == if q == p then Committed(Lookup(s, p), data) else Lookup(s, q)
  {
    hide TreeOk, EntryAt;
    if q != [] {
      PushWalks(s, EntryAt(s, p).value.releases, data, q);
      if EntryAt(s, q).Some? && EntryAt(s, q).value.releases == EntryAt(s, p).value.releases {
        OneEntry(s, p, q);
      }
    }
  }

  // ----------------------------------------------------------------- commit

  /** After a commit under `target`: its revisions have grown by the data, and every other path is as before. */
  ghost predicate CommitDone(s: Store, s': Store, target: seq<Name>, data: Data) {
    && TreeOk(s')
    && (forall q :: Lookup(s', q) == if q == target then Committed(Lookup(s, target), data) else Lookup(s, q))
    && (forall q :: q != [] && EntryAt(s', q).Some? ==> EntryAt(s, q).Some? || q <= target)
  }

  lemma {:induction false} CommitFromDone(s: Store, done: seq<Name>, names: seq<Name>, data: Data)
    requires TreeOk(s) && DirAt(s, done).Some? && names != []
    ensures var (s', r) := CommitFrom(s, DirAt(s, done).value, names, data);
      CommitDone(s, s', done + names, data) && r == |Lookup(s', done + names)| - 1
    decreases |names|, 1
  {
    hide TreeOk, CommitDone, Find, Push, AddEntry, Committed;
    var d := DirAt(s, done).value;
    var here := done + [names[0]];
    assert here[..|here| - 1] == done;
    assert EntryAt(s, here) == Find(Dir(s, d), names[0]);
    if |names| > 1 {
      assert here + names[1..] == done + names;
      if Find(Dir(s, d), names[0]).Some? {
        CommitFromDone(s, here, names[1..], data);
      } else {
        NewDirectory(s, done, names, data);
      }
    } else {
      assert here == done + names;
      if Find(Dir(s, d), names[0]).Some? {
        ExistingFile(s, here, data);
      } else {
        NewFile(s, done, names[0], data);
      }
    }
  }

  lemma ExistingFile(s: Store, target: seq<Name>, data: Data)
    requires TreeOk(s) && target != [] && EntryAt(s, target).Some?
    ensures var f := EntryAt(s, target).value.releases;
      var s' := Push(s, f, data);
      CommitDone(s, s', target, data) && |Lookup(s', target)| == |Committed(File(s, f), data)|
  {
    hide TreeOk, EntryAt, Push, Committed;
    var f := EntryAt(s, target).value.releases;
    EntryFile(s, target);
    PushTree(s, f, data);
    forall q: seq<Name>
      ensures Lookup(Push(s, f, data), q) == if q == target then Committed(Lookup(s, target), data) else Lookup(s, q)
      ensures q != [] ==> EntryAt(Push(s, f, data), q) == EntryAt(s, q)
    {
      PushLookup(s, target, data, q);
      PushWalks(s, f, data, q);
    }
  }

  lemma AddEntryAt(s: Store, done: seq<Name>, name: Name, releases: seq<Data>)
    requires TreeOk(s) && DirAt(s, done).Some? && Find(Dir(s, DirAt(s, done).value), name).None?
    ensures TreeOk(AddEntry(s, DirAt(s, done).value, name, releases))
  {
    hide Unshared, NamesUnique, Find, AddEntry;
    WalkKnown(s, done);
    AddEntryTree(s, DirAt(s, done).value, name, releases);
  }

  lemma NewFile(s: Store, done: seq<Name>, name: Name, data: Data)
    requires TreeOk(s) && DirAt(s, done).Some? && Find(Dir(s, DirAt(s, done).value), name).None?
    ensures var s' := AddEntry(s, DirAt(s, done).value, name, [data]);
      CommitDone(s, s', done + [name], data) && Lookup(s', done + [name]) == [data]
  {
    hide TreeOk, EntryAt, DirAt, AddEntry, Lookup, Find;
    var d := DirAt(s, done).value;
    var target := done + [name];
    AddEntryAt(s, done, name, [data]);
    AddEntryLookup(s, done, name, [data], target);
    assert Committed([], data) == [data];
    forall q: seq<Name>
      ensures Lookup(AddEntry(s, d, name, [data]), q) == if q == target then [data] else Lookup(s, q)
      ensures q != [] ==> EntryAt(AddEntry(s, d, name, [data]), q) == EntryAt(s, q) || q == target
    {
      AddEntryLookup(s, done, name, [data], q);
      AddEntryWalks(s, done, name, [data], q);
    }
  }

  lemma NewDirectory(s: Store, done: seq<Name>, names: seq<Name>, data: Data)
    requires TreeOk(s) && DirAt(s, done).Some? && |names| > 1 && Find(Dir(s, DirAt(s, done).value), names[0]).None?
    ensures var (s', r) := CommitFrom(s, DirAt(s, done).value, names, data);
      CommitDone(s, s', done + names, data) && r == |Lookup(s', done + names)| - 1
    decreases |names|, 0
  {
    hide TreeOk, EntryAt, DirAt, AddEntry, Lookup, Find, CommitDone;
    var d, here := DirAt(s, done).value, done + [names[0]];
    var mid := AddEntry(s, d, names[0], []);
    AddEntryAt(s, done, names[0], []);
    AddEntryWalks(s, done, names[0], [], here);
    CommitFromDone(mid, here, names[1..], data);
    assert here + names[1..] == done + names;
    ThroughNewDirectory(s, done, names, mid, CommitFrom(mid, s.next, names[1..], data).0, data);
  }

  lemma ThroughNewDirectory(s: Store, done: seq<Name>, names: seq<Name>, mid: Store, s': Store, data: Data)
    requires TreeOk(s) && DirAt(s, done).Some? && names != [] && Find(Dir(s, DirAt(s, done).value), names[0]).None?
    requires mid == AddEntry(s, DirAt(s, done).value, names[0], []) && CommitDone(mid, s', done + names, data)
    ensures CommitDone(s, s', done + names, data)
  {
    hide TreeOk, EntryAt, DirAt, AddEntry, Lookup, Find;
    var target := done + names;
    assert done + [names[0]] <= target;
    forall q: seq<Name>
      ensures Lookup(mid, q) == Lookup(s, q)
      ensures q != [] && EntryAt(mid, q).Some? ==> EntryAt(s, q).Some? || q <= target
    {
      AddEntryLookup(s, done, names[0], [], q);
      AddEntryWalks(s, done, names[0], [], q);
    }
  }

  // -------------------------------------------------- every entry has data

  lemma LookupHasEntry(s: Store, names: seq<Name>)
    requires Lookup(s, names) != []
    ensures names != [] && EntryAt(s, names).Some?
  {
  }

  /** An entry on the way to an entry. */
  lemma {:induction false} EntryOnTheWay(s: Store, names: seq<Name>, k: nat)
    requires 1 <= k <= |names| && EntryAt(s, names).Some?
    ensures EntryAt(s, names[..k]).Some?
    decreases |names|
  {
    if k == |names| {
      assert names[..k] == names;
    } else {
      var init := names[..|names| - 1];
      assert init[..k] == names[..k];
      EntryOnTheWay(s, init, k);
    }
  }

  lemma CommitKeepsInhabited(s: Store, s': Store, target: seq<Name>, data: Data)
    requires AllInhabited(s) && CommitDone(s, s', target, data) && target != []
    ensures AllInhabited(s')
  {
    hide TreeOk, EntryAt, DirAt, Lookup;
    forall q: seq<Name> | q != [] && EntryAt(s', q).Some?
      ensures Inhabited(s', q)
    {
      if q <= target {
        var more := target[|q|..];
        assert q + more == target;
        assert Lookup(s', q + more) != [];
      } else {
        assert Inhabited(s, q);
        var more: seq<Name> :| Lookup(s, q + more) != [];
        assert Lookup(s', q + more) != [];
      }
    }
  }

  // ------------------------------------------------------- the flat view

  predicate IsFile(path: Path) {
    IsValid(path) && !IsDir(path)
  }

  type Flat = map<Path, seq<Data>>

  function Revisions(m: Flat, path: Path): seq<Data> {
    if path in m then m[path] else []
  }

  function FlatCommit(m: Flat, path: Path, data: Data): (Flat, Result<nat, Error>) {
    if !IsValidData(data) then (m, Err(InvalidData))
    else if !IsFile(path) then (m, Err(InvalidPath))
    else
      var revisions := Committed(Revisions(m, path), data);
      (m[path := revisions], Ok(|revisions| - 1))
  }

  ghost predicate StandsFor(s: Store, m: Flat) {
    forall path :: IsFile(path) ==> Lookup(s, Components(path)) == Revisions(m, path)
  }

  /** A commit on the tree is the commit on the map, with the same answer. */
  lemma CommitRefines(s: Store, m: Flat, path: Path, data: Data)
    requires Inv(s) && StandsFor(s, m)
    ensures var (s', r) := Commit(s, path, data);
      var (m', r') := FlatCommit(m, path, data);
      Inv(s') && StandsFor(s', m') && r == r'
  {
    hide TreeOk, AllInhabited, Lookup, IsValid, IsDir, CommitFrom, IsValidData, Components;
    if IsValidData(data) && IsFile(path) {
      var target := Components(path);
      ComponentsRebuild(path);
      var (s', r) := CommitFrom(s, ROOT, target, data);
      CommitAtRoot(s, target, data);
      CommitKeepsInhabited(s, s', target, data);
      forall p | IsFile(p)
        ensures Lookup(s', Components(p)) == Revisions(FlatCommit(m, path, data).0, p)
      {
        if p != path && Components(p) == Components(path) {
          ComponentsInjective(p, path);
        }
      }
    }
  }

  lemma CommitAtRoot(s: Store, target: seq<Name>, data: Data)
    requires TreeOk(s) && target != []
    ensures var (s', r) := CommitFrom(s, ROOT, target, data); CommitDone(s, s', target, data) && r == |Lookup(s', target)| - 1
  {
    hide TreeOk, Lookup, CommitFrom, CommitDone;
    CommitFromDone(s, [], target, data);
    assert [] + target == target;
  }

  /** What a get finds, by the walk to the entry. */
  lemma {:induction false} GetFromExact(s: Store, done: seq<Name>, names: seq<Name>, which: Which)
    requires DirAt(s, done).Some? && names != []
    ensures var all := done + names;
      GetFrom(s, DirAt(s, done).value, names, which) ==
      match EntryAt(s, all)
      case Some(e) => Pick(File(s, e.releases), which)
      case None => if DirAt(s, all[..|all| - 1]).None? then Err(DirNotFound) else Err(FileNotFound)
    decreases |names|
  {
    hide Find, File, Pick, Dir;
    var all, here := done + names, done + [names[0]];
    assert here[..|here| - 1] == done;
    if |names| == 1 {
      assert all == here;
    } else {
      assert here + names[1..] == all;
      if EntryAt(s, here).Some? {
        GetFromExact(s, here, names[1..], which);
      } else {
        var up := all[..|all| - 1];
        assert up[..|here|] == here;
        NoWayOn(s, up, |here|);
      }
    }
  }

  /** The answer of a get, by the entry at the end of its walk. */
  lemma GetAnswer(s: Store, path: Path, which: Which)
    requires IsFile(path)
    ensures Components(path) != []
    ensures var e := EntryAt(s, Components(path));
      if e.Some? then Get(s, path, which) == Pick(File(s, e.value.releases), which)
      else Get(s, path, which) == Err(DirNotFound) || Get(s, path, which) == Err(FileNotFound)
  {
    hide IsValid, IsDir, Components, GetFrom, Pick, File;
    ComponentsRebuild(path);
    GetFromExact(s, [], Components(path), which);
    assert [] + Components(path) == Components(path);
  }

  /**
    A get of a file answers from the map: the current revision is the last one, a numbered one is the one in that
    place, and there is an error if and only if there is none.
   */
  lemma GetRefines(s: Store, m: Flat, path: Path, which: Which)
    requires Inv(s) && StandsFor(s, m) && IsFile(path)
    ensures var r, revisions := Get(s, path, which), Revisions(m, path);
      var i := if which.Current? then |revisions| - 1 else which.number;
      && (if 0 <= i < |revisions| then r == Ok(revisions[i]) else r.Err? && r.error != InvalidPath)
      && (r == Err(ReleaseNotFound) <==>
            Components(path) != [] && EntryAt(s, Components(path)).Some? && !(0 <= i < |revisions|))
  {
    hide Inv, IsFile, Components, Get, EntryAt, Revisions;
    GetAnswer(s, path, which);
    assert Lookup(s, Components(path)) == Revisions(m, path);
  }

  // ------------------------------------------------------------------ runs

  function CommitAll(s: Store, commits: seq<(Path, Data)>): Store {
    if commits == [] then s
    else Commit(CommitAll(s, commits[..|commits| - 1]), commits[|commits| - 1].0, commits[|commits| - 1].1).0
  }

  function FlatAll(m: Flat, commits: seq<(Path, Data)>): Flat {
    if commits == [] then m
    else FlatCommit(FlatAll(m, commits[..|commits| - 1]), commits[|commits| - 1].0, commits[|commits| - 1].1).0
  }

  lemma EmptyStands()
    ensures Inv(EMPTY) && StandsFor(EMPTY, map[])
  {
    forall names: seq<Name>
      ensures Lookup(EMPTY, names) == [] && (names != [] ==> EntryAt(EMPTY, names) == None)
    {
      NothingInEmpty(names);
    }
  }

  lemma {:induction false} NothingInEmpty(names: seq<Name>)
    ensures names != [] ==> EntryAt(EMPTY, names) == None
    decreases |names|
  {
    if names != [] {
      NothingInEmpty(names[..|names| - 1]);
    }
  }

  /** Every run of commits on the tree is the run on the map. */
  lemma {:induction false} RunRefines(s: Store, m: Flat, commits: seq<(Path, Data)>)
    requires Inv(s) && StandsFor(s, m)
    ensures Inv(CommitAll(s, commits)) && StandsFor(CommitAll(s, commits), FlatAll(m, commits))
  {
    hide Inv, StandsFor, Commit, FlatCommit;
    if commits != [] {
      var init, last := commits[..|commits| - 1], commits[|commits| - 1];
      RunRefines(s, m, init);
      CommitRefines(CommitAll(s, init), FlatAll(m, init), last.0, last.1);
    }
  }

  lemma {:induction false} RevisionsOnlyGrow(m: Flat, commits: seq<(Path, Data)>, path: Path)
    ensures Revisions(m, path) <= Revisions(FlatAll(m, commits), path)
  {
    if commits != [] {
      RevisionsOnlyGrow(m, commits[..|commits| - 1], path);
    }
  }

  /**
    A committed revision stays: whatever was committed before and whatever is committed later, getting the number
    a commit returned gives the data it was given.
   */
  lemma CommittedStays(before: seq<(Path, Data)>, path: Path, data: Data, later: seq<(Path, Data)>)
    requires Commit(CommitAll(EMPTY, before), path, data).1.Ok?
    ensures var s := CommitAll(EMPTY, before);
      var (s', r) := Commit(s, path, data);
      Get(CommitAll(s', later), path, Revision(r.value)) == Ok(data)
  {
    hide Inv, StandsFor, Commit, CommitAll, Get, IsFile, FlatAll, IsValidData;
    var s, m := CommitAll(EMPTY, before), FlatAll(map[], before);
    var (s', r) := Commit(s, path, data);
    var (m', r') := FlatCommit(m, path, data);
    EmptyStands();
    RunRefines(EMPTY, map[], before);
    CommitRefines(s, m, path, data);
    RunRefines(s', m', later);
    RevisionsOnlyGrow(m', later, path);
    GetRefines(CommitAll(s', later), FlatAll(m', later), path, Revision(r.value));
    CommittedLast(Revisions(m, path), data);
  }

  lemma CommittedLast(revisions: seq<Data>, data: Data)
    ensures var c := Committed(revisions, data); revisions <= c && c != [] && c[|c| - 1] == data
  {
  }

  // --------------------------------------------------------------- listing

  lemma {:induction false} BelowTotal(a: Name, b: Name)
    ensures Below(a, b) || Below(b, a)
    ensures Below(a, b) && Below(b, a) ==> a == b
  {
    if a != "" && b != "" && a[0] == b[0] {
      BelowTotal(a[1..], b[1..]);
      assert a == [a[0]] + a[1..] && b == [b[0]] + b[1..];
    }
  }

  lemma {:induction false} BelowTransitive(a: Name, b: Name, c: Name)
    requires Below(a, b) && Below(b, c)
    ensures Below(a, c)
  {
    if a != "" && b != "" && c != "" && a[0] == b[0] == c[0] {
      BelowTransitive(a[1..], b[1..], c[1..]);
    }
  }

  ghost predicate SortedByName(v: seq<ListEntry>) {
    forall i, j :: 0 <= i < j < |v| ==> Below(v[i].name, v[j].name)
  }

  ghost predicate DistinctNames(v: seq<ListEntry>) {
    forall i, j :: 0 <= i < j < |v| ==> v[i].name != v[j].name
  }

  lemma {:induction false} InsertSorts(x: ListEntry, v: seq<ListEntry>)
    requires SortedByName(v)
    ensures SortedByName(Insert(x, v))
  {
    if v != [] {
      var rest := v[1..];
      if Below(x.name, v[0].name) {
        forall i | 0 <= i < |v| ensures Below(x.name, v[i].name) {
          if i > 0 {
            BelowTransitive(x.name, v[0].name, v[i].name);
          }
        }
      } else {
        InsertSorts(x, rest);
        BelowTotal(x.name, v[0].name);
        SmallestFirst(v[0], Insert(x, rest));
      }
    }
  }

  lemma SmallestFirst(x: ListEntry, v: seq<ListEntry>)
    requires SortedByName(v) && forall y <- v :: Below(x.name, y.name)
    ensures SortedByName([x] + v)
  {
  }

  lemma {:induction false} InsertDistinct(x: ListEntry, v: seq<ListEntry>)
    requires DistinctNames(v) && forall y <- v :: y.name != x.name
    ensures DistinctNames(Insert(x, v))
  {
    if v != [] {
      InsertDistinct(x, v[1..]);
      assert forall y <- Insert(x, v[1..]) :: y.name != v[0].name;
    }
  }

  lemma {:induction false} SortSorts(v: seq<ListEntry>)
    ensures SortedByName(Sort(v))
    ensures DistinctNames(v) ==> DistinctNames(Sort(v))
  {
    if v != [] {
      SortSorts(v[1..]);
      InsertSorts(v[0], Sort(v[1..]));
      if DistinctNames(v) {
        assert forall y <- v[1..] :: y.name != v[0].name;
        InsertDistinct(v[0], Sort(v[1..]));
      }
    }
  }

  /** The order of strings: `a` is a proper beginning of `b`, or has the smaller character where they first differ. */
  ghost predicate Precedes(a: Name, b: Name) {
    a < b || exists k {:trigger a[..k]} :: 0 <= k < |a| && k < |b| && a[..k] == b[..k] && a[k] < b[k]
  }

  lemma {:induction false} BelowPrecedes(a: Name, b: Name)
    requires Below(a, b) && a != b
    ensures Precedes(a, b)
  {
    if a != "" {
      if a[0] == b[0] {
        assert a == [a[0]] + a[1..] && b == [b[0]] + b[1..];
        BelowPrecedes(a[1..], b[1..]);
        if k: nat {:trigger a[1..][..k]} :| k < |a| - 1 && k < |b| - 1 && a[1..][..k] == b[1..][..k] && a[1..][k] < b[1..][k] {
          assert a[..k + 1] == [a[0]] + a[1..][..k] && b[..k + 1] == [b[0]] + b[1..][..k];
        }
      } else {
        assert a[..0] == b[..0];
      }
    }
  }

  ghost predicate StrictlySorted(v: seq<ListEntry>) {
    forall i, j :: 0 <= i < j < |v| ==> Precedes(v[i].name, v[j].name)
  }

  lemma SortedStrictly(v: seq<ListEntry>)
    requires DistinctNames(v)
    ensures StrictlySorted(Sort(v))
  {
    hide Precedes, Below, Sort;
    SortSorts(v);
    forall i, j | 0 <= i < j < |Sort(v)|
      ensures Precedes(Sort(v)[i].name, Sort(v)[j].name)
    {
      BelowPrecedes(Sort(v)[i].name, Sort(v)[j].name);
    }
  }

  lemma ListingIsDistinct(s: Store, d: Ref)
    requires NamesUnique(s)
    ensures DistinctNames(ListAll(s, Dir(s, d)))
  {
    var v := ListAll(s, Dir(s, d));
    forall i, j | 0 <= i < j < |v| ensures v[i].name != v[j].name {
      assert v[i] == Listed(s, s.dirs[d][i]) && v[j] == Listed(s, s.dirs[d][j]);
    }
  }

  lemma ListIsSorted(s: Store, path: Path)
    requires TreeOk(s) && List(s, path).Ok?
    ensures StrictlySorted(List(s, path).value)
  {
    hide StrictlySorted, DistinctNames, Sort, ListAll, NamesUnique, Unshared, RefsOk;
    var d := DirAt(s, Components(path)).value;
    ListingIsDistinct(s, d);
    SortedStrictly(ListAll(s, Dir(s, d)));
  }

  /** Something is stored at these names or below them. */
  ghost predicate LeadsToData(s: Store, names: seq<Name>) {
    exists more: seq<Name> :: Lookup(s, names + more) != []
  }

  /** A directory exists exactly if something is stored below it. */
  lemma DirectoryIffBelow(s: Store, names: seq<Name>)
    requires Inv(s) && names != []
    ensures DirAt(s, names).Some? <==> LeadsToData(s, names)
  {
    if EntryAt(s, names).Some? {
      assert Inhabited(s, names);
    }
    if more: seq<Name> :| Lookup(s, names + more) != [] {
      LookupHasEntry(s, names + more);
      EntryOnTheWay(s, names + more, |names|);
      assert (names + more)[..|names|] == names;
    }
  }

  /** `count` is the number of names right below `here` that lead to stored data. */
  ghost predicate CountsChildren(s: Store, here: seq<Name>, count: nat) {
    exists children: seq<Name> ::
      Distinct(children) && |children| == count && forall n :: n in children <==> LeadsToData(s, here + [n])
  }

  function NamesOf(entries: seq<Entry>): (r: seq<Name>)
    ensures |r| == |entries| && forall i :: 0 <= i < |r| ==> r[i] == entries[i].name
  {
    seq(|entries|, i requires 0 <= i < |entries| => entries[i].name)
  }

  lemma NamesFound(entries: seq<Entry>, n: Name)
    ensures n in NamesOf(entries) <==> Find(entries, n).Some?
  {
    hide NamesOf, Find;
    if Find(entries, n).Some? {
      var i :| 0 <= i < |entries| && entries[i] == Find(entries, n).value;
      assert NamesOf(entries)[i] == n;
    }
    if n in NamesOf(entries) {
      var i :| 0 <= i < |entries| && NamesOf(entries)[i] == n;
      assert entries[i] in entries;
    }
  }

  lemma ChildWalk(s: Store, here: seq<Name>, n: Name)
    requires DirAt(s, here).Some?
    ensures DirAt(s, here + [n]).Some? <==> Find(Dir(s, DirAt(s, here).value), n).Some?
  {
    hide Find;
    var below := here + [n];
    assert below[..|below| - 1] == here && below[|below| - 1] == n;
  }

  lemma ChildrenCounted(s: Store, here: seq<Name>)
    requires Inv(s) && DirAt(s, here).Some?
    ensures CountsChildren(s, here, |Dir(s, DirAt(s, here).value)|)
  {
    hide NamesOf, Find, AllInhabited, RefsOk, Unshared, LeadsToData, EntryAt, DirAt;
    var d := DirAt(s, here).value;
    var children := NamesOf(Dir(s, d));
    forall n: Name
      ensures n in children <==> LeadsToData(s, here + [n])
    {
      NamesFound(Dir(s, d), n);
      ChildWalk(s, here, n);
      DirectoryIffBelow(s, here + [n]);
    }
    assert Distinct(children) by { NamesDistinct(s, d); }
  }

  lemma NamesDistinct(s: Store, d: Ref)
    requires NamesUnique(s)
    ensures Distinct(NamesOf(Dir(s, d)))
  {
    hide NamesOf;
  }

  /**
    A listing is strictly sorted and complete: it names exactly what leads to stored data, a file with the number
    of its revisions, and everything that has none of its own as a directory, with the number of names below it.
   */
  lemma ListIsComplete(s: Store, path: Path, name: Name)
    requires Inv(s) && List(s, path).Ok?
    ensures var v, here := List(s, path).value, Components(path) + [name];
      && StrictlySorted(v)
      && ((exists y <- v :: y.name == name) <==> LeadsToData(s, here))
      && (forall y <- v :: y.name == name ==>
            if Lookup(s, here) != [] then y == FileEntry(name, |Lookup(s, here)|)
            else y.DirEntry? && CountsChildren(s, here, y.children))
  {
    hide TreeOk, AllInhabited, LeadsToData, CountsChildren, Sort, ListAll, StrictlySorted;
    var names := Components(path);
    var here := names + [name];
    var d := DirAt(s, names).value;
    ListIsSorted(s, path);
    DirectoryIffBelow(s, here);
    assert here[..|here| - 1] == names && here[|here| - 1] == name;
    ListedOf(s, d, name);
    if EntryAt(s, here).Some? {
      ChildrenCounted(s, here);
    }
  }

  lemma ListedOf(s: Store, d: Ref, name: Name)
    requires TreeOk(s)
    ensures var v := Sort(ListAll(s, Dir(s, d)));
      && ((exists y <- v :: y.name == name) <==> Find(Dir(s, d), name).Some?)
      && (forall y <- v :: y.name == name ==> Find(Dir(s, d), name).Some? && y == Listed(s, Find(Dir(s, d), name).value))
  {
    hide Sort, ListAll, Listed, Find;
    ListedExactly(s, d, name);
  }

  lemma SiblingsDiffer(s: Store, d: Ref, i: nat, j: nat)
    requires NamesUnique(s) && i < |Dir(s, d)| && j < |Dir(s, d)| && Dir(s, d)[i].name == Dir(s, d)[j].name
    ensures i == j
  {
  }

  /** The listing of a directory has an entry of this name exactly if the directory has, and shows it. */
  lemma ListedExactly(s: Store, d: Ref, name: Name)
    requires NamesUnique(s)
    ensures var v := Sort(ListAll(s, Dir(s, d)));
      && ((exists y <- v :: y.name == name) <==> Find(Dir(s, d), name).Some?)
      && (forall y <- v :: y.name == name ==> Find(Dir(s, d), name).Some? && y == Listed(s, Find(Dir(s, d), name).value))
  {
    hide Sort, ListAll, NamesUnique, Find;
    var entries := Dir(s, d);
    var all := ListAll(s, entries);
    if Find(entries, name).Some? {
      var e := Find(entries, name).value;
      var i :| 0 <= i < |entries| && entries[i] == e;
      assert all[i] == Listed(s, e) && all[i] in all;
    }
    forall y <- Sort(all) | y.name == name
      ensures Find(entries, name).Some? && y == Listed(s, Find(entries, name).value)
    {
      var i :| 0 <= i < |all| && all[i] == y;
      assert entries[i] in entries;
      var e := Find(entries, name).value;
      var j :| 0 <= j < |entries| && entries[j] == e;
      SiblingsDiffer(s, d, i, j);
    }
  }
}
