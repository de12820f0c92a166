/**
  The versioned file store: a tree of entries, each with its shared list of children and its shared list of
  releases. A shared list is a reference into `dirs` or `files`, so that the walks move and push through
  references as the locked walks of the original do.
 */
module Vcs {
  import opened Wrappers
  import opened VcsPath

  type Data = seq<char>
  type Ref = nat

  datatype Entry = Entry(name: Name, subdirs: Ref, releases: Ref)

  datatype Store = Store(dirs: map<Ref, seq<Entry>>, files: map<Ref, seq<Data>>, next: Ref)

  const ROOT: Ref := 0
  const EMPTY: Store := Store(map[ROOT := []], map[], 1)

  datatype Error = FileNotFound | DirNotFound | ReleaseNotFound | InvalidPath | InvalidData

  /** The first entry of this name. */
  function Find(entries: seq<Entry>, name: Name): (r: Option<Entry>)
    ensures r.Some? ==> r.value in entries && r.value.name == name
    ensures r.None? ==> forall e <- entries :: e.name != name
  {
    if entries == [] then None
    else if entries[0].name == name then Some(entries[0])
    else Find(entries[1..], name)
  }

  function Dir(s: Store, d: Ref): seq<Entry> {
    if d in s.dirs then s.dirs[d] else []
  }

  function File(s: Store, f: Ref): seq<Data> {
    if f in s.files then s.files[f] else []
  }

  // ------------------------------------------------------------- the walks

  /** The directory reached by these names, and the entry at their end. */
  function DirAt(s: Store, names: seq<Name>): Option<Ref>
    decreases |names|, 1
  {
    if names == [] then Some(ROOT)
    else match EntryAt(s, names) case None => None case Some(e) => Some(e.subdirs)
  }

  function EntryAt(s: Store, names: seq<Name>): Option<Entry>
    requires names != []
    decreases |names|, 0
  {
    match DirAt(s, names[..|names| - 1])
    case None => None
    case Some(d) => Find(Dir(s, d), names[|names| - 1])
  }

  /** The revisions stored under these names: the flat view of the store. */
  function Lookup(s: Store, names: seq<Name>): seq<Data> {
    if names == [] then [] else
    match EntryAt(s, names) case None => [] case Some(e) => File(s, e.releases)
  }

  // ---------------------------------------------------------------- commit

  /** What a commit makes of the revisions of its file: unchanged data adds nothing. */
  function Committed(revisions: seq<Data>, data: Data): seq<Data> {
    if revisions != [] && revisions[|revisions| - 1] == data then revisions else revisions + [data]
  }

  function AddEntry(s: Store, d: Ref, name: Name, releases: seq<Data>): Store {
    Store(s.dirs[s.next := []][d := Dir(s, d) + [Entry(name, s.next, s.next)]],
          s.files[s.next := releases], s.next + 1)
  }

  function Push(s: Store, f: Ref, data: Data): Store {
    var revisions := File(s, f);
    if Committed(revisions, data) == revisions then s
    else s.(files := s.files[f := Committed(revisions, data)])
  }

  /** The commit from directory `d` on: the store afterwards and the number of the revision. */
  function CommitFrom(s: Store, d: Ref, names: seq<Name>, data: Data): (Store, nat)
    requires names != []
    decreases |names|
  {
    match Find(Dir(s, d), names[0])
    case Some(e) =>
      if |names| > 1 then CommitFrom(s, e.subdirs, names[1..], data)
      else (Push(s, e.releases, data), |Committed(File(s, e.releases), data)| - 1)
    case None =>
      if |names| > 1 then CommitFrom(AddEntry(s, d, names[0], []), s.next, names[1..], data)
      else (AddEntry(s, d, names[0], [data]), 0)
  }

  predicate IsGraphic(c: char) {
    33 <= c as int <= 126
  }

  predicate IsWhitespace(c: char) {
    c == ' ' || c == '\t' || c == '\n' || c as int == 12 || c == '\r'
  }

  predicate IsValidData(data: Data) {
    forall i :: 0 <= i < |data| ==> IsGraphic(data[i]) || IsWhitespace(data[i])
  }

  function Commit(s: Store, path: Path, data: Data): (Store, Result<nat, Error>) {
    if !IsValidData(data) then (s, Err(InvalidData))
    else if !IsValid(path) || IsDir(path) then (s, Err(InvalidPath))
    else if Components(path) == [] then (s, Err(FileNotFound))
    else
      var (s', r) := CommitFrom(s, ROOT, Components(path), data);
      (s', Ok(r))
  }

  // --------------------------------------------------------- get and list

  /** Which revision is asked for. */
  datatype Which = Current | Revision(number: nat)

  function Pick(revisions: seq<Data>, which: Which): Result<Data, Error> {
    match which
    case Current => if revisions == [] then Err(ReleaseNotFound) else Ok(revisions[|revisions| - 1])
    case Revision(n) => if n < |revisions| then Ok(revisions[n]) else Err(ReleaseNotFound)
  }

  function GetFrom(s: Store, d: Ref, names: seq<Name>, which: Which): Result<Data, Error>
    decreases |names|
  {
    if names == [] then Err(FileNotFound)
    else match Find(Dir(s, d), names[0])
      case Some(e) =>
        if |names| > 1 then GetFrom(s, e.subdirs, names[1..], which) else Pick(File(s, e.releases), which)
      case None => if |names| > 1 then Err(DirNotFound) else Err(FileNotFound)
  }

  function Get(s: Store, path: Path, which: Which): Result<Data, Error> {
    if !IsValid(path) then Err(InvalidPath) else GetFrom(s, ROOT, Components(path), which)
  }

  datatype ListEntry = DirEntry(name: Name, children: nat) | FileEntry(name: Name, revisions: nat)

  function Listed(s: Store, e: Entry): ListEntry {
    if File(s, e.releases) == [] then DirEntry(e.name, |Dir(s, e.subdirs)|)
    else FileEntry(e.name, |File(s, e.releases)|)
  }

  /** Names compare like the strings they are. */
  predicate Below(a: Name, b: Name) {
    if a == "" then true
    else if b == "" then false
    else if a[0] == b[0] then Below(a[1..], b[1..])
    else a[0] < b[0]
  }

  function Insert(x: ListEntry, v: seq<ListEntry>): (r: seq<ListEntry>)
    ensures forall y :: y in r <==> y == x || y in v
    ensures |r| == |v| + 1
  {
    if v == [] then [x]
    else if Below(x.name, v[0].name) then [x] + v
    else
      assert v == [v[0]] + v[1..];
      [v[0]] + Insert(x, v[1..])
  }

  function Sort(v: seq<ListEntry>): (r: seq<ListEntry>)
    ensures forall y :: y in r <==> y in v
    ensures |r| == |v|
  {
    if v == [] then []
    else
      assert v == [v[0]] + v[1..];
      Insert(v[0], Sort(v[1..]))
  }

  function ListAll(s: Store, entries: seq<Entry>): (r: seq<ListEntry>)
    ensures |r| == |entries| && forall i :: 0 <= i < |r| ==> r[i] == Listed(s, entries[i])
  {
    seq(|entries|, i requires 0 <= i < |entries| => Listed(s, entries[i]))
  }

  function List(s: Store, path: Path): Result<seq<ListEntry>, Error> {
    if !IsValid(path) then Err(InvalidPath)
    else match DirAt(s, Components(path))
      case None => Err(DirNotFound)
      case Some(d) => Ok(Sort(ListAll(s, Dir(s, d))))
  }

  // -------------------------------------------------------------- in place

  class Repository {
    var dirs: map<Ref, seq<Entry>>
    var files: map<Ref, seq<Data>>
    var next: Ref

    ghost function Snapshot(): Store
      reads this
    {
      Store(dirs, files, next)
    }

    constructor ()
      ensures Snapshot() == EMPTY
    {
      dirs, files, next := map[ROOT := []], map[], 1;
    }

    method PushEntry(d: Ref, name: Name, releases: seq<Data>)
      modifies this
      ensures Snapshot() == AddEntry(old(Snapshot()), d, name, releases)
    {
      var entries := if d in dirs then dirs[d] else [];
      dirs := dirs[next := []];
      files := files[next := releases];
      dirs := dirs[d := entries + [Entry(name, next, next)]];
      next := next + 1;
    }

    /** The walk of a commit: a cursor that moves into existing or newly pushed directories. */
    method Walk(names: seq<Name>, data: Data) returns (revision: nat)
      requires names != []
      modifies this
      ensures (Snapshot(), revision) == CommitFrom(old(Snapshot()), ROOT, names, data)
    {
      var cursor, i := ROOT, 0;
      while i < |names| - 1
        invariant 0 <= i < |names|
        invariant CommitFrom(Snapshot(), cursor, names[i..], data) == CommitFrom(old(Snapshot()), ROOT, names, data)
      {
        assert names[i..][1..] == names[i + 1..];
        match Find(if cursor in dirs then dirs[cursor] else [], names[i]) {
          case Some(e) =>
            cursor := e.subdirs;
          case None =>
            var made := next;
            PushEntry(cursor, names[i], []);
            cursor := made;
        }
        i := i + 1;
      }
      match Find(if cursor in dirs then dirs[cursor] else [], names[i])
      case Some(e) =>
        var revisions := if e.releases in files then files[e.releases] else [];
        if revisions != [] && revisions[|revisions| - 1] == data {
          return |revisions| - 1;
        }
        assert |revisions + [data]| != |revisions|;
        files := files[e.releases := revisions + [data]];
        return |revisions|;
      case None =>
        PushEntry(cursor, names[i], [data]);
        return 0;
    }

    method CommitFile(path: Path, data: Data) returns (r: Result<nat, Error>)
      modifies this
      ensures (Snapshot(), r) == Commit(old(Snapshot()), path, data)
    {
      if !IsValidData(data) {
        return Err(InvalidData);
      }
      if !IsValid(path) || IsDir(path) {
        return Err(InvalidPath);
      }
      if Components(path) == [] {
        return Err(FileNotFound);
      }
      var revision := Walk(Components(path), data);
      r := Ok(revision);
    }

    method GetFile(path: Path, which: Which) returns (r: Result<Data, Error>)
      ensures r == Get(Snapshot(), path, which)
    {
      if !IsValid(path) {
        return Err(InvalidPath);
      }
      var names := Components(path);
      var cursor := ROOT;
      while names != []
        invariant GetFrom(Snapshot(), cursor, names, which) == Get(Snapshot(), path, which)
        decreases |names|
      {
        match Find(if cursor in dirs then dirs[cursor] else [], names[0]) {
          case Some(e) =>
            if |names| == 1 {
              return Pick(if e.releases in files then files[e.releases] else [], which);
            }
            cursor := e.subdirs;
          case None =>
            if |names| > 1 {
              return Err(DirNotFound);
            }
        }
        names := names[1..];
      }
      r := Err(FileNotFound);
    }
  
    method ListDir(path: Path) returns (r: Result<seq<ListEntry>, Error>)
      ensures r == List(Snapshot(), path)
    {
      if !IsValid(path) {
        return Err(InvalidPath);
      }
      var names := Components(path);
      var cursor := ROOT;
      for i := 0 to |names|
        invariant DirAt(Snapshot(), names[..i]) == Some(cursor)
      {
        assert names[..i + 1][..i] == names[..i];
        match Find(if cursor in dirs then dirs[cursor] else [], names[i])
        case Some(e) =>
          cursor := e.subdirs;
        case None =>
          NoWayOn(Snapshot(), names, i + 1);
          return Err(DirNotFound);
      }
      assert names[..|names|] == names;
      var v := ListEntries(cursor);
      r := Ok(Sort(v));
    }

    method ListEntries(d: Ref) returns (v: seq<ListEntry>)
      ensures v == ListAll(Snapshot(), Dir(Snapshot(), d))
    {
      var entries := if d in dirs then dirs[d] else [];
      v := [];
      for k := 0 to |entries|
        invariant v == ListAll(Snapshot(), entries)[..k]
      {
        var e := entries[k];
        var revisions := |if e.releases in files then files[e.releases] else []|;
        var children := |if e.subdirs in dirs then dirs[e.subdirs] else []|;
        v := v + [if revisions == 0 then DirEntry(e.name, children) else FileEntry(e.name, revisions)];
      }
      assert v == ListAll(Snapshot(), entries);
    }
  }

  /** Where a walk ends, it stays ended for all longer paths. */
  lemma {:induction false} NoWayOn(s: Store, names: seq<Name>, k: nat)
    requires 1 <= k <= |names| && EntryAt(s, names[..k]) == None
    ensures DirAt(s, names) == None
    decreases |names|
  {
    if k < |names| {
      var init := names[..|names| - 1];
      assert init[..k] == names[..k];
      NoWayOn(s, init, k);
    } else {
      assert names[..k] == names;
    }
  }
}
