/** What the clients of the file store see: which commits are taken, the numbers they get, and the current revision. */
module VcsRevisions {
  import opened Wrappers
  import opened VcsPath
  import opened Vcs
  import opened VcsRefinement

  // -------------------------------------------------------- what is taken

  /** The ASCII codes of letters, digits, hyphen, full stop and underscore. */
  predicate NameCode(c: int) {
    c in {45, 46, 95} || 48 <= c <= 57 || 65 <= c <= 90 || 97 <= c <= 122
  }

  predicate Named(n: Name) {
    n != "" && forall i :: 0 <= i < |n| ==> NameCode(n[i] as int)
  }

  lemma NameCodes(c: char)
    ensures NameCode(c as int) <==> IsPathChar(c) && c != '/'
  {
  }

  lemma OnePiece(name: Name, rest: Path)
    requires Named(name) && (rest == "" || IsFile(rest))
    ensures IsFile("/" + name + rest)
  {
    hide IsPathChar, NameCode;
    var first := "/" + name;
    var path := first + rest;
    forall i | 0 <= i < |path|
      ensures IsPathChar(path[i]) && (0 < i < |first| ==> path[i] != '/')
    {
      Slash();
      if 0 < i < |first| {
        assert path[i] == name[i - 1];
        NameCodes(name[i - 1]);
      } else if i >= |first| {
        assert path[i] == rest[i - |first|];
      }
    }
    forall i | |first| <= i < |path| - 1
      ensures path[i] != '/' || path[i + 1] != '/'
    {
      assert path[i] == rest[i - |first|] && path[i + 1] == rest[i + 1 - |first|];
    }
    assert path[|path| - 1] == if rest == "" then name[|name| - 1] else rest[|rest| - 1];
  }

  lemma Slash()
    ensures IsPathChar('/')
  {
  }

  lemma {:induction false} JoinedIsFile(names: seq<Name>)
    requires names != [] && forall n <- names :: Named(n)
    ensures IsFile(PathOf(names))
    decreases |names|
  {
    hide IsFile, Named;
    if |names| > 1 {
      JoinedIsFile(names[1..]);
    }
    OnePiece(names[0], PathOf(names[1..]));
  }

  /** A path names a file if and only if it is names of these characters, each behind a slash. */
  lemma FilePathIff(path: Path)
    ensures IsFile(path) <==> exists names: seq<Name> :: names != [] && (forall n <- names :: Named(n)) && path == PathOf(names)
  {
    hide PathOf, Components;
    if IsFile(path) {
      var names := Components(path);
      ComponentsRebuild(path);
      forall n <- names ensures Named(n) {
        forall i | 0 <= i < |n| ensures NameCode(n[i] as int) { NameCodes(n[i]); }
      }
    }
    if names: seq<Name> :| names != [] && (forall n <- names :: Named(n)) && path == PathOf(names) {
      JoinedIsFile(names);
    }
  }

  /** Printable ASCII and the white space of a terminal. */
  predicate IsText(data: Data) {
    forall i :: 0 <= i < |data| ==> ' ' <= data[i] <= '~' || data[i] as int in {9, 10, 12, 13}
  }

  /** A commit is taken if and only if it brings text for a file; anything but text is refused before the path is read. */
  lemma TakenIff(s: Store, path: Path, data: Data)
    ensures var r := Commit(s, path, data).1;
      && (r.Ok? <==> IsText(data) && IsFile(path))
      && (r == Err(InvalidData) <==> !IsText(data))
      && (r == Err(InvalidPath) <==> IsText(data) && !IsFile(path))
  {
    hide IsValid, IsDir, CommitFrom, Components;
    TextIff(data);
    if IsFile(path) {
      ComponentsRebuild(path);
    }
  }

  lemma TextIff(data: Data)
    ensures IsText(data) <==> IsValidData(data)
  {
  }

  // ------------------------------------------------------ revision numbers

  /** The file has this many revisions, numbered from zero. */
  ghost predicate Numbered(s: Store, path: Path, count: nat) {
    forall k: nat :: Get(s, path, Revision(k)).Ok? <==> k < count
  }

  lemma NumberedBy(s: Store, m: Flat, path: Path)
    requires Inv(s) && StandsFor(s, m) && IsFile(path)
    ensures Numbered(s, path, |Revisions(m, path)|)
  {
    hide Inv, StandsFor, IsFile, Get, Revisions;
    forall k: nat ensures Get(s, path, Revision(k)).Ok? <==> k < |Revisions(m, path)| {
      GetRefines(s, m, path, Revision(k));
    }
  }

  /**
    The number of a commit: if the file's current revision is the data already, that revision's, and nothing of the
    file changes; otherwise the next one, and all earlier revisions stay as they are.
   */
  lemma CommitNumbers(before: seq<(Path, Data)>, path: Path, data: Data)
    requires Commit(CommitAll(EMPTY, before), path, data).1.Ok?
    ensures var s := CommitAll(EMPTY, before);
      var (s', r) := Commit(s, path, data);
      && Numbered(s', path, r.value + 1)
      && Numbered(s, path, if Get(s, path, Current) == Ok(data) then r.value + 1 else r.value)
      && Get(s', path, Revision(r.value)) == Get(s', path, Current) == Ok(data)
      && forall k: nat :: k < r.value ==> Get(s', path, Revision(k)) == Get(s, path, Revision(k))
  {
    hide Inv, StandsFor, Commit, CommitAll, Get, IsFile, FlatAll, IsValidData, Numbered, Revisions;
    var s, m := CommitAll(EMPTY, before), FlatAll(map[], before);
    var (s', r) := Commit(s, path, data);
    var (m', r') := FlatCommit(m, path, data);
    EmptyStands();
    RunRefines(EMPTY, map[], before);
    CommitRefines(s, m, path, data);
    RevisionsAfter(m, path, data);
    var was, now := Revisions(m, path), Revisions(m', path);
    NumberedBy(s, m, path);
    NumberedBy(s', m', path);
    GetRefines(s, m, path, Current);
    GetRefines(s', m', path, Current);
    GetRefines(s', m', path, Revision(r.value));
    forall k: nat | k < r.value ensures Get(s', path, Revision(k)) == Get(s, path, Revision(k)) {
      GetRefines(s, m, path, Revision(k));
      GetRefines(s', m', path, Revision(k));
    }
  }

  lemma RevisionsAfter(m: Flat, path: Path, data: Data)
    requires FlatCommit(m, path, data).1.Ok?
    ensures var (m', r) := FlatCommit(m, path, data);
      var was, now := Revisions(m, path), Revisions(m', path);
      && IsFile(path) && |now| == r.value + 1
      && now == if was != [] && was[|was| - 1] == data then was else was + [data]
  {
  }

  /** These commits bring nothing else to the path. */
  predicate LeaveAlone(commits: seq<(Path, Data)>, path: Path, data: Data) {
    forall c <- commits :: c.0 == path ==> c.1 == data
  }

  lemma {:induction false} LastStays(m: Flat, commits: seq<(Path, Data)>, path: Path, data: Data)
    requires LeaveAlone(commits, path, data) && Revisions(m, path) != []
    requires Revisions(m, path)[|Revisions(m, path)| - 1] == data
    ensures Revisions(FlatAll(m, commits), path) == Revisions(m, path)
  {
    if commits != [] {
      var init, last := commits[..|commits| - 1], commits[|commits| - 1];
      assert commits == init + [last];
      LastStays(m, init, path, data);
    }
  }

  /** What was committed last is what a get of the current revision gives, whatever is committed elsewhere since. */
  lemma CurrentIsLatest(before: seq<(Path, Data)>, path: Path, data: Data, later: seq<(Path, Data)>)
    requires Commit(CommitAll(EMPTY, before), path, data).1.Ok? && LeaveAlone(later, path, data)
    ensures var (s', r) := Commit(CommitAll(EMPTY, before), path, data);
      var s := CommitAll(s', later);
      Get(s, path, Current) == Ok(data) && Numbered(s, path, r.value + 1)
  {
    hide Inv, StandsFor, Commit, CommitAll, Get, IsFile, FlatAll, IsValidData, Numbered, Revisions, LeaveAlone;
    var s, m := CommitAll(EMPTY, before), FlatAll(map[], before);
    var (s', r) := Commit(s, path, data);
    var (m', r') := FlatCommit(m, path, data);
    EmptyStands();
    RunRefines(EMPTY, map[], before);
    CommitRefines(s, m, path, data);
    RunRefines(s', m', later);
    RevisionsAfter(m, path, data);
    LastStays(m', later, path, data);
    NumberedBy(CommitAll(s', later), FlatAll(m', later), path);
    GetRefines(CommitAll(s', later), FlatAll(m', later), path, Current);
  }
}
