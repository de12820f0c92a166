/** Paths of the file store: which byte strings are paths, and the names they are made of. */
module VcsPath {

  type Path = string
  type Name = string

  predicate IsAlphanumeric(c: char) {
    'a' <= c <= 'z' || 'A' <= c <= 'Z' || '0' <= c <= '9'
  }

  predicate IsPathChar(c: char) {
    IsAlphanumeric(c) || c == '.' || c == '_' || c == '-' || c == '/'
  }

  predicate IsValid(path: Path) {
    && path != ""
    && path[0] == '/'
    && (forall i :: 0 <= i < |path| - 1 ==> path[i] != '/' || path[i + 1] != '/')
    && (forall i :: 0 <= i < |path| ==> IsPathChar(path[i]))
  }

  predicate IsDir(path: Path) {
    path != "" && path[|path| - 1] == '/'
  }

  /** The pieces of the path between slashes, the empty ones left out; `name` is the piece being read. */
  function Pieces(path: Path, name: Name): seq<Name> {
    if path == "" then (if name == "" then [] else [name])
    else if path[0] == '/' then (if name == "" then [] else [name]) + Pieces(path[1..], "")
    else Pieces(path[1..], name + [path[0]])
  }

  function Components(path: Path): seq<Name> {
    Pieces(path, "")
  }

  predicate IsName(name: Name) {
    name != "" && forall i :: 0 <= i < |name| ==> IsPathChar(name[i]) && name[i] != '/'
  }

  /** The path made of these names. */
  function PathOf(names: seq<Name>): Path {
    if names == [] then "" else "/" + names[0] + PathOf(names[1..])
  }

  predicate NoDoubleSlash(path: Path) {
    forall i :: 0 <= i < |path| - 1 ==> path[i] != '/' || path[i + 1] != '/'
  }

  lemma TailOfPath(path: Path)
    requires path != "" && NoDoubleSlash(path)
    ensures NoDoubleSlash(path[1..])
    ensures path[0] == '/' && |path| > 1 ==> path[1..][0] != '/'
  {
    var rest := path[1..];
    forall i | 0 <= i < |rest| - 1
      ensures rest[i] != '/' || rest[i + 1] != '/'
    {
      assert path[i + 1] != '/' || path[i + 2] != '/';
    }
  }

  lemma {:induction false} PiecesRebuild(path: Path, name: Name)
    requires NoDoubleSlash(path)
    requires forall i :: 0 <= i < |path| ==> IsPathChar(path[i])
    requires name == "" ==> path == "" || path[0] != '/'
    requires forall i :: 0 <= i < |name| ==> IsPathChar(name[i]) && name[i] != '/'
    ensures forall n <- Pieces(path, name) :: IsName(n)
    ensures PathOf(Pieces(path, name)) == Rebuilt(path, name)
  {
    hide IsPathChar, PathOf, IsDir;
    if path == "" {
      LastPiece(name);
    } else {
      var rest := path[1..];
      TailOfPath(path);
      assert path == [path[0]] + rest;
      if path[0] == '/' {
        PiecesRebuild(rest, "");
        PieceThere(name, Pieces(rest, ""));
        AfterSlash(path, name);
      } else {
        PiecesRebuild(rest, name + [path[0]]);
        AfterLetter(path, name);
      }
    }
  }

  lemma LastPiece(name: Name)
    ensures PathOf([]) == "" && (name != "" ==> PathOf([name]) == "/" + name)
    ensures Rebuilt("", name) == if name == "" then "" else "/" + name
  {
    assert [name][1..] == [] && "/" + name + "" == "/" + name;
  }

  lemma PieceThere(name: Name, more: seq<Name>)
    ensures PathOf([name] + more) == "/" + name + PathOf(more)
  {
    assert ([name] + more)[1..] == more;
  }

  lemma AfterSlash(path: Path, name: Name)
    requires path != "" && path[0] == '/' && name != ""
    ensures Rebuilt(path, name) == "/" + name + Rebuilt(path[1..], "")
  {
    var rest := path[1..];
    assert path == "/" + rest;
    if rest != "" {
      assert IsDir(path) <==> IsDir(rest);
      assert IsDir(path) ==> path[..|path| - 1] == "/" + rest[..|rest| - 1];
    } else {
      assert path[..|path| - 1] == "";
    }
    assert "/" + "" + (if IsDir(rest) then rest[..|rest| - 1] else rest) == "/" + (if IsDir(rest) then rest[..|rest| - 1] else rest);
  }

  lemma AfterLetter(path: Path, name: Name)
    requires path != "" && path[0] != '/'
    ensures Rebuilt(path, name) == Rebuilt(path[1..], name + [path[0]])
  {
    var rest := path[1..];
    assert path == [path[0]] + rest;
    assert rest != "" ==> (IsDir(path) <==> IsDir(rest));
    if IsDir(path) {
      assert path[..|path| - 1] == [path[0]] + rest[..|rest| - 1];
    }
  }

  /** The path of the pieces, written out. */
  function Rebuilt(path: Path, name: Name): Path {
    if name == "" && path == "" then ""
    else "/" + name + (if IsDir(path) then path[..|path| - 1] else path)
  }

  lemma FirstSlash(path: Path)
    requires IsValid(path)
    ensures Components(path) == Pieces(path[1..], "")
    ensures NoDoubleSlash(path[1..]) && (path[1..] == "" || path[1..][0] != '/')
    ensures Rebuilt(path[1..], "") == if IsDir(path) then path[..|path| - 1] else path
  {
    TailOfPath(path);
    var rest := path[1..];
    assert path == "/" + rest;
    if rest != "" && IsDir(path) {
      assert path[..|path| - 1] == "/" + rest[..|rest| - 1];
    }
  }

  /** A valid path is rebuilt from its names, up to a slash at its end. */
  lemma ComponentsRebuild(path: Path)
    requires IsValid(path)
    ensures forall n <- Components(path) :: IsName(n)
    ensures PathOf(Components(path)) == if IsDir(path) then path[..|path| - 1] else path
    ensures !IsDir(path) ==> Components(path) != []
  {
    hide Pieces, Rebuilt, Components, NoDoubleSlash;
    FirstSlash(path);
    PiecesRebuild(path[1..], "");
  }

  /** Different file paths have different names. */
  lemma ComponentsInjective(p: Path, q: Path)
    requires IsValid(p) && IsValid(q) && !IsDir(p) && !IsDir(q)
    requires Components(p) == Components(q)
    ensures p == q
  {
    ComponentsRebuild(p);
    ComponentsRebuild(q);
  }
}
