/** Text cut into lines at a separator, for any kind of byte. */
module Lines {

  /** Where the first separator stands, or the length if there is none. */
  function LineEnd<T(==)>(s: seq<T>, newline: T): (k: nat)
    ensures k <= |s|
    ensures newline !in s[..k]
    ensures k < |s| ==> s[k] == newline
    ensures k == |s| <==> newline !in s
  {
    if s == [] || s[0] == newline then 0 else 1 + LineEnd(s[1..], newline)
  }

  /** The beginning of a line left open at the end of `s`, when `line` was open before. */
  function Pending<T(==)>(s: seq<T>, newline: T, line: seq<T>): seq<T> {
    if s == [] then line
    else if s[0] == newline then Pending(s[1..], newline, [])
    else Pending(s[1..], newline, line + [s[0]])
  }

  /** With no separator before `i`, the line ends at `i` or later; exactly there, if a separator stands there. */
  lemma {:induction false} EndAt<T>(s: seq<T>, newline: T, i: nat)
    requires i <= |s| && forall j :: 0 <= j < i ==> s[j] != newline
    ensures LineEnd(s, newline) >= i
    ensures i < |s| && s[i] == newline ==> LineEnd(s, newline) == i
  {
    if i > 0 {
      EndAt(s[1..], newline, i - 1);
    }
  }

  /** A text that begins with a whole line. */
  lemma EndOfFirst<T>(line: seq<T>, newline: T, more: seq<T>)
    requires newline !in line
    ensures var s := line + [newline] + more;
      LineEnd(s, newline) == |line| && s[..|line|] == line && s[|line| + 1..] == more
  {
    var s := line + [newline] + more;
    EndAt(s, newline, |line|);
  }

  lemma EndAfterDrop<T>(s: seq<T>, newline: T, n: nat)
    requires n <= |s| && LineEnd(s, newline) >= n
    ensures LineEnd(s[n..], newline) == LineEnd(s, newline) - n
  {
    var k := LineEnd(s, newline);
    forall j | 0 <= j < k - n
      ensures s[n..][j] != newline
    {
      assert s[n..][j] == s[..k][n + j];
    }
    EndAt(s[n..], newline, k - n);
  }
}
