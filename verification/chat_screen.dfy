/** What a user sees: every line on the screen says what it is about, and no two kinds of news look the same. */
module ChatScreen {
  import opened ChatMessages
  import opened ChatClient
  import opened ChatHistory

  function About(m: ServerMessage): Name
    requires IsChat(m)
  {
    m.name
  }

  predicate NoBracket(name: Name) {
    forall i :: 0 <= i < |name| ==> name[i] != ']'
  }

  lemma ProperHasNoBracket(name: Name)
    requires IsProperName(name)
    ensures NoBracket(name)
  {
  }

  lemma SameRelay(a: Name, x: string, b: Name, y: string)
    requires NoBracket(a) && NoBracket(b) && "[" + a + "] " + x == "[" + b + "] " + y
    ensures a == b && x == y
  {
    var s, t := "[" + a + "] " + x, "[" + b + "] " + y;
    assert s[|a| + 1] == ']' && t[|b| + 1] == ']';
    assert forall i :: 0 <= i < |a| ==> s[i + 1] == a[i];
    assert forall i :: 0 <= i < |b| ==> t[i + 1] == b[i];
    assert |a| == |b|;
    assert a == s[1..|a| + 1] && b == t[1..|b| + 1];
    assert x == s[|a| + 3..] && y == t[|b| + 3..];
  }

  lemma SameNews(a: Name, b: Name, x: string, y: string)
    requires "* " + a + x == "* " + b + y && |x| > 9 && |y| > 9
    ensures x[|x| - 10] == y[|y| - 10]
    ensures x == y ==> a == b
  {
    var s, t := "* " + a + x, "* " + b + y;
    assert s[|s| - 10] == x[|x| - 10] && t[|t| - 10] == y[|y| - 10];
    if x == y {
      assert |a| == |b| && a == s[2..|a| + 2] && b == t[2..|b| + 2];
    }
  }

  /** A user can tell from a line on the screen what it is about: lines of chat and news are all different. */
  lemma ShownTellsApart(m: ServerMessage, n: ServerMessage)
    requires IsChat(m) && IsChat(n) && IsProperName(About(m)) && IsProperName(About(n))
    requires Shown(m) == Shown(n)
    ensures m == n
  {
    hide IsProperName;
    ProperHasNoBracket(m.name);
    ProperHasNoBracket(n.name);
    var entered, left := " has entered the room", " has left the room";
    assert Shown(m)[0] == (if m.Relay? then '[' else '*') && Shown(n)[0] == if n.Relay? then '[' else '*';
    if m.Relay? {
      SameRelay(m.name, m.text, n.name, n.text);
    } else {
      assert entered[|entered| - 10] == 'd' && left[|left| - 10] == 't';
      SameNews(m.name, n.name, if m.AnnounceUser? then entered else left, if n.AnnounceUser? then entered else left);
    }
  }

  /** A line reads as an arrival, a departure or somebody's words exactly if it is that. */
  lemma ShownReadsAs(m: ServerMessage)
    requires IsChat(m)
    ensures m.AnnounceUser? <==> exists n: Name :: Shown(m) == "* " + n + " has entered the room"
    ensures m.Disconnected? <==> exists n: Name :: Shown(m) == "* " + n + " has left the room"
    ensures m.Relay? <==> Shown(m)[0] == '['
  {
    var entered, left := " has entered the room", " has left the room";
    assert entered[|entered| - 10] == 'd' && left[|left| - 10] == 't';
    if m.AnnounceUser? {
      assert Shown(m) == "* " + m.name + " has entered the room";
    } else if m.Disconnected? {
      assert Shown(m) == "* " + m.name + " has left the room";
    }
    forall n: Name
      ensures m.Disconnected? ==> Shown(m) != "* " + n + entered
      ensures m.AnnounceUser? ==> Shown(m) != "* " + n + left
      ensures m.Relay? ==> Shown(m) != "* " + n + entered && Shown(m) != "* " + n + left
    {
      assert ("* " + n + entered)[0] == '*' && ("* " + n + left)[0] == '*';
      if m.Disconnected? && Shown(m) == "* " + n + entered {
        SameNews(m.name, n, left, entered);
      }
      if m.AnnounceUser? && Shown(m) == "* " + n + left {
        SameNews(m.name, n, entered, left);
      }
    }
  }

  lemma ShownRoom(a: Name, b: Name, c: Name)
    ensures Shown(Users([])) == "* The room contains:"
    ensures Shown(Users([a, b, c])) == "* The room contains: " + (a + ", " + b + ", " + c)
  {
    var names := [a, b, c];
    assert names[..2] == [a, b] && names[..2][..1] == [a];
    assert CommaList(names[..2]) == a + ", " + b;
    assert "* The room contains:" + (" " + CommaList(names)) == "* The room contains: " + CommaList(names);
  }
}
