/** Splitting a key text at a colon. */
module Colons {

  predicate ColonFree(s: string) {
    forall i :: 0 <= i < |s| ==> s[i] != ':'
  }

  /** Two texts split at their first colon agree piece by piece. */
  lemma FirstColon(a: string, b: string, c: string, d: string)
    requires ColonFree(a) && ColonFree(c) && a + (":" + b) == c + (":" + d)
    ensures a == c && b == d
  {
    var s := a + (":" + b);
    assert s[|a|] == ':' && s[|c|] == ':';
    assert forall i | 0 <= i < |a| :: s[i] == a[i];
    assert forall i | 0 <= i < |c| :: s[i] == c[i];
    assert |a| == |c|;
    assert a == s[..|a|] == c;
    assert s[|a| + 1..] == b && s[|c| + 1..] == d;
  }

  /** A text split at its first colon and at any other: the second head is the first or goes on after it. */
  lemma FirstColonOrLater(a: string, b: string, c: string, d: string)
    requires ColonFree(a) && a + (":" + b) == c + (":" + d)
    ensures c == a || a + ":" <= c
  {
    var s := a + (":" + b);
    assert s[|c|] == ':';
    assert forall i | 0 <= i < |a| :: s[i] == a[i];
    assert |a| <= |c|;
    assert c == s[..|c|];
    assert a == s[..|a|] && a + ":" == s[..|a| + 1];
  }

  /** Two texts split at their last colon agree piece by piece. */
  lemma LastColon(a: string, b: string, c: string, d: string)
    requires ColonFree(b) && ColonFree(d) && a + (":" + b) == c + (":" + d)
    ensures a == c && b == d
  {
    var s := a + (":" + b);
    assert s[|a|] == ':' && s[|c|] == ':';
    assert forall i | |a| < i < |s| :: s[i] == b[i - |a| - 1];
    assert forall i | |c| < i < |s| :: s[i] == d[i - |c| - 1];
    assert |a| == |c|;
    assert a == s[..|a|] == c;
    assert s[|a| + 1..] == b && s[|c| + 1..] == d;
  }

  function CountColons(s: string): nat {
    if s == "" then 0 else (if s[0] == ':' then 1 else 0) + CountColons(s[1..])
  }

  lemma {:induction false} CountColonsAdd(a: string, b: string)
    ensures CountColons(a + b) == CountColons(a) + CountColons(b)
  {
    if a == "" {
      assert a + b == b;
    } else {
      CountColonsAdd(a[1..], b);
      assert (a + b)[1..] == a[1..] + b;
    }
  }

  lemma {:induction false} ColonFreeCount(s: string)
    ensures ColonFree(s) <==> CountColons(s) == 0
  {
    if s == "" {
    } else {
      ColonFreeCount(s[1..]);
      assert ColonFree(s) <==> s[0] != ':' && ColonFree(s[1..]);
    }
  }

  /** A text that holds a colon can be split at one. */
  lemma SplitAtColon(s: string) returns (a: string, b: string)
    requires !ColonFree(s)
    ensures s == a + (":" + b)
  {
    var i :| 0 <= i < |s| && s[i] == ':';
    a, b := s[..i], s[i + 1..];
  }
}
