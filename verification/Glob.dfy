/** What the glob of a path_pattern can and cannot accept, on the pattern's own text. */
module Glob {
  import opened Pattern

  predicate NoWildcards(s: string) {
    forall i | 0 <= i < |s| :: s[i] != '*' && !StartsParam(s[i..])
  }

  /** A pattern without wildcards matches its own text and nothing longer, shorter or nested. */
  lemma {:induction false} PlainPatternIsExact(s: string, path: string)
    requires NoWildcards(s)
    ensures GlobMatches(s, path) <==> path == s
  {
    if s == "" {
    } else {
      assert s[0..] == s;
      assert Tokenize(s) == [Lit(s[0])] + Tokenize(s[1..]);
      forall i | 0 <= i < |s[1..]| ensures s[1..][i] != '*' && !StartsParam(s[1..][i..]) {
        assert s[1..][i..] == s[i + 1..];
      }
      if path != "" {
        PlainPatternIsExact(s[1..], path[1..]);
        assert path == [path[0]] + path[1..] && s == [s[0]] + s[1..];
      }
    }
  }

  function Slashes(s: string): nat {
    if s == "" then 0 else (if s[0] == '/' then 1 else 0) + Slashes(s[1..])
  }

  lemma {:induction false} SlashesAdd(a: string, b: string)
    ensures Slashes(a + b) == Slashes(a) + Slashes(b)
  {
    if a == "" {
      assert a + b == b;
    } else {
      SlashesAdd(a[1..], b);
      assert (a + b)[1..] == a[1..] + b;
    }
  }

  lemma {:induction false} NoSlashes(a: string)
    requires '/' !in a
    ensures Slashes(a) == 0
  {
    if a == "" {
    } else {
      NoSlashes(a[1..]);
    }
  }

  /** The slashes a token sequence spells out. */
  function LiteralSlashes(ts: seq<Token>): nat {
    if ts == [] then 0 else (if ts[0] == Lit('/') then 1 else 0) + LiteralSlashes(ts[1..])
  }

  lemma {:induction false} TokenizeKeepsSlashes(s: string)
    ensures LiteralSlashes(Tokenize(s)) == Slashes(s)
  {
    if s == "" {
    } else {
      var t := NextToken(s);
      var head, rest := s[..Width(t)], s[Width(t)..];
      TokenizeKeepsSlashes(rest);
      assert Tokenize(s)[1..] == Tokenize(rest);
      assert s == head + rest;
      SlashesAdd(head, rest);
      HeadSlashes(s);
    }
  }

  lemma HeadSlashes(s: string)
    requires s != ""
    ensures var t := NextToken(s); Slashes(s[..Width(t)]) == if t == Lit('/') then 1 else 0
  {
    var t := NextToken(s);
    var head := s[..Width(t)];
    if t.Lit? {
      assert head == [s[0]];
    } else {
      forall c | c in head ensures c != '/' {
        var i :| 0 <= i < |head| && head[i] == c;
        assert t.Param? && i > 0 ==> s[1..][i - 1] == c;
      }
      NoSlashes(head);
    }
  }

  /** The part of an accepted path that the first token, other than "**", takes. */
  lemma HeadAccepts(ts: seq<Token>, path: string) returns (k: int)
    requires ts != [] && ts[0] != Segments && Accepts(ts, path)
    ensures 0 <= k <= |path| && Accepts(ts[1..], path[k..])
    ensures Slashes(path[..k]) == if ts[0] == Lit('/') then 1 else 0
  {
    match ts[0] {
      case Lit(c) =>
        k := 1;
        assert path[..1] == [c];
      case Param(name) =>
        k :| 1 <= k <= |path| && '/' !in path[..k] && Accepts(ts[1..], path[k..]);
        NoSlashes(path[..k]);
      case Segment =>
        k :| 0 <= k <= |path| && '/' !in path[..k] && Accepts(ts[1..], path[k..]);
        NoSlashes(path[..k]);
    }
  }

  lemma {:induction false} AcceptedSlashes(ts: seq<Token>, path: string)
    requires Segments !in ts && Accepts(ts, path)
    ensures Slashes(path) == LiteralSlashes(ts)
  {
    if ts == [] {
    } else {
      var k := HeadAccepts(ts, path);
      AcceptedSlashes(ts[1..], path[k..]);
      SlashesAdd(path[..k], path[k..]);
      assert path == path[..k] + path[k..];
    }
  }

  /**
   Without "**", wildcards stay inside path segments: every accepted path has exactly as many slashes
   as the pattern.
   */
  lemma SegmentsAreKept(s: string, path: string)
    requires Segments !in Tokenize(s) && GlobMatches(s, path)
    ensures Slashes(path) == Slashes(s)
  {
    AcceptedSlashes(Tokenize(s), path);
    TokenizeKeepsSlashes(s);
  }
}
