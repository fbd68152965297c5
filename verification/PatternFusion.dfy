/**
 Pass fusion: quoting followed by the three textual rewrites is one left-to-right pass that emits
 each token's regex text.  No rewrite lands inside an escape or in another rewrite's output.
 */
module PatternFusion {
  import opened Regex
  import opened Pattern

  /**
   The text a token has become after some of the rewrites: stage 1 after the parameter rewrite,
   stage 2 after the "**" rewrite, stage 3 after the "*" rewrite.
   */
  function EmitAt(t: Token, stage: nat): string {
    match t
    case Lit(c) => QuoteChar(c)
    case Param(name) => ParamGroup(name)
    case Segment => if stage < 3 then STAR else "[^/]*"
    case Segments => if stage < 2 then STAR_STAR else ".*"
  }

  function EmitAllAt(ts: seq<Token>, stage: nat): string {
    if ts == [] then "" else EmitAt(ts[0], stage) + EmitAllAt(ts[1..], stage)
  }

  /** The regex text of a token sequence, emitted in one pass. */
  function EmitAll(ts: seq<Token>): string {
    EmitAllAt(ts, 3)
  }

  // ---------------------------------------------------------------- characters

  /** The characters that are quoted, and those a parameter's name may start with and hold. */
  lemma CharacterClasses(c: char)
    ensures IsMeta(c) <==> c in "\\.+*?()|[]{}^$"
    ensures IsIdStart(c) <==> c in "ABCDEFGHIJKLMNOPQRSTUVWXYZ" || c in "abcdefghijklmnopqrstuvwxyz" || c == '_'
    ensures IsIdChar(c) <==> IsIdStart(c) || c in "0123456789"
  {
    InRange(c, "ABCDEFGHIJKLMNOPQRSTUVWXYZ");
    InRange(c, "abcdefghijklmnopqrstuvwxyz");
    InRange(c, "0123456789");
  }

  /** A text of consecutive characters holds those from its first to its last. */
  lemma InRange(c: char, s: string)
    requires s != "" && forall i | 0 <= i < |s| :: s[i] as int == s[0] as int + i
    ensures c in s <==> s[0] <= c <= s[|s| - 1]
  {
    if s[0] <= c <= s[|s| - 1] {
      assert s[c as int - s[0] as int] as int == c as int;
    }
  }

  // ---------------------------------------------------------------- shape of token sequences

  ghost predicate TokenOk(t: Token) {
    match t
    case Lit(c) => c != '*'
    case Param(name) => name != "" && IsIdStart(name[0]) && forall c <- name :: IsIdChar(c)
    case Segment => true
    case Segments => true
  }

  /**
   What may follow a token: a parameter takes the longest name, a colon before a name is a parameter,
   and stars pair up from the left.
   */
  ghost predicate Follows(t: Token, next: Token) {
    match t
    case Lit(c) => c == ':' && next.Lit? ==> !IsIdStart(next.c)
    case Param(_) => next.Lit? ==> !IsIdChar(next.c)
    case Segment => next.Lit? || next.Param?
    case Segments => true
  }

  ghost predicate WellFormed(ts: seq<Token>) {
    ts == [] || (
      && TokenOk(ts[0])
      && (|ts| > 1 ==> Follows(ts[0], ts[1]))
      && WellFormed(ts[1..]))
  }

  /** The pattern text of a token. */
  function Spelling(t: Token): string {
    match t
    case Lit(c) => [c]
    case Param(name) => ":" + name
    case Segment => "*"
    case Segments => "**"
  }

  function SpellAll(ts: seq<Token>): string {
    if ts == [] then "" else Spelling(ts[0]) + SpellAll(ts[1..])
  }

  /** The first token of a text spells its beginning and is as long as it can be. */
  lemma NextTokenOk(s: string)
    requires s != ""
    ensures var t := NextToken(s);
            && TokenOk(t) && Spelling(t) == s[..Width(t)]
            && (Width(t) < |s| ==> Follows(t, NextToken(s[Width(t)..])))
  {
    var t := NextToken(s);
    if t.Param? {
      forall c | c in t.name ensures IsIdChar(c) {
        var i :| 0 <= i < |t.name| && t.name[i] == c;
        assert s[1..][i] == c;
      }
      assert IdRun(s[1..]) > 0;
      assert Width(t) < |s| ==> s[Width(t)..][0] == s[1..][|t.name|];
    }
  }

  /**
   Tokenizing is longest match from the left, exactly: a token sequence is the one of a text if and
   only if it spells the text and is well-formed.
   */
  lemma TokenizeUnique(s: string, ts: seq<Token>)
    ensures ts == Tokenize(s) <==> WellFormed(ts) && SpellAll(ts) == s
  {
    TokenizeWellFormed(s);
    if WellFormed(ts) && SpellAll(ts) == s {
      SpellingDetermines(ts);
    }
  }

  lemma {:induction false} TokenizeWellFormed(s: string)
    ensures WellFormed(Tokenize(s)) && SpellAll(Tokenize(s)) == s
  {
    if s == "" {
    } else {
      var t := NextToken(s);
      var rest := s[Width(t)..];
      TokenizeWellFormed(rest);
      NextTokenOk(s);
      assert Tokenize(s)[1..] == Tokenize(rest);
      assert s == s[..Width(t)] + rest;
    }
  }

  lemma {:induction false} SpellingDetermines(ts: seq<Token>)
    requires WellFormed(ts)
    ensures Tokenize(SpellAll(ts)) == ts
  {
    if ts == [] {
    } else {
      var s, rest := SpellAll(ts), SpellAll(ts[1..]);
      SpellingDetermines(ts[1..]);
      FirstTokenIs(ts);
      assert s[Width(ts[0])..] == rest;
      assert ts == [ts[0]] + ts[1..];
    }
  }

  /** The first character of a token's pattern text. */
  function HeadOf(t: Token): char {
    match t
    case Lit(c) => c
    case Param(_) => ':'
    case _ => '*'
  }

  lemma StarPair(s: string)
    ensures "**" <= s <==> |s| >= 2 && s[0] == '*' && s[1] == '*'
  {
  }

  /** A parameter followed by a text that does not go on with its name is the first token. */
  lemma FirstIsParam(name: string, rest: string)
    requires TokenOk(Param(name)) && (rest != "" ==> !IsIdChar(rest[0]))
    ensures NextToken(":" + name + rest) == Param(name)
  {
    var s := ":" + name + rest;
    NameIsRun(name, rest);
    assert s[1..] == name + rest;
    assert s[1..1 + |name|] == name;
  }

  /** Any other token followed by a text it may be followed by is the first token, too. */
  lemma FirstIsOther(t: Token, rest: string)
    requires TokenOk(t) && !t.Param?
    requires t == Lit(':') && rest != "" ==> !IsIdStart(rest[0])
    requires t == Segment && rest != "" ==> rest[0] != '*'
    ensures NextToken(Spelling(t) + rest) == t
  {
    var s := Spelling(t) + rest;
    StarPair(s);
    if t != Segments && rest != "" { assert s[1] == rest[0]; }
  }

  lemma FirstTokenIs(ts: seq<Token>)
    requires ts != [] && WellFormed(ts)
    ensures SpellAll(ts) != "" && NextToken(SpellAll(ts)) == ts[0]
  {
    var rest := SpellAll(ts[1..]);
    if |ts| > 1 {
      assert rest == Spelling(ts[1]) + SpellAll(ts[1..][1..]);
      assert rest[0] == HeadOf(ts[1]);
    }
    if ts[0].Param? {
      FirstIsParam(ts[0].name, rest);
    } else {
      FirstIsOther(ts[0], rest);
    }
  }

  /** A name followed by something else is read to its end. */
  lemma {:induction false} NameIsRun(name: string, r: string)
    requires forall c <- name :: IsIdChar(c)
    requires r != "" ==> !IsIdChar(r[0])
    ensures IdRun(name + r) == |name|
  {
    if name == "" {
      assert name + r == r;
    } else {
      NameIsRun(name[1..], r);
      assert (name + r)[1..] == name[1..] + r;
    }
  }

  /** No emitted text starts with a bare star, at any stage. */
  lemma StartsWithoutStar(ts: seq<Token>, stage: nat)
    requires WellFormed(ts)
    ensures EmitAllAt(ts, stage) != "" ==> EmitAllAt(ts, stage)[0] != '*'
  {
  }

  // ---------------------------------------------------------------- rewrites copy what they do not hit

  lemma CopiesOne(s: string, from: string, to: string)
    requires from != "" && s != "" && s[0] != from[0]
    ensures ReplaceAll(s, from, to) == [s[0]] + ReplaceAll(s[1..], from, to)
  {
  }

  lemma {:induction false} ReplaceAllCopies(p: string, r: string, from: string, to: string)
    requires from != "" && from[0] !in p
    ensures ReplaceAll(p + r, from, to) == p + ReplaceAll(r, from, to)
  {
    if p == "" {
      assert p + r == r;
    } else {
      var rest := ReplaceAll(r, from, to);
      assert p[0] in p;
      ReplaceAllCopies(p[1..], r, from, to);
      assert (p + r)[1..] == p[1..] + r;
      CopiesOne(p + r, from, to);
      assert [p[0]] + (p[1..] + rest) == p + rest;
    }
  }

  // ---------------------------------------------------------------- first rewrite: parameters

  lemma {:induction false} QuoteMetaKeepsPlain(p: string, r: string)
    requires forall c <- p :: !IsMeta(c)
    ensures QuoteMeta(p + r) == p + QuoteMeta(r)
  {
    if p == "" {
      assert p + r == r;
    } else {
      QuoteMetaKeepsPlain(p[1..], r);
      assert (p + r)[1..] == p[1..] + r;
    }
  }

  lemma {:induction false} QuoteMetaKeepsIdRun(s: string)
    ensures IdRun(QuoteMeta(s)) == IdRun(s)
  {
    if s == "" || !IsIdChar(s[0]) {
    } else {
      QuoteMetaKeepsIdRun(s[1..]);
      assert QuoteMeta(s) == [s[0]] + QuoteMeta(s[1..]);
      assert QuoteMeta(s)[1..] == QuoteMeta(s[1..]);
    }
  }

  /** A parameter's text holds nothing to quote. */
  lemma ParamIsPlain(s: string)
    requires StartsParam(s)
    ensures forall c <- s[..1 + IdRun(s[1..])] :: !IsMeta(c)
  {
    var p := s[..1 + IdRun(s[1..])];
    forall c | c in p ensures !IsMeta(c) {
      var i :| 0 <= i < |p| && p[i] == c;
      assert i > 0 ==> s[1..][i - 1] == c;
    }
  }

  /** A quoted parameter starts a parameter, whose name is as long. */
  lemma QuotedParamStarts(s: string)
    requires StartsParam(s)
    ensures StartsParam(QuoteMeta(s)) && IdRun(QuoteMeta(s)[1..]) == IdRun(s[1..])
  {
    assert QuoteMeta(s) == [':'] + QuoteMeta(s[1..]);
    assert QuoteMeta(s)[1..] == QuoteMeta(s[1..]);
    QuoteMetaKeepsIdRun(s[1..]);
    QuoteMetaHead(s[1..]);
  }

  /** A quoted parameter is still a parameter, with the same name. */
  lemma QuotedParam(s: string)
    requires StartsParam(s)
    ensures var n := IdRun(s[1..]);
            RewriteParams(QuoteMeta(s)) == ParamGroup(s[1..1 + n]) + RewriteParams(QuoteMeta(s[1 + n..]))
  {
    var n := IdRun(s[1..]);
    QuotedParamStarts(s);
    QuotedParamParts(s);
    RewritesParam(QuoteMeta(s), s[1..1 + n], QuoteMeta(s[1 + n..]));
  }

  lemma QuotedParamParts(s: string)
    requires StartsParam(s)
    ensures var n := IdRun(s[1..]); QuoteMeta(s) == ":" + s[1..1 + n] + QuoteMeta(s[1 + n..])
  {
    var n := IdRun(s[1..]);
    ParamIsPlain(s);
    assert s == s[..1 + n] + s[1 + n..];
    QuoteMetaKeepsPlain(s[..1 + n], s[1 + n..]);
    assert s[..1 + n] == ":" + s[1..1 + n];
  }

  lemma RewritesParam(s: string, name: string, rest: string)
    requires StartsParam(s) && IdRun(s[1..]) == |name| && s == ":" + name + rest
    ensures RewriteParams(s) == ParamGroup(name) + RewriteParams(rest)
  {
    assert s[1..1 + |name|] == name && s[1 + |name|..] == rest;
  }

  lemma QuoteMetaHead(s: string)
    requires s != ""
    ensures QuoteMeta(s) != "" && (QuoteMeta(s)[0] == '\\' || QuoteMeta(s)[0] == s[0])
  {
  }

  /** Any other character is copied, quoted, by the parameter rewrite. */
  lemma QuotedOther(s: string)
    requires s != "" && !StartsParam(s)
    ensures RewriteParams(QuoteMeta(s)) == QuoteChar(s[0]) + RewriteParams(QuoteMeta(s[1..]))
  {
    var c, r := s[0], QuoteMeta(s[1..]);
    if c == ':' && |s| >= 2 { QuoteMetaHead(s[1..]); }
    CopiesQuoted(c, r);
  }

  lemma CopiesQuoted(c: char, r: string)
    requires c == ':' && r != "" ==> !IsIdStart(r[0])
    ensures RewriteParams(QuoteChar(c) + r) == QuoteChar(c) + RewriteParams(r)
  {
  }

  lemma TokenizeSteps(s: string)
    requires s != ""
    ensures var t := NextToken(s);
            && Tokenize(s)[0] == t && Tokenize(s)[1..] == Tokenize(s[Width(t)..])
            && EmitAllAt(Tokenize(s), 1) == EmitAt(t, 1) + EmitAllAt(Tokenize(s[Width(t)..]), 1)
  {
  }

  /** The parameter rewrite of a quoted text begins with its first token's text. */
  lemma QuotedToken(s: string)
    requires s != ""
    ensures var t := NextToken(s);
            RewriteParams(QuoteMeta(s)) == EmitAt(t, 1) + RewriteParams(QuoteMeta(s[Width(t)..]))
  {
    match NextToken(s)
    case Param(_) => QuotedParam(s);
    case Lit(_) => QuotedOther(s);
    case Segment => QuotedOther(s);
    case Segments => QuotedStarPair(s);
  }

  lemma {:induction false} ParamPass(s: string)
    ensures RewriteParams(QuoteMeta(s)) == EmitAllAt(Tokenize(s), 1)
  {
    if s == "" {
    } else {
      ParamPass(s[Width(NextToken(s))..]);
      TokenizeSteps(s);
      QuotedToken(s);
    }
  }

  lemma QuotedStarPair(s: string)
    requires "**" <= s
    ensures RewriteParams(QuoteMeta(s)) == STAR_STAR + RewriteParams(QuoteMeta(s[2..]))
  {
    StarPair(s);
    assert s[1..][1..] == s[2..];
    QuotedOther(s);
    QuotedOther(s[1..]);
    var r := RewriteParams(QuoteMeta(s[2..]));
    assert STAR + (STAR + r) == STAR_STAR + r;
  }

  // ---------------------------------------------------------------- second and third rewrites

  /** An escaped character other than a star is never part of a hit of either star rewrite. */
  lemma LiteralSurvives(c: char, r: string, from: string, to: string)
    requires c != '*' && (r != "" ==> r[0] != '*')
    requires from == STAR || from == STAR_STAR
    ensures ReplaceAll(QuoteChar(c) + r, from, to) == QuoteChar(c) + ReplaceAll(r, from, to)
  {
    assert from[0] == '\\' && from[1] == '*';
    if c != '\\' {
      ReplaceAllCopies([c], r, from, to);
    } else {
      NoHitAt(['\\'], r, from, to);
    }
    if IsMeta(c) {
      NoHitAt(['\\'], [c] + r, from, to);
      assert QuoteChar(c) + r == ['\\'] + ([c] + r);
    }
  }

  lemma NoHitAt(b: string, r: string, from: string, to: string)
    requires |b| == 1 && |from| >= 2 && (r != "" ==> r[0] != from[1])
    ensures ReplaceAll(b + r, from, to) == b + ReplaceAll(r, from, to)
  {
  }

  lemma GroupHasNoBackslash(name: string)
    requires TokenOk(Param(name))
    ensures '\\' !in ParamGroup(name)
  {
  }

  lemma LoneStarIsNoPair(ts: seq<Token>)
    requires WellFormed(ts)
    requires ts != [] ==> ts[0].Lit? || ts[0].Param?
    ensures !(STAR_STAR <= STAR + EmitAllAt(ts, 1))
  {
    var r := EmitAllAt(ts, 1);
    assert (STAR + r)[2..] == r;
    assert !(STAR <= r) by {
      if ts != [] {
        var e := EmitAt(ts[0], 1);
        assert r == e + EmitAllAt(ts[1..], 1);
        assert r[0] == e[0];
        assert e[0] == '\\' ==> r[1] == e[1] != '*';
      }
    }
    assert STAR_STAR[2..] == STAR;
  }

  /** The text each star rewrite looks for, and what it puts there. */
  function FromAt(stage: nat): string {
    if stage == 1 then STAR_STAR else STAR
  }

  function ToAt(stage: nat): string {
    if stage == 1 then ".*" else "[^/]*"
  }

  lemma MissesOne(s: string, from: string, to: string)
    requires from != "" && s != "" && !(from <= s)
    ensures ReplaceAll(s, from, to) == [s[0]] + ReplaceAll(s[1..], from, to)
  {
  }

  lemma UnpairedStarStays(r: string)
    requires !(STAR_STAR <= STAR + r)
    ensures ReplaceAll(STAR + r, STAR_STAR, ".*") == STAR + ReplaceAll(r, STAR_STAR, ".*")
  {
    var rest := ReplaceAll(r, STAR_STAR, ".*");
    MissesOne(STAR + r, STAR_STAR, ".*");
    assert (STAR + r)[1..] == "*" + r;
    CopiesOne("*" + r, STAR_STAR, ".*");
    assert ("*" + r)[1..] == r;
    assert ['\\'] + (['*'] + rest) == STAR + rest;
  }

  lemma LoneStarStays(ts: seq<Token>)
    requires WellFormed([Segment] + ts)
    ensures ReplaceAll(STAR + EmitAllAt(ts, 1), STAR_STAR, ".*") == STAR + ReplaceAll(EmitAllAt(ts, 1), STAR_STAR, ".*")
  {
    assert ([Segment] + ts)[1..] == ts;
    assert ts != [] ==> ([Segment] + ts)[1] == ts[0];
    LoneStarIsNoPair(ts);
    UnpairedStarStays(EmitAllAt(ts, 1));
  }

  lemma SegmentSteps(ts: seq<Token>, stage: nat)
    requires WellFormed([Segment] + ts) && 1 <= stage <= 2
    ensures var r := EmitAllAt(ts, stage);
            ReplaceAll(EmitAt(Segment, stage) + r, FromAt(stage), ToAt(stage))
            == EmitAt(Segment, stage + 1) + ReplaceAll(r, FromAt(stage), ToAt(stage))
  {
    if stage == 1 {
      LoneStarStays(ts);
    } else {
      assert (STAR + EmitAllAt(ts, 2))[2..] == EmitAllAt(ts, 2);
    }
  }

  lemma SegmentsSteps(r: string, stage: nat)
    requires 1 <= stage <= 2
    ensures ReplaceAll(EmitAt(Segments, stage) + r, FromAt(stage), ToAt(stage))
            == EmitAt(Segments, stage + 1) + ReplaceAll(r, FromAt(stage), ToAt(stage))
  {
    if stage == 1 {
      assert (STAR_STAR + r)[4..] == r;
    } else {
      ReplaceAllCopies(".*", r, FromAt(2), ToAt(2));
    }
  }

  lemma {:induction false} StarPass(ts: seq<Token>, stage: nat)
    requires WellFormed(ts) && 1 <= stage <= 2
    ensures ReplaceAll(EmitAllAt(ts, stage), FromAt(stage), ToAt(stage)) == EmitAllAt(ts, stage + 1)
  {
    if ts == [] {
    } else {
      var r := EmitAllAt(ts[1..], stage);
      StarPass(ts[1..], stage);
      match ts[0]
      case Lit(c) =>
        StartsWithoutStar(ts[1..], stage);
        LiteralSurvives(c, r, FromAt(stage), ToAt(stage));
      case Param(name) =>
        GroupHasNoBackslash(name);
        ReplaceAllCopies(ParamGroup(name), r, FromAt(stage), ToAt(stage));
      case Segment =>
        assert [Segment] + ts[1..] == ts;
        SegmentSteps(ts[1..], stage);
      case Segments => SegmentsSteps(r, stage);
    }
  }

  /** The four passes are one. */
  lemma Fusion(pathPattern: string)
    ensures Escape(pathPattern) == EmitAll(Tokenize(pathPattern))
  {
    var ts := Tokenize(pathPattern);
    TokenizeWellFormed(pathPattern);
    ParamPass(pathPattern);
    StarPass(ts, 1);
    StarPass(ts, 2);
  }
}
