/**
 Compiler correctness: the regex text compiled from a path_pattern, read back and searched with,
 accepts exactly the paths the glob accepts, if and only if the pattern does not end in "$".
 */
module PatternCorrect {
  import opened Wrappers
  import opened Regex
  import opened Pattern
  import opened PatternFusion
  import opened Anchoring
  import Glob

  // ---------------------------------------------------------------- the emitted text read back

  /** The expression a token's text reads as. */
  function TokenRe(t: Token): Re {
    match t
    case Lit(c) => Char(c)
    case Param(name) => Group(name, Cat(Plus(NotSlash), Empty))
    case Segment => Star(NotSlash)
    case Segments => Star(Any)
  }

  function TokensRe(ts: seq<Token>): Re {
    if ts == [] then Empty else Cat(TokenRe(ts[0]), TokensRe(ts[1..]))
  }

  /** No emitted text starts with something a preceding atom would absorb. */
  predicate StartsAtom(s: string) {
    s == "" || !(IsQuantifier(s[0]) || s[0] == '|' || s[0] == ')')
  }

  lemma EmittedStartsAtom(ts: seq<Token>)
    ensures StartsAtom(EmitAll(ts))
  {
  }

  /** The inside of a parameter's group, up to its closing parenthesis. */
  lemma ReadsParamBody(r: string)
    ensures ParseAlt(NOT_SLASH + ("+)" + r)) == Ok(Cat(Plus(NotSlash), Empty), ")" + r)
  {
    var s := NOT_SLASH + ("+)" + r);
    assert s[4..] == "+)" + r;
    assert ParseAtom(s) == Ok(NotSlash, "+)" + r);
    assert ("+)" + r)[1..] == ")" + r;
    assert ParseRep(s) == Ok(Plus(NotSlash), ")" + r);
    assert ParseCat(")" + r) == Ok(Empty, ")" + r);
    assert ParseCat(s) == Ok(Cat(Plus(NotSlash), Empty), ")" + r);
  }

  /** The head of a parameter's group, up to the name. */
  lemma ReadsParamHead(name: string, body: string)
    requires TokenOk(Param(name))
    ensures var s := NAMED_GROUP + (name + (">" + body));
            ParseAtom(s) == ParseGroup(name, body)
  {
    var s := NAMED_GROUP + (name + (">" + body));
    var n := |name|;
    assert s[4..] == name + (">" + body);
    NameIsRun(name, ">" + body);
    assert s[4..4 + n] == name && s[4 + n] == '>' && s[5 + n..] == body;
  }

  lemma ReadsParam(name: string, r: string)
    requires TokenOk(Param(name)) && StartsAtom(r)
    ensures ParseRep(ParamGroup(name) + r) == Ok(TokenRe(Param(name)), r)
  {
    var body := NOT_SLASH + ("+)" + r);
    assert ParamGroup(name) + r == NAMED_GROUP + (name + (">" + body));
    ReadsParamHead(name, body);
    ReadsParamGroup(name, r);
    BareAtom(ParamGroup(name) + r);
  }

  lemma ReadsParamGroup(name: string, r: string)
    ensures ParseGroup(name, NOT_SLASH + ("+)" + r)) == Ok(TokenRe(Param(name)), r)
  {
    ReadsParamBody(r);
    assert (")" + r)[1..] == r;
  }

  /** An atom with nothing to absorb behind it is read alone. */
  lemma BareAtom(s: string)
    requires s != "" && ParseAtom(s).Ok? && StartsAtom(ParseAtom(s).rest)
    ensures ParseRep(s) == ParseAtom(s)
  {
  }

  lemma ReadsToken(t: Token, r: string)
    requires TokenOk(t) && StartsAtom(r)
    ensures ParseRep(EmitAt(t, 3) + r) == Ok(TokenRe(t), r)
  {
    var s := EmitAt(t, 3) + r;
    match t
    case Lit(c) =>
      if IsMeta(c) {
        assert s[2..] == r;
        assert ParseAtom(s) == Ok(Char(c), r);
      } else {
        assert s[1..] == r;
        assert ParseAtom(s) == Ok(Char(c), r);
      }
    case Param(name) => ReadsParam(name, r);
    case Segment =>
      assert s[4..] == "*" + r && ("*" + r)[1..] == r;
      assert ParseAtom(s) == Ok(NotSlash, "*" + r);
    case Segments =>
      assert s[1..] == "*" + r && ("*" + r)[1..] == r;
      assert ParseAtom(s) == Ok(Any, "*" + r);
  }

  lemma {:induction false} ReadsEmitted(ts: seq<Token>)
    requires WellFormed(ts)
    ensures ParseCat(EmitAll(ts)) == Ok(TokensRe(ts), "")
  {
    if ts == [] {
    } else {
      var r := EmitAll(ts[1..]);
      ReadsEmitted(ts[1..]);
      EmittedStartsAtom(ts[1..]);
      EmittedStartsAtom(ts);
      ReadsToken(ts[0], r);
      assert EmitAll(ts) == EmitAt(ts[0], 3) + r;
    }
  }

  // ---------------------------------------------------------------- its meaning is the glob's

  /** Repeating a one-character expression matches the runs of that character class. */
  lemma {:induction false} IteratesRun(w: string, i: int, j: int)
    requires 0 <= i <= j <= |w|
    ensures Iterates(NotSlash, w, i, j) <==> '/' !in w[i..j]
    ensures Iterates(Any, w, i, j) <==> '\n' !in w[i..j]
    decreases j - i
  {
    if i == j {
    } else {
      IteratesRun(w, i + 1, j);
      assert w[i..j] == [w[i]] + w[i + 1..j];
      IteratesSteps(NotSlash, w, i, j);
      IteratesSteps(Any, w, i, j);
    }
  }

  lemma IteratesSteps(a: Re, w: string, i: int, j: int)
    requires a == NotSlash || a == Any
    requires 0 <= i < j <= |w|
    ensures Iterates(a, w, i, j) <==> Matches(a, w, i, i + 1) && Iterates(a, w, i + 1, j)
  {
  }

  lemma ParamMeaning(name: string, w: string, i: int, k: int)
    requires 0 <= i <= k <= |w|
    ensures Matches(TokenRe(Param(name)), w, i, k) <==> i < k && '/' !in w[i..k]
  {
    var plus := Plus(NotSlash);
    assert Matches(Empty, w, k, k);
    assert Matches(TokenRe(Param(name)), w, i, k) <==> Matches(Cat(plus, Empty), w, i, k);
    assert Matches(Cat(plus, Empty), w, i, k) <==> Matches(plus, w, i, k);
    assert Matches(plus, w, i, k) <==> i < k && Matches(NotSlash, w, i, i + 1) && Iterates(NotSlash, w, i + 1, k);
    if i < k {
      IteratesRun(w, i + 1, k);
      assert w[i..k] == [w[i]] + w[i + 1..k];
    }
  }

  /** The span a token's expression may match. */
  ghost predicate Span(t: Token, w: string, i: int, k: int)
    requires 0 <= i <= k <= |w|
  {
    match t
    case Lit(c) => k == i + 1 && w[i] == c
    case Param(_) => i < k && '/' !in w[i..k]
    case Segment => '/' !in w[i..k]
    case Segments => '\n' !in w[i..k]
  }

  lemma TokenMeaning(t: Token, w: string, i: int, k: int)
    requires 0 <= i <= k <= |w|
    ensures Matches(TokenRe(t), w, i, k) <==> Span(t, w, i, k)
  {
    match t
    case Lit(c) =>
    case Param(name) => ParamMeaning(name, w, i, k);
    case Segment => IteratesRun(w, i, k);
    case Segments => IteratesRun(w, i, k);
  }

  /** The first token takes the span w[i..k] of w[i..j] and the others accept the rest. */
  ghost predicate Takes(ts: seq<Token>, w: string, i: int, k: int, j: int)
    requires ts != [] && 0 <= i <= j <= |w|
  {
    i <= k <= j && Span(ts[0], w, i, k) && Accepts(ts[1..], w[k..j])
  }

  lemma AcceptsFirst(ts: seq<Token>, v: string) returns (k: int)
    requires ts != [] && Accepts(ts, v)
    ensures Takes(ts, v, 0, k, |v|)
  {
    match ts[0] {
      case Lit(_) => k := 1;
      case Param(_) => k :| 1 <= k <= |v| && '/' !in v[..k] && Accepts(ts[1..], v[k..]);
      case Segment => k :| 0 <= k <= |v| && '/' !in v[..k] && Accepts(ts[1..], v[k..]);
      case Segments => k :| 0 <= k <= |v| && '\n' !in v[..k] && Accepts(ts[1..], v[k..]);
    }
    assert v[0..k] == v[..k] && v[k..|v|] == v[k..];
  }

  lemma TakesAccepts(ts: seq<Token>, v: string, k: int)
    requires ts != [] && Takes(ts, v, 0, k, |v|)
    ensures Accepts(ts, v)
  {
    assert v[0..k] == v[..k] && v[k..|v|] == v[k..];
  }

  lemma SpanShift(t: Token, w: string, v: string, i: int, k: int)
    requires 0 <= i <= i + |v| <= |w| && v == w[i..i + |v|] && 0 <= k <= |v|
    ensures Span(t, w, i, i + k) <==> Span(t, v, 0, k)
  {
    assert v[0..k] == w[i..i + k];
  }

  lemma TakesShift(ts: seq<Token>, w: string, v: string, i: int, k: int)
    requires ts != [] && 0 <= i <= i + |v| <= |w| && v == w[i..i + |v|] && 0 <= k <= |v|
    ensures Takes(ts, w, i, i + k, i + |v|) <==> Takes(ts, v, 0, k, |v|)
  {
    SpanShift(ts[0], w, v, i, k);
    assert v[k..|v|] == w[i + k..i + |v|];
  }

  lemma AcceptedIsTaken(ts: seq<Token>, w: string, v: string, i: int) returns (k: int)
    requires ts != [] && 0 <= i <= i + |v| <= |w| && v == w[i..i + |v|] && Accepts(ts, v)
    ensures Takes(ts, w, i, k, i + |v|)
  {
    var n := AcceptsFirst(ts, v);
    TakesShift(ts, w, v, i, n);
    k := i + n;
  }

  lemma TakenIsAccepted(ts: seq<Token>, w: string, v: string, i: int, k: int)
    requires ts != [] && 0 <= i <= i + |v| <= |w| && v == w[i..i + |v|] && Takes(ts, w, i, k, i + |v|)
    ensures Accepts(ts, v)
  {
    TakesShift(ts, w, v, i, k - i);
    TakesAccepts(ts, v, k - i);
  }

  /** The glob matcher takes a span off the front, too. */
  lemma AcceptsSpan(ts: seq<Token>, w: string, v: string, i: int, j: int)
    requires ts != [] && 0 <= i <= j <= |w| && v == w[i..j]
    ensures Accepts(ts, v) <==> exists k :: Takes(ts, w, i, k, j)
  {
    assert j == i + |v|;
    if Accepts(ts, v) {
      var k := AcceptedIsTaken(ts, w, v, i);
    }
    if k :| Takes(ts, w, i, k, j) {
      TakenIsAccepted(ts, w, v, i, k);
    }
  }

  lemma {:induction false} TokensMeaning(ts: seq<Token>, w: string, i: int, j: int)
    requires 0 <= i <= j <= |w|
    ensures Matches(TokensRe(ts), w, i, j) <==> Accepts(ts, w[i..j])
  {
    if ts == [] {
    } else {
      AcceptsSpan(ts, w, w[i..j], i, j);
      forall k | i <= k <= j
        ensures Matches(TokenRe(ts[0]), w, i, k) && Matches(TokensRe(ts[1..]), w, k, j)
           <==> Takes(ts, w, i, k, j)
      {
        TokenMeaning(ts[0], w, i, k);
        TokensMeaning(ts[1..], w, k, j);
      }
      forall k | Matches(TokenRe(ts[0]), w, i, k) && Matches(TokensRe(ts[1..]), w, k, j)
        ensures i <= k <= j {}
    }
  }

  // ---------------------------------------------------------------- the trailing "$"

  /** The emitted text ends in "$" just when the pattern does, and then the "$" is escaped. */
  lemma {:induction false} EmittedEnd(ts: seq<Token>)
    requires WellFormed(ts)
    ensures EndsWithDollar(EmitAll(ts)) <==> ts != [] && ts[|ts| - 1] == Lit('$')
    ensures EndsWithDollar(EmitAll(ts)) ==> EndsEscaped(EmitAll(ts))
  {
    if |ts| == 1 {
      LastTokenEnd(ts[0]);
      assert EmitAll(ts) == EmitAt(ts[0], 3) by { assert EmitAll(ts[1..]) == ""; }
    } else if |ts| > 1 {
      var r := EmitAll(ts[1..]);
      EmittedEnd(ts[1..]);
      EmittedNonEmpty(ts[1..]);
      assert EmitAll(ts) == EmitAt(ts[0], 3) + r;
      if EndsWithDollar(r) { EscapeStaysLast(ts[0], r); }
    }
  }

  lemma LastTokenEnd(t: Token)
    requires TokenOk(t)
    ensures EndsWithDollar(EmitAt(t, 3)) <==> t == Lit('$')
    ensures EndsWithDollar(EmitAt(t, 3)) ==> EndsEscaped(EmitAt(t, 3))
  {
  }

  /** Text put before an escaped last character leaves it escaped. */
  lemma EscapeStaysLast(t: Token, r: string)
    requires TokenOk(t) && EndsEscaped(r)
    ensures EndsEscaped(EmitAt(t, 3) + r)
  {
    var e := EmitAt(t, 3);
    assert (e + r)[|e|..] == r;
    if t.Lit? && IsMeta(t.c) {
      assert (e + r)[2..] == r;
    } else {
      if t.Param? { GroupHasNoBackslash(t.name); }
      EndsEscapedFrom(e + r, |e|);
    }
  }

  lemma EmittedNonEmpty(ts: seq<Token>)
    requires ts != []
    ensures EmitAll(ts) != ""
  {
  }

  lemma {:induction false} TokenizeEnd(s: string)
    ensures EndsWithDollar(s) <==> Tokenize(s) != [] && Tokenize(s)[|Tokenize(s)| - 1] == Lit('$')
  {
    if s == "" {
    } else {
      var t := NextToken(s);
      var rest := s[Width(t)..];
      TokenizeEnd(rest);
      if rest != "" {
        assert rest[|rest| - 1] == s[|s| - 1];
      } else if t.Param? {
        var n := IdRun(s[1..]);
        assert s[|s| - 1] == s[1..][n - 1];
      }
    }
  }

  // ---------------------------------------------------------------- the main theorems

  /** Reading back what is emitted for a whole pattern, before anchoring. */
  lemma ReadsEscape(s: string)
    ensures ParseCat(Escape(s)) == Ok(TokensRe(Tokenize(s)), "")
    ensures EndsWithDollar(Escape(s)) <==> EndsWithDollar(s)
    ensures EndsWithDollar(s) ==> EndsEscaped(Escape(s))
    ensures !StartsWithCaret(Escape(s))
  {
    var ts := Tokenize(s);
    Fusion(s);
    TokenizeWellFormed(s);
    ReadsEmitted(ts);
    EmittedEnd(ts);
    TokenizeEnd(s);
  }

  /**
   What the compiled pattern looks for: a path the glob accepts - or, when the pattern ends in "$",
   whose escaped form passes for the end anchor, just a path with such a prefix.
   */
  ghost predicate GlobSearch(s: string, w: string) {
    exists j :: 0 <= j <= |w| && GlobMatches(s, w[..j]) && (!EndsWithDollar(s) ==> j == |w|)
  }

  /** What the compiled pattern means, for every pattern. */
  lemma CompiledMeaning(s: string) returns (re: Re)
    ensures Compile(AnchorPattern(Escape(s))) == Some(re)
    ensures forall w :: Search(re, w) <==> GlobSearch(s, w)
  {
    ReadsEscape(s);
    re := AnchoredMeaning(Escape(s));
    forall w ensures Search(re, w) <==> GlobSearch(s, w) {
      PrefixMeaning(s, w);
      assert Found(TokensRe(Tokenize(s)), w, true, !EndsWithDollar(s))
        <==> PinnedSearch(TokensRe(Tokenize(s)), w, true, !EndsWithDollar(s));
    }
  }

  lemma PrefixMeaning(s: string, w: string)
    ensures forall j :: Matches(TokensRe(Tokenize(s)), w, 0, j) <==> 0 <= j <= |w| && GlobMatches(s, w[..j])
  {
    forall j ensures Matches(TokensRe(Tokenize(s)), w, 0, j) <==> 0 <= j <= |w| && GlobMatches(s, w[..j]) {
      if 0 <= j <= |w| { TokensMeaning(Tokenize(s), w, 0, j); }
    }
  }

  /** A path the glob accepts: every glob accepts one. */
  function Sample(ts: seq<Token>): string {
    if ts == [] then ""
    else (match ts[0] case Lit(c) => [c] case Param(_) => "a" case Segment => "" case Segments => "") + Sample(ts[1..])
  }

  lemma {:induction false} SampleAccepted(ts: seq<Token>)
    ensures Accepts(ts, Sample(ts))
  {
    if ts == [] {
    } else {
      SampleAccepted(ts[1..]);
      var w, r := Sample(ts), Sample(ts[1..]);
      match ts[0]
      case Lit(c) => assert w[1..] == r;
      case Param(_) => assert w[..1] == "a" && w[1..] == r;
      case Segment => assert w[..0] == "" && w[0..] == r;
      case Segments => assert w[..0] == "" && w[0..] == r;
    }
  }

  /** A glob whose last token is a literal only accepts paths that end in it. */
  lemma {:induction false} AcceptsLastLiteral(ts: seq<Token>, w: string)
    requires ts != [] && ts[|ts| - 1].Lit? && Accepts(ts, w)
    ensures w != "" && w[|w| - 1] == ts[|ts| - 1].c
  {
    if |ts| == 1 {
      assert w[1..] == "";
    } else {
      var k := AcceptsFirst(ts, w);
      var v := w[k..|w|];
      AcceptsLastLiteral(ts[1..], v);
      assert v[|v| - 1] == w[|w| - 1];
    }
  }

  lemma OneCharTooMany(s: string) returns (longer: string)
    requires EndsWithDollar(s)
    ensures !GlobMatches(s, longer)
    ensures longer != "" && GlobMatches(s, longer[..|longer| - 1])
  {
    var ts := Tokenize(s);
    TokenizeEnd(s);
    SampleAccepted(ts);
    longer := Sample(ts) + "x";
    assert longer[..|longer| - 1] == Sample(ts);
    if GlobMatches(s, longer) {
      AcceptsLastLiteral(ts, longer);
      assert false;
    }
  }

  /**
   Compiler correctness, with its exact condition: the compiled pattern matches the same paths as
   the glob if and only if the path_pattern does not end in a literal "$".
   */
  lemma CompilerCorrect(s: string, compiles: string -> bool) returns (text: string, re: Re)
    requires !IsRaw(s)
    ensures PathPatternToRegex(s, compiles) == Success(text) && Compile(text) == Some(re)
    ensures (forall w :: Search(re, w) <==> GlobMatches(s, w)) <==> !EndsWithDollar(s)
  {
    text := AnchorPattern(Escape(s));
    re := CompiledMeaning(s);
    if !EndsWithDollar(s) {
      forall w ensures GlobSearch(s, w) <==> GlobMatches(s, w) { assert w[..|w|] == w; }
    } else {
      var longer := OneCharTooMany(s);
      assert Search(re, longer) && !GlobMatches(s, longer);
    }
  }

  /** For instance, a pattern without wildcards that ends in "$" accepts every path it is a prefix of. */
  lemma PlainDollarMatchesPrefixes(s: string) returns (re: Re)
    requires Glob.NoWildcards(s) && EndsWithDollar(s)
    ensures Compile(AnchorPattern(Escape(s))) == Some(re)
    ensures forall w :: Search(re, w) <==> s <= w
  {
    re := CompiledMeaning(s);
    forall w ensures GlobSearch(s, w) <==> s <= w { PlainPrefix(s, w); }
  }

  lemma PlainPrefix(s: string, w: string)
    requires Glob.NoWildcards(s) && EndsWithDollar(s)
    ensures GlobSearch(s, w) <==> s <= w
  {
    if s <= w {
      assert w[..|s|] == s;
      Glob.PlainPatternIsExact(s, w[..|s|]);
    }
    if j :| 0 <= j <= |w| && GlobMatches(s, w[..j]) {
      Glob.PlainPatternIsExact(s, w[..j]);
    }
  }
}
