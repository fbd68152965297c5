/**
 What anchoring does to a pattern's meaning, for every text of the regex fragment: reading a text
 with "^" or "$" added, and searching with the result.
 */
module Anchoring {
  import opened Wrappers
  import opened Regex
  import opened Pattern

  // ---------------------------------------------------------------- real and escaped anchors

  /** Scanning escapes from the left, is the last character the second half of one? */
  predicate EndsEscaped(s: string) {
    if |s| < 2 then false
    else if s[0] == '\\' then |s| == 2 || EndsEscaped(s[2..])
    else EndsEscaped(s[1..])
  }

  /** A leading "^", if there is one, is not repeated by a quantifier. */
  predicate LeadingCaretReal(s: string) {
    StartsWithCaret(s) && |s| > 1 ==> !IsQuantifier(s[1])
  }

  /** A trailing "$", if there is one, is not escaped. */
  predicate TrailingDollarReal(s: string) {
    EndsWithDollar(s) ==> !EndsEscaped(s)
  }

  lemma {:induction false} EndsEscapedFrom(s: string, k: nat)
    requires k < |s| && forall i :: 0 <= i < k ==> s[i] != '\\'
    ensures EndsEscaped(s) == EndsEscaped(s[k..])
  {
    if k == 0 {
      assert s[0..] == s;
    } else {
      EndsEscapedFrom(s[1..], k - 1);
      assert s[1..][k - 1..] == s[k..];
    }
  }

  // ---------------------------------------------------------------- reading is stable

  /**
   What an unfinished reading of s says about longer texts and about escapes: a "$" put after s is
   left unread, and the unread part ends as s ends.
   */
  ghost predicate Stable(s: string, rest: string) {
    rest != "" ==> s != "" && EndsEscaped(s) == EndsEscaped(rest) && s[|s| - 1] == rest[|rest| - 1]
  }

  lemma {:induction false} AtomStable(s: string)
    requires s != "" && ParseAtom(s).Ok?
    ensures |ParseAtom(s).rest| < |s| && Stable(s, ParseAtom(s).rest)
    ensures ParseAtom(s + "$") == Ok(ParseAtom(s).re, ParseAtom(s).rest + "$")
    decreases |s|, 0, 2
  {
    var t := s + "$";
    assert t[0] == s[0];
    if s[0] == '(' {
      OpenStable(s);
    } else if s[0] == '\\' {
      assert t[2..] == s[2..] + "$";
    } else if s[0] == '[' {
      assert t[4..] == s[4..] + "$";
      assert forall i | 0 <= i < 4 :: s[i] == NOT_SLASH[i];
      if s[4..] != "" { EndsEscapedFrom(s, 4); }
    } else {
      assert t[1..] == s[1..] + "$";
    }
  }

  /** The texts a named group starts with, character by character. */
  lemma NamedGroupPrefix(s: string)
    ensures NAMED_GROUP <= s <==> |s| >= 4 && s[0] == '(' && s[1] == '?' && s[2] == 'P' && s[3] == '<'
  {
  }

  lemma {:induction false} OpenStable(s: string)
    requires s != "" && s[0] == '(' && ParseAtom(s).Ok?
    ensures |ParseAtom(s).rest| < |s| && Stable(s, ParseAtom(s).rest)
    ensures ParseAtom(s + "$") == Ok(ParseAtom(s).re, ParseAtom(s).rest + "$")
    decreases |s|, 0, 1
  {
    NamedGroupPrefix(s);
    NamedGroupPrefix(s + "$");
    if NAMED_GROUP <= s {
      NamedOpenStable(s);
    } else {
      PlainOpenStable(s);
    }
  }

  lemma {:induction false} NamedOpenStable(s: string)
    requires NAMED_GROUP <= s && NAMED_GROUP <= s + "$" && ParseAtom(s).Ok?
    ensures |ParseAtom(s).rest| < |s| && Stable(s, ParseAtom(s).rest)
    ensures ParseAtom(s + "$") == Ok(ParseAtom(s).re, ParseAtom(s).rest + "$")
    decreases |s|, 0, 0
  {
    var n := IdRun(s[4..]);
    NamedGroupHead(s);
    GroupStable(s[4..4 + n], s[5 + n..]);
    NamedGroupHeadPlain(s);
    StableTrans(s, s[5 + n..], ParseAtom(s).rest);
  }

  lemma {:induction false} PlainOpenStable(s: string)
    requires s != "" && s[0] == '(' && ParseAtom(s).Ok?
    requires !(NAMED_GROUP <= s) && !(NAMED_GROUP <= s + "$")
    ensures |ParseAtom(s).rest| < |s| && Stable(s, ParseAtom(s).rest)
    ensures ParseAtom(s + "$") == Ok(ParseAtom(s).re, ParseAtom(s).rest + "$")
    decreases |s|, 0, 0
  {
    DropOneStable(s);
    GroupStable("", s[1..]);
    StableTrans(s, s[1..], ParseAtom(s).rest);
  }

  /** The head "(?P<name>" is read the same way in a longer text. */
  lemma NamedGroupHead(s: string)
    requires NAMED_GROUP <= s && 0 < IdRun(s[4..]) < |s| - 4
    ensures var n := IdRun(s[4..]);
            && IdRun((s + "$")[4..]) == n
            && (s + "$")[4..4 + n] == s[4..4 + n]
            && (s + "$")[5 + n..] == s[5 + n..] + "$"
  {
    assert (s + "$")[4..] == s[4..] + "$";
    IdRunStable(s[4..]);
  }

  /** The head "(?P<name>" holds no escape. */
  lemma NamedGroupHeadPlain(s: string)
    requires NAMED_GROUP <= s && 0 < IdRun(s[4..]) < |s| - 5
    requires s[4 + IdRun(s[4..])] == '>'
    ensures EndsEscaped(s) == EndsEscaped(s[5 + IdRun(s[4..])..])
  {
    var n := IdRun(s[4..]);
    forall i | 0 <= i < 5 + n ensures s[i] != '\\' {
      assert i < 4 ==> s[i] == NAMED_GROUP[i];
      assert 4 <= i < 4 + n ==> s[i] == s[4..][i - 4];
    }
    EndsEscapedFrom(s, 5 + n);
  }

  lemma {:induction false} IdRunStable(s: string)
    requires IdRun(s) < |s|
    ensures IdRun(s + "$") == IdRun(s)
  {
    if !IsIdChar(s[0]) {
    } else {
      IdRunStable(s[1..]);
      assert (s + "$")[1..] == s[1..] + "$";
    }
  }

  lemma {:induction false} GroupStable(name: string, s: string)
    requires ParseGroup(name, s).Ok?
    ensures s != "" && |ParseGroup(name, s).rest| < |s| && Stable(s, ParseGroup(name, s).rest)
    ensures s[|s| - 1] == ')' || ParseGroup(name, s).rest != ""
    ensures ParseGroup(name, s + "$") == Ok(ParseGroup(name, s).re, ParseGroup(name, s).rest + "$")
    decreases |s|, 4
  {
    AltStable(s);
    var rest := ParseAlt(s).rest;
    if rest[1..] != "" { EndsEscapedFrom(rest, 1); }
    assert (rest + "$")[1..] == rest[1..] + "$";
  }

  /** Removing one character that is no backslash keeps the ending. */
  lemma DropOneStable(s: string)
    requires s != "" && s[0] != '\\'
    ensures Stable(s, s[1..]) && (s + "$")[1..] == s[1..] + "$"
  {
    if s[1..] != "" { EndsEscapedFrom(s, 1); }
  }

  lemma StableTrans(a: string, b: string, c: string)
    requires Stable(a, b) && Stable(b, c)
    ensures Stable(a, c)
  {
  }

  /** The lazy mark after a quantifier, in a longer text. */
  lemma SkipLazyStable(s: string)
    ensures Stable(s, SkipLazy(s)) && SkipLazy(s + "$") == SkipLazy(s) + "$"
  {
    if s != "" && s[0] == '?' { DropOneStable(s); }
  }

  /** The part of a repetition after its atom, in a longer text. */
  lemma QuantifierStable(s: string)
    requires s != "" && IsQuantifier(s[0])
    ensures |SkipLazy(s[1..])| < |s| && Stable(s, SkipLazy(s[1..]))
    ensures SkipLazy((s + "$")[1..]) == SkipLazy(s[1..]) + "$"
  {
    DropOneStable(s);
    SkipLazyStable(s[1..]);
    StableTrans(s, s[1..], SkipLazy(s[1..]));
  }

  lemma {:induction false} RepStable(s: string)
    requires s != "" && ParseRep(s).Ok?
    ensures |ParseRep(s).rest| < |s| && Stable(s, ParseRep(s).rest)
    ensures ParseRep(s + "$") == Ok(ParseRep(s).re, ParseRep(s).rest + "$")
    decreases |s|, 1
  {
    AtomStable(s);
    var rest := ParseAtom(s).rest;
    if rest != "" && IsQuantifier(rest[0]) {
      QuantifierStable(rest);
      StableTrans(s, rest, SkipLazy(rest[1..]));
    }
  }

  lemma {:induction false} CatStable(s: string)
    requires ParseCat(s).Ok?
    ensures |ParseCat(s).rest| <= |s| && Stable(s, ParseCat(s).rest)
    ensures ParseCat(s).rest != "" ==>
              ParseCat(s + "$") == Ok(ParseCat(s).re, ParseCat(s).rest + "$")
    decreases |s|, 2
  {
    if s == "" || s[0] == '|' || s[0] == ')' {
    } else {
      RepStable(s);
      CatStable(ParseRep(s).rest);
    }
  }

  lemma {:induction false} AltStable(s: string)
    requires ParseAlt(s).Ok?
    ensures |ParseAlt(s).rest| <= |s| && Stable(s, ParseAlt(s).rest)
    ensures ParseAlt(s).rest != "" ==>
              ParseAlt(s + "$") == Ok(ParseAlt(s).re, ParseAlt(s).rest + "$")
    decreases |s|, 3
  {
    CatStable(s);
    var rest := ParseCat(s).rest;
    if rest == "" || rest[0] != '|' {
    } else {
      AltStable(rest[1..]);
      if rest[1..] != "" { EndsEscapedFrom(rest, 1); }
      assert (rest + "$")[1..] == rest[1..] + "$";
    }
  }

  // ---------------------------------------------------------------- reading with an anchor added

  /** A concatenation spine, as read by ParseCat: no top-level alternation. */
  ghost predicate IsSpine(r: Re) {
    r.Empty? || (r.Cat? && IsSpine(r.second))
  }

  /** A sequence of top-level branches, as read by ParseAlt. */
  ghost predicate IsTop(r: Re) {
    if r.Alt? then IsSpine(r.left) && IsTop(r.right) else IsSpine(r)
  }

  /** The expression with "^" put before its text. */
  function WithBegin(r: Re): Re {
    if r.Alt? then Alt(Cat(Begin, r.left), r.right) else Cat(Begin, r)
  }

  /** The expression with "$" put after its text. */
  function WithEnd(r: Re): Re {
    match r
    case Alt(a, b) => Alt(a, WithEnd(b))
    case Cat(a, b) => Cat(a, WithEnd(b))
    case _ => Cat(End, Empty)
  }

  lemma {:induction false} CatIsSpine(s: string)
    requires ParseCat(s).Ok?
    ensures IsSpine(ParseCat(s).re)
    decreases |s|
  {
    if s == "" || s[0] == '|' || s[0] == ')' {
    } else {
      CatIsSpine(ParseRep(s).rest);
    }
  }

  lemma {:induction false} AltIsTop(s: string)
    requires ParseAlt(s).Ok?
    ensures IsTop(ParseAlt(s).re)
    decreases |s|
  {
    CatIsSpine(s);
    var rest := ParseCat(s).rest;
    if rest == "" || rest[0] != '|' {
    } else {
      AltIsTop(rest[1..]);
    }
  }

  lemma CatWithBegin(s: string)
    requires ParseCat(s).Ok?
    ensures ParseCat("^" + s) == Ok(Cat(Begin, ParseCat(s).re), ParseCat(s).rest)
  {
    assert ("^" + s)[1..] == s;
    if s != "" && IsQuantifier(s[0]) {
      assert ParseAtom(s).Bad?;
      assert false;
    }
    assert ParseAtom("^" + s) == Ok(Begin, s);
  }

  lemma AltWithBegin(s: string)
    requires Compile(s).Some?
    ensures Compile("^" + s) == Some(WithBegin(Compile(s).value))
  {
    CatIsSpine(s);
    CatWithBegin(s);
  }

  lemma {:induction false} CatWithEnd(s: string)
    requires ParseCat(s).Ok? && ParseCat(s).rest == ""
    ensures ParseCat(s + "$") == Ok(WithEnd(ParseCat(s).re), "")
    decreases |s|
  {
    if s == "" {
      assert s + "$" == "$";
      assert ParseAtom("$") == Ok(End, "");
    } else {
      RepStable(s);
      CatWithEnd(ParseRep(s).rest);
    }
  }

  lemma {:induction false} AltWithEnd(s: string)
    requires Compile(s).Some?
    ensures Compile(s + "$") == Some(WithEnd(Compile(s).value))
    decreases |s|
  {
    CatIsSpine(s);
    CatStable(s);
    var rest := ParseCat(s).rest;
    if rest == "" {
      CatWithEnd(s);
    } else {
      AltWithEnd(rest[1..]);
      assert (rest + "$")[1..] == rest[1..] + "$";
    }
  }

  // ---------------------------------------------------------------- meaning of an added anchor

  lemma {:induction false} WithEndMeaning(r: Re, w: string, i: int, j: int)
    requires IsSpine(r)
    ensures Matches(WithEnd(r), w, i, j) <==> Matches(r, w, i, j) && j == |w|
  {
    if r.Cat? {
      forall k ensures Matches(WithEnd(r.second), w, k, j) <==> Matches(r.second, w, k, j) && j == |w| {
        WithEndMeaning(r.second, w, k, j);
      }
    } else if 0 <= i <= j <= |w| {
      assert Matches(Empty, w, j, j);
      assert i == j == |w| ==> Matches(End, w, i, j);
    }
  }

  lemma WithBeginMeaning(r: Re, w: string, i: int, j: int)
    ensures Matches(Cat(Begin, r), w, i, j) <==> Matches(r, w, i, j) && i == 0
  {
  }

  /** The last element of a spine is the end anchor. */
  ghost predicate LastIsEnd(r: Re) {
    r.Cat? && if r.second.Empty? then r.first.End? else LastIsEnd(r.second)
  }

  lemma {:induction false} LastIsEndMeaning(r: Re, w: string, i: int, j: int)
    requires LastIsEnd(r) && Matches(r, w, i, j)
    ensures j == |w|
  {
    var k :| Matches(r.first, w, i, k) && Matches(r.second, w, k, j);
    if r.second.Empty? {
    } else {
      LastIsEndMeaning(r.second, w, k, j);
    }
  }

  lemma {:induction false} TrailingDollarIsEnd(s: string)
    requires ParseCat(s).Ok? && ParseCat(s).rest == ""
    requires EndsWithDollar(s) && !EndsEscaped(s)
    ensures LastIsEnd(ParseCat(s).re)
    decreases |s|
  {
    RepStable(s);
    var rest := ParseRep(s).rest;
    if rest != "" {
      TrailingDollarIsEnd(rest);
      CatIsSpine(rest);
    } else {
      LastAtomIsEnd(s);
      assert ParseCat(rest) == Ok(Empty, "");
    }
  }

  /** A text that is one group ends in ")". */
  lemma LoneGroupEnd(s: string)
    requires s != "" && s[0] == '(' && ParseAtom(s).Ok? && ParseAtom(s).rest == ""
    ensures s[|s| - 1] == ')'
  {
    if NAMED_GROUP <= s {
      var n := IdRun(s[4..]);
      GroupStable(s[4..4 + n], s[5 + n..]);
    } else {
      GroupStable("", s[1..]);
    }
  }

  lemma LastAtomIsEnd(s: string)
    requires s != "" && ParseRep(s).Ok? && ParseRep(s).rest == ""
    requires EndsWithDollar(s) && !EndsEscaped(s)
    ensures ParseRep(s).re == End
  {
    AtomStable(s);
    if ParseAtom(s).rest == "" && s[0] == '(' { LoneGroupEnd(s); }
  }

  // ---------------------------------------------------------------- the anchoring theorems

  lemma Idempotent(pattern: string)
    ensures AnchorPattern(AnchorPattern(pattern)) == AnchorPattern(pattern)
  {
  }

  /** The first branch of a text that starts with a real "^". */
  lemma LeadingCaretIsBegin(s: string)
    requires ParseCat(s).Ok? && StartsWithCaret(s) && LeadingCaretReal(s)
    ensures ParseCat(s).re.Cat? && ParseCat(s).re.first == Begin
  {
    assert ParseAtom(s) == Ok(Begin, s[1..]);
  }

  function LastBranch(r: Re): Re {
    if r.Alt? then LastBranch(r.right) else r
  }

  /** The last branch of a text that ends in a real "$". */
  lemma {:induction false} TrailingDollarEndsLast(s: string)
    requires Compile(s).Some? && EndsWithDollar(s) && !EndsEscaped(s)
    ensures LastIsEnd(LastBranch(Compile(s).value))
    decreases |s|
  {
    CatIsSpine(s);
    CatStable(s);
    var rest := ParseCat(s).rest;
    if rest == "" {
      TrailingDollarIsEnd(s);
    } else {
      DropOneStable(rest);
      if rest == "|" {
        assert false;
      } else {
        TrailingDollarEndsLast(rest[1..]);
      }
    }
  }

  /** A search whose match must start at the start, or end at the end, or both. */
  ghost predicate PinnedSearch(r: Re, w: string, atStart: bool, atEnd: bool) {
    exists i, j :: Matches(r, w, i, j) && (atStart ==> i == 0) && (atEnd ==> j == |w|)
  }

  /** A search in which only the first branch may be pinned at the start, and only the last at the end. */
  ghost predicate Found(r: Re, w: string, atStart: bool, atEnd: bool) {
    if r.Alt? then PinnedSearch(r.left, w, atStart, false) || Found(r.right, w, false, atEnd)
    else PinnedSearch(r, w, atStart, atEnd)
  }

  lemma {:induction false} SearchIsFound(r: Re, w: string)
    ensures Search(r, w) <==> Found(r, w, false, false)
  {
    if r.Alt? {
      SearchIsFound(r.right, w);
      SearchAlt(r.left, r.right, w);
      assert Search(r.left, w) <==> PinnedSearch(r.left, w, false, false);
    } else {
      assert Search(r, w) <==> PinnedSearch(r, w, false, false);
    }
  }

  lemma SearchAlt(a: Re, b: Re, w: string)
    ensures Search(Alt(a, b), w) <==> Search(a, w) || Search(b, w)
  {
    forall i, j ensures Matches(Alt(a, b), w, i, j) <==> Matches(a, w, i, j) || Matches(b, w, i, j) {
      assert Matches(a, w, i, j) || Matches(b, w, i, j) ==> 0 <= i <= j <= |w|;
    }
  }

  lemma BeginPins(r: Re, w: string, atEnd: bool)
    ensures PinnedSearch(Cat(Begin, r), w, false, atEnd) <==> PinnedSearch(r, w, true, atEnd)
    ensures PinnedSearch(Cat(Begin, r), w, true, atEnd) <==> PinnedSearch(Cat(Begin, r), w, false, atEnd)
  {
    forall i, j ensures Matches(Cat(Begin, r), w, i, j) <==> Matches(r, w, i, j) && i == 0 {
      WithBeginMeaning(r, w, i, j);
    }
  }

  /** The start anchoring step: it pins the first branch, unless the text opens with a repeated "^". */
  lemma PinStart(t: string) returns (p: string, rp: Re)
    requires Compile(t).Some?
    ensures p == (if StartsWithCaret(t) then t else "^" + t)
    ensures Compile(p) == Some(rp) && IsTop(rp)
    ensures forall w, atEnd :: Found(rp, w, false, atEnd) <==> Found(Compile(t).value, w, LeadingCaretReal(t), atEnd)
    ensures TrailingDollarReal(p) <==> TrailingDollarReal(t)
  {
    var r := Compile(t).value;
    CatIsSpine(t);
    AltIsTop(t);
    var first := if r.Alt? then r.left else r;
    if StartsWithCaret(t) {
      p, rp := t, r;
      if LeadingCaretReal(t) {
        LeadingCaretIsBegin(t);
        forall w, atEnd ensures Found(r, w, false, atEnd) <==> Found(r, w, true, atEnd) {
          BeginPins(first.second, w, if r.Alt? then false else atEnd);
        }
      }
    } else {
      AltWithBegin(t);
      p, rp := "^" + t, WithBegin(r);
      forall w, atEnd ensures Found(rp, w, false, atEnd) <==> Found(r, w, true, atEnd) {
        BeginPins(first, w, if r.Alt? then false else atEnd);
      }
      if t != "" { EndsEscapedFrom(p, 1); assert p[1..] == t; }
    }
  }

  /** A "$" put after the text pins its last branch. */
  lemma {:induction false} EndPins(r: Re, w: string, atStart: bool)
    requires IsTop(r)
    ensures Found(WithEnd(r), w, atStart, false) <==> Found(r, w, atStart, true)
  {
    if r.Alt? {
      EndPins(r.right, w, false);
    } else {
      forall i, j ensures Matches(WithEnd(r), w, i, j) <==> Matches(r, w, i, j) && j == |w| {
        WithEndMeaning(r, w, i, j);
      }
      assert !WithEnd(r).Alt?;
    }
  }

  /** A last branch that ends in "$" is pinned as it is. */
  lemma {:induction false} LastEndPins(r: Re, w: string, atStart: bool)
    requires LastIsEnd(LastBranch(r))
    ensures Found(r, w, atStart, false) <==> Found(r, w, atStart, true)
  {
    if r.Alt? {
      LastEndPins(r.right, w, false);
    } else {
      forall i, j | Matches(r, w, i, j) ensures j == |w| { LastIsEndMeaning(r, w, i, j); }
    }
  }

  /** The end anchoring step: it pins the last branch, unless the text closes with an escaped "$". */
  lemma PinEnd(p: string) returns (q: string, rq: Re)
    requires Compile(p).Some?
    ensures q == (if EndsWithDollar(p) then p else p + "$")
    ensures Compile(q) == Some(rq)
    ensures forall w :: Search(rq, w) <==> Found(Compile(p).value, w, false, TrailingDollarReal(p))
  {
    var rp := Compile(p).value;
    AltIsTop(p);
    if EndsWithDollar(p) {
      q, rq := p, rp;
      if TrailingDollarReal(p) { TrailingDollarEndsLast(p); }
    } else {
      AltWithEnd(p);
      q, rq := p + "$", WithEnd(rp);
    }
    forall w ensures Search(rq, w) <==> Found(rp, w, false, TrailingDollarReal(p)) {
      SearchIsFound(rq, w);
      if !EndsWithDollar(p) {
        EndPins(rp, w, false);
      } else if TrailingDollarReal(p) {
        LastEndPins(rp, w, false);
      }
    }
  }

  /**
   What anchoring means for every text of the fragment, with any anchors and alternations of its own:
   a search with the anchored text is a search with the original whose first branch is pinned at the
   start, unless the text opens with a repeated "^", and whose last branch is pinned at the end,
   unless the text closes with an escaped "$".
   */
  lemma AnchoredMeaning(t: string) returns (anchored: Re)
    requires Compile(t).Some?
    ensures Compile(AnchorPattern(t)) == Some(anchored)
    ensures forall w :: Search(anchored, w) <==>
              Found(Compile(t).value, w, LeadingCaretReal(t), TrailingDollarReal(t))
  {
    var p, rp := PinStart(t);
    var q, rq := PinEnd(p);
    anchored := rq;
  }

  // ---------------------------------------------------------------- when it is whole-path matching

  predicate FirstIsBegin(r: Re) {
    r.Cat? && r.first.Begin?
  }

  /** Every branch after this one starts with "^". */
  ghost predicate LaterBegin(r: Re) {
    r.Alt? ==> FirstIsBegin(if r.right.Alt? then r.right.left else r.right) && LaterBegin(r.right)
  }

  /** Every branch before the last ends with "$". */
  ghost predicate EarlierEnd(r: Re) {
    r.Alt? ==> LastIsEnd(r.left) && EarlierEnd(r.right)
  }

  lemma {:induction false} InnerAnchorsSuffice(r: Re, w: string, atStart: bool)
    requires LaterBegin(r) && EarlierEnd(r)
    requires atStart || FirstIsBegin(if r.Alt? then r.left else r)
    ensures Found(r, w, atStart, true) <==> WholeMatch(r, w)
  {
    var first := if r.Alt? then r.left else r;
    forall i, j | Matches(first, w, i, j) && (atStart ==> i == 0) ensures i == 0 {
      if !atStart { WithBeginMeaning(first.second, w, i, j); }
    }
    if r.Alt? {
      InnerAnchorsSuffice(r.right, w, false);
      forall i, j | Matches(r.left, w, i, j) ensures j == |w| { LastIsEndMeaning(r.left, w, i, j); }
    }
  }

  /**
   With real outer anchors, and with every inner end of a top-level alternation anchored by the text
   itself, searching with the anchored text is matching the whole path.
   */
  lemma AnchoredIsWholeMatch(t: string) returns (anchored: Re)
    requires Compile(t).Some? && LeadingCaretReal(t) && TrailingDollarReal(t)
    requires LaterBegin(Compile(t).value) && EarlierEnd(Compile(t).value)
    ensures Compile(AnchorPattern(t)) == Some(anchored)
    ensures forall w :: Search(anchored, w) <==> WholeMatch(Compile(t).value, w)
  {
    anchored := AnchoredMeaning(t);
    forall w ensures Search(anchored, w) <==> WholeMatch(Compile(t).value, w) {
      InnerAnchorsSuffice(Compile(t).value, w, true);
    }
  }
}
