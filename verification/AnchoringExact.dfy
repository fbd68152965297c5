/**
 When anchoring keeps its promise.  For texts whose branches hold anchors at their two ends only, and
 none of whose repetitions can match every character, searching with the anchored text is whole-path
 matching if and only if every branch is anchored, by the text or by the anchoring step.
 */
module AnchoringExact {
  import opened Wrappers
  import opened Regex
  import opened Pattern
  import opened Anchoring

  // ---------------------------------------------------------------- expressions without anchors

  predicate AnchorFree(r: Re) {
    match r
    case Begin => false
    case End => false
    case Cat(a, b) => AnchorFree(a) && AnchorFree(b)
    case Alt(a, b) => AnchorFree(a) && AnchorFree(b)
    case Star(a) => AnchorFree(a)
    case Plus(a) => AnchorFree(a)
    case Opt(a) => AnchorFree(a)
    case Group(_, a) => AnchorFree(a)
    case _ => true
  }

  /** Some text an expression matches. */
  function Word(r: Re): string {
    match r
    case Char(c) => [c]
    case Any => "/"
    case NotSlash => "a"
    case Cat(a, b) => Word(a) + Word(b)
    case Alt(a, _) => Word(a)
    case Plus(a) => Word(a)
    case Group(_, a) => Word(a)
    case _ => ""
  }

  /** Without anchors, what an expression matches does not depend on what surrounds it. */
  lemma {:induction false} WordFits(r: Re, x: string, y: string)
    requires AnchorFree(r)
    ensures Matches(r, x + Word(r) + y, |x|, |x| + |Word(r)|)
  {
    var w := x + Word(r) + y;
    match r
    case Cat(a, b) =>
      assert w == x + Word(a) + (Word(b) + y) == (x + Word(a)) + Word(b) + y;
      WordFits(a, x, Word(b) + y);
      WordFits(b, x + Word(a), y);
      assert |x + Word(a)| == |x| + |Word(a)|;
    case Alt(a, _) => WordFits(a, x, y);
    case Plus(a) =>
      WordFits(a, x, y);
      assert Iterates(a, w, |x| + |Word(a)|, |x| + |Word(a)|);
    case Group(_, a) => WordFits(a, x, y);
    case Star(a) => assert Iterates(a, w, |x|, |x|);
    case Char(c) => assert w[|x|] == c;
    case Any => assert w[|x|] == '/';
    case NotSlash => assert w[|x|] == 'a';
    case _ =>
  }

  // ---------------------------------------------------------------- characters a repetition leaves out

  /** Nothing in the expression matches the character c. */
  predicate LeavesOut(r: Re, c: char) {
    match r
    case Char(d) => d != c
    case Any => c == '\n'
    case NotSlash => c == '/'
    case Cat(a, b) => LeavesOut(a, c) && LeavesOut(b, c)
    case Alt(a, b) => LeavesOut(a, c) && LeavesOut(b, c)
    case Star(a) => LeavesOut(a, c)
    case Plus(a) => LeavesOut(a, c)
    case Opt(a) => LeavesOut(a, c)
    case Group(_, a) => LeavesOut(a, c)
    case _ => true
  }

  ghost predicate Without(w: string, i: int, j: int, c: char) {
    0 <= i <= j <= |w| && forall k | i <= k < j :: w[k] != c
  }

  lemma {:induction false} LeftOut(r: Re, c: char, w: string, i: int, j: int)
    requires LeavesOut(r, c) && Matches(r, w, i, j)
    ensures Without(w, i, j, c)
    decreases r, 0
  {
    match r
    case Cat(a, b) =>
      var k :| Matches(a, w, i, k) && Matches(b, w, k, j);
      LeftOut(a, c, w, i, k);
      LeftOut(b, c, w, k, j);
    case Alt(a, b) => if Matches(a, w, i, j) { LeftOut(a, c, w, i, j); } else { LeftOut(b, c, w, i, j); }
    case Star(a) => LeftOutOften(a, c, w, i, j);
    case Plus(a) =>
      var k :| Matches(a, w, i, k) && Iterates(a, w, k, j);
      LeftOut(a, c, w, i, k);
      LeftOutOften(a, c, w, k, j);
    case Opt(a) => if i != j { LeftOut(a, c, w, i, j); }
    case Group(_, a) => LeftOut(a, c, w, i, j);
    case _ =>
  }

  lemma {:induction false} LeftOutOften(a: Re, c: char, w: string, i: int, j: int)
    requires LeavesOut(a, c) && Iterates(a, w, i, j)
    ensures Without(w, i, j, c)
    decreases a, j - i + 1
  {
    if i == j {
    } else {
      var k :| i < k <= j && Matches(a, w, i, k) && Iterates(a, w, k, j);
      LeftOut(a, c, w, i, k);
      LeftOutOften(a, c, w, k, j);
    }
  }

  /** Every repetition in the expression leaves out some character, as the wildcards ".*" and "[^/]+" do. */
  ghost predicate Spares(r: Re) {
    match r
    case Cat(a, b) => Spares(a) && Spares(b)
    case Alt(a, b) => Spares(a) && Spares(b)
    case Star(a) => exists c :: LeavesOut(a, c)
    case Plus(a) => exists c :: LeavesOut(a, c)
    case Opt(a) => Spares(a)
    case Group(_, a) => Spares(a)
    case _ => true
  }

  /** Every repetition in the expression leaves out one of these characters. */
  predicate SparesOneOf(r: Re, zs: string) {
    match r
    case Cat(a, b) => SparesOneOf(a, zs) && SparesOneOf(b, zs)
    case Alt(a, b) => SparesOneOf(a, zs) && SparesOneOf(b, zs)
    case Star(a) => exists i | 0 <= i < |zs| :: LeavesOut(a, zs[i])
    case Plus(a) => exists i | 0 <= i < |zs| :: LeavesOut(a, zs[i])
    case Opt(a) => SparesOneOf(a, zs)
    case Group(_, a) => SparesOneOf(a, zs)
    case _ => true
  }

  lemma {:induction false} SparesMore(r: Re, zs: string, more: string)
    requires SparesOneOf(r, zs)
    ensures SparesOneOf(r, zs + more) && SparesOneOf(r, more + zs)
  {
    match r
    case Cat(a, b) =>
      SparesMore(a, zs, more);
      SparesMore(b, zs, more);
    case Alt(a, b) =>
      SparesMore(a, zs, more);
      SparesMore(b, zs, more);
    case Star(a) => LeavesOutMore(a, zs, more);
    case Plus(a) => LeavesOutMore(a, zs, more);
    case Opt(a) => SparesMore(a, zs, more);
    case Group(_, a) => SparesMore(a, zs, more);
    case _ =>
  }

  lemma LeavesOutMore(a: Re, zs: string, more: string)
    requires exists i | 0 <= i < |zs| :: LeavesOut(a, zs[i])
    ensures exists i | 0 <= i < |zs + more| :: LeavesOut(a, (zs + more)[i])
    ensures exists i | 0 <= i < |more + zs| :: LeavesOut(a, (more + zs)[i])
  {
    var i :| 0 <= i < |zs| && LeavesOut(a, zs[i]);
    assert (zs + more)[i] == zs[i] && (more + zs)[|more| + i] == zs[i];
  }

  lemma {:induction false} SparedCharacters(r: Re) returns (zs: string)
    requires Spares(r)
    ensures zs != "" && SparesOneOf(r, zs)
  {
    match r {
      case Cat(a, b) =>
        var xs := SparedCharacters(a);
        var ys := SparedCharacters(b);
        SparesMore(a, xs, ys);
        SparesMore(b, ys, xs);
        zs := xs + ys;
      case Alt(a, b) =>
        var xs := SparedCharacters(a);
        var ys := SparedCharacters(b);
        SparesMore(a, xs, ys);
        SparesMore(b, ys, xs);
        zs := xs + ys;
      case Star(a) =>
        var c :| LeavesOut(a, c);
        zs := [c];
        assert LeavesOut(a, zs[0]);
      case Plus(a) =>
        var c :| LeavesOut(a, c);
        zs := [c];
        assert LeavesOut(a, zs[0]);
      case Opt(a) => zs := SparedCharacters(a);
      case Group(_, a) => zs := SparedCharacters(a);
      case _ => zs := "/";
    }
  }

  /** Every repetition is of one character or one of the wildcards "." and "[^/]". */
  predicate RepeatsOneChar(r: Re) {
    match r
    case Cat(a, b) => RepeatsOneChar(a) && RepeatsOneChar(b)
    case Alt(a, b) => RepeatsOneChar(a) && RepeatsOneChar(b)
    case Star(a) => a.Char? || a.Any? || a.NotSlash?
    case Plus(a) => a.Char? || a.Any? || a.NotSlash?
    case Opt(a) => RepeatsOneChar(a)
    case Group(_, a) => RepeatsOneChar(a)
    case _ => true
  }

  lemma {:induction false} OneCharSpares(r: Re)
    requires RepeatsOneChar(r)
    ensures Spares(r)
  {
    match r
    case Cat(a, b) =>
      OneCharSpares(a);
      OneCharSpares(b);
    case Alt(a, b) =>
      OneCharSpares(a);
      OneCharSpares(b);
    case Star(a) => assert LeavesOut(a, '/') || LeavesOut(a, '\n');
    case Plus(a) => assert LeavesOut(a, '/') || LeavesOut(a, '\n');
    case Opt(a) => OneCharSpares(a);
    case Group(_, a) => OneCharSpares(a);
    case _ =>
  }

  // ---------------------------------------------------------------- texts too varied to be matched

  /** In w[lo..hi], every |zs| characters in a row hold every character of zs. */
  ghost predicate Dense(w: string, lo: int, hi: int, zs: string) {
    && 0 <= lo <= hi <= |w|
    && forall s, e, i | lo <= s && e == s + |zs| <= hi && 0 <= i < |zs| :: !Without(w, s, e, zs[i])
  }

  /** How many characters of such a stretch an expression covers at most. */
  function Reach(r: Re, m: nat): nat {
    match r
    case Char(_) => 1
    case Any => 1
    case NotSlash => 1
    case Cat(a, b) => Reach(a, m) + Reach(b, m)
    case Alt(a, b) => Reach(a, m) + Reach(b, m)
    case Star(_) => m
    case Plus(_) => m
    case Opt(a) => Reach(a, m)
    case Group(_, a) => Reach(a, m)
    case _ => 0
  }

  function Max(a: int, b: int): int {
    if a < b then b else a
  }

  function Min(a: int, b: int): int {
    if a < b then a else b
  }

  /** How much of the stretch lo..hi the span i..j covers. */
  function Overlap(i: int, j: int, lo: int, hi: int): int {
    Max(0, Min(j, hi) - Max(i, lo))
  }

  lemma RepetitionReach(a: Re, w: string, i: int, j: int, lo: int, hi: int, zs: string)
    requires exists k | 0 <= k < |zs| :: LeavesOut(a, zs[k])
    requires Dense(w, lo, hi, zs) && (Matches(Star(a), w, i, j) || Matches(Plus(a), w, i, j))
    ensures Overlap(i, j, lo, hi) <= |zs|
  {
    var k :| 0 <= k < |zs| && LeavesOut(a, zs[k]);
    LeftOut(if Matches(Star(a), w, i, j) then Star(a) else Plus(a), zs[k], w, i, j);
    var s := Max(i, lo);
    assert s + |zs| <= Min(j, hi) ==> Without(w, s, s + |zs|, zs[k]);
  }

  lemma {:induction false} ReachHolds(r: Re, w: string, i: int, j: int, lo: int, hi: int, zs: string)
    requires SparesOneOf(r, zs) && Dense(w, lo, hi, zs) && Matches(r, w, i, j)
    ensures Overlap(i, j, lo, hi) <= Reach(r, |zs|)
  {
    match r
    case Cat(a, b) =>
      var k :| Matches(a, w, i, k) && Matches(b, w, k, j);
      ReachHolds(a, w, i, k, lo, hi, zs);
      ReachHolds(b, w, k, j, lo, hi, zs);
    case Alt(a, b) =>
      if Matches(a, w, i, j) { ReachHolds(a, w, i, j, lo, hi, zs); } else { ReachHolds(b, w, i, j, lo, hi, zs); }
    case Star(a) => RepetitionReach(a, w, i, j, lo, hi, zs);
    case Plus(a) => RepetitionReach(a, w, i, j, lo, hi, zs);
    case Opt(a) => if i != j { ReachHolds(a, w, i, j, lo, hi, zs); }
    case Group(_, a) => ReachHolds(a, w, i, j, lo, hi, zs);
    case _ =>
  }

  /** Where x is in the round of m it falls in. */
  function InRound(x: nat, m: nat): (r: nat)
    requires m > 0
    ensures r < m
  {
    if x < m then x else InRound(x - m, m)
  }

  /** The characters of zs round and round. */
  function Rounds(zs: string, n: nat): (s: string)
    requires zs != ""
    ensures |s| == n && forall i | 0 <= i < n :: s[i] == zs[InRound(i, |zs|)]
  {
    seq(n, i requires 0 <= i => zs[InRound(i, |zs|)])
  }

  /** Every place in a round is met in m steps. */
  lemma {:induction false} NextInRound(s: nat, t: nat, m: nat) returns (k: nat)
    requires t < m
    ensures s <= k < s + m && InRound(k, m) == t
  {
    if s < m {
      k := if s <= t then t else m + t;
    } else {
      k := NextInRound(s - m, t, m);
      k := k + m;
    }
  }

  lemma RoundsAreDense(w: string, lo: int, zs: string, n: nat)
    requires zs != "" && 0 <= lo <= lo + n <= |w| && w[lo..lo + n] == Rounds(zs, n)
    ensures Dense(w, lo, lo + n, zs)
  {
    forall s, e, i | lo <= s && e == s + |zs| <= lo + n && 0 <= i < |zs| ensures !Without(w, s, e, zs[i]) {
      var k := NextInRound(s - lo, i, |zs|);
      assert w[lo + k] == w[lo..lo + n][k] == zs[i];
    }
  }

  /** A subject that goes round the spared characters for too long is not matched whole. */
  lemma TooLong(r: Re, w: string, lo: int, zs: string, n: nat)
    requires zs != "" && SparesOneOf(r, zs) && n > Reach(r, |zs|)
    requires 0 <= lo <= lo + n <= |w| && w[lo..lo + n] == Rounds(zs, n)
    ensures !WholeMatch(r, w)
  {
    RoundsAreDense(w, lo, zs, n);
    if WholeMatch(r, w) {
      ReachHolds(r, w, 0, |w|, lo, lo + n, zs);
      assert false;
    }
  }

  // ---------------------------------------------------------------- branches with anchors at their ends

  /** A spine that holds anchors only as a last "$". */
  predicate EndOnly(r: Re) {
    || r.Empty?
    || (r.Cat? && (AnchorFree(r.first) || (r.first.End? && r.second.Empty?)) && EndOnly(r.second))
  }

  /** A branch that holds anchors only as a first "^" and a last "$". */
  predicate EndsOnly(r: Re) {
    EndOnly(if FirstIsBegin(r) then r.second else r)
  }

  predicate AllEndsOnly(r: Re) {
    if r.Alt? then EndsOnly(r.left) && AllEndsOnly(r.right) else EndsOnly(r)
  }

  /** Such a branch matches its word after anything, and before anything unless it ends in "$". */
  lemma {:induction false} EndOnlyFits(r: Re, x: string, y: string)
    requires EndOnly(r) && (LastIsEnd(r) ==> y == "")
    ensures Matches(r, x + Word(r) + y, |x|, |x| + |Word(r)|)
  {
    if r.Empty? {
    } else {
      var v, rest := Word(r.first), Word(r.second);
      assert x + Word(r) + y == x + v + (rest + y) == (x + v) + rest + y;
      EndOnlyFits(r.second, x + v, y);
      assert |x + v| == |x| + |v|;
      if AnchorFree(r.first) {
        WordFits(r.first, x, rest + y);
      } else {
        assert v == "" && rest == "" && y == "";
      }
    }
  }

  lemma BranchFits(r: Re, x: string, y: string)
    requires EndsOnly(r) && (LastIsEnd(r) ==> y == "") && (FirstIsBegin(r) ==> x == "")
    ensures Matches(r, x + Word(r) + y, |x|, |x| + |Word(r)|)
  {
    if FirstIsBegin(r) {
      assert Word(r) == Word(r.second);
      EndOnlyFits(r.second, x, y);
      assert Matches(Begin, x + Word(r) + y, 0, 0);
    } else {
      EndOnlyFits(r, x, y);
    }
  }

  // ---------------------------------------------------------------- loose ends found in longer paths

  /** A branch before the last without its "$" is found in a path that goes on after it. */
  lemma {:induction false} EarlierLoose(r: Re, u: string, atStart: bool, atEnd: bool) returns (w: string)
    requires AllEndsOnly(r) && !EarlierEnd(r)
    ensures Found(r, w, atStart, atEnd) && |u| <= |w| && w[|w| - |u|..] == u
  {
    if LastIsEnd(r.left) {
      w := EarlierLoose(r.right, u, false, atEnd);
    } else {
      w := "" + Word(r.left) + u;
      BranchFits(r.left, "", u);
    }
  }

  /** A branch after the first without its "^" is found in a path that has something before it. */
  lemma {:induction false} LaterLoose(r: Re, u: string, atStart: bool, atEnd: bool) returns (w: string)
    requires AllEndsOnly(r) && !LaterBegin(r)
    ensures Found(r, w, atStart, atEnd) && |u| <= |w| && w[..|u|] == u
  {
    var next := if r.right.Alt? then r.right.left else r.right;
    if FirstIsBegin(next) {
      w := LaterLoose(r.right, u, false, atEnd);
    } else {
      w := u + Word(next) + "";
      BranchFits(next, u, "");
      assert PinnedSearch(next, w, false, atEnd);
    }
  }

  /** So is a last branch that has no "$" and gets none. */
  lemma {:induction false} LastLoose(r: Re, u: string, atStart: bool) returns (w: string)
    requires AllEndsOnly(r) && !LastIsEnd(LastBranch(r))
    ensures Found(r, w, atStart, false) && |u| <= |w| && w[|w| - |u|..] == u
  {
    if r.Alt? {
      w := LastLoose(r.right, u, false);
    } else {
      w := "" + Word(r) + u;
      BranchFits(r, "", u);
    }
  }

  // ---------------------------------------------------------------- escaped and repeated anchors

  lemma LastAtomIsNoEnd(s: string)
    requires |s| > 1 && ParseRep(s).Ok? && ParseRep(s).rest == ""
    ensures ParseRep(s).re != End
  {
    if s[0] == '$' {
      assert ParseAtom(s) == Ok(End, s[1..]);
    } else if s[0] == '(' {
      assert ParseAtom(s).re.Group?;
    }
  }

  /** A branch whose text ends in an escaped character does not end in "$". */
  lemma {:induction false} EscapedIsNoEnd(s: string)
    requires ParseCat(s).Ok? && ParseCat(s).rest == "" && EndsEscaped(s)
    ensures !LastIsEnd(ParseCat(s).re)
    decreases |s|
  {
    RepStable(s);
    var rest := ParseRep(s).rest;
    if rest == "" {
      assert ParseCat(rest) == Ok(Empty, "");
      LastAtomIsNoEnd(s);
    } else {
      EscapedIsNoEnd(rest);
    }
  }

  lemma {:induction false} EscapedIsNoLastEnd(s: string)
    requires Compile(s).Some? && EndsEscaped(s)
    ensures !LastIsEnd(LastBranch(Compile(s).value))
    decreases |s|
  {
    CatIsSpine(s);
    CatStable(s);
    var rest := ParseCat(s).rest;
    if rest == "" {
      EscapedIsNoEnd(s);
    } else {
      DropOneStable(rest);
      EscapedIsNoLastEnd(rest[1..]);
    }
  }

  /** A repeated "^" is an anchor inside its branch. */
  lemma RepeatedCaretIsInside(s: string)
    requires Compile(s).Some? && !LeadingCaretReal(s)
    ensures !AllEndsOnly(Compile(s).value)
  {
    CatIsSpine(s);
    assert ParseAtom(s) == Ok(Begin, s[1..]);
    assert ParseRep(s).re == Quantify(Begin, s[1]) by { assert s[1..][0] == s[1]; }
    assert !AnchorFree(Quantify(Begin, s[1]));
  }

  // ---------------------------------------------------------------- the exact condition

  /** Every branch is anchored at both ends, by the text itself or by the anchoring step. */
  ghost predicate FullyAnchored(t: string, r: Re) {
    LaterBegin(r) && EarlierEnd(r) && TrailingDollarReal(t)
  }

  /**
   The exact condition for anchoring to keep its promise.  A text with anchors only at the ends of its
   branches, and none of whose repetitions can match every character, is searched for as a whole path
   after anchoring if and only if the inner ends of its top-level alternation carry their own anchors and
   it does not close with an escaped "$".
   */
  lemma WholeMatchIffFullyAnchored(t: string) returns (anchored: Re)
    requires Compile(t).Some? && AllEndsOnly(Compile(t).value) && Spares(Compile(t).value)
    ensures Compile(AnchorPattern(t)) == Some(anchored)
    ensures (forall w :: Search(anchored, w) <==> WholeMatch(Compile(t).value, w))
       <==> FullyAnchored(t, Compile(t).value)
  {
    var r := Compile(t).value;
    if !LeadingCaretReal(t) { RepeatedCaretIsInside(t); }
    anchored := AnchoredMeaning(t);
    if FullyAnchored(t, r) {
      var same := AnchoredIsWholeMatch(t);
    } else {
      var zs := SparedCharacters(r);
      var w := LooseEnd(t, r, zs, Reach(r, |zs|) + 1);
      assert Search(anchored, w) && !WholeMatch(r, w);
    }
  }

  /** A path the anchored text finds, although the text does not match it whole. */
  lemma LooseEnd(t: string, r: Re, zs: string, n: nat) returns (w: string)
    requires Compile(t) == Some(r) && AllEndsOnly(r) && zs != "" && SparesOneOf(r, zs) && n > Reach(r, |zs|)
    requires !FullyAnchored(t, r)
    ensures Found(r, w, true, TrailingDollarReal(t)) && !WholeMatch(r, w)
  {
    var u := Rounds(zs, n);
    if !LaterBegin(r) {
      w := LaterLoose(r, u, true, TrailingDollarReal(t));
      TooLong(r, w, 0, zs, n);
    } else if !EarlierEnd(r) {
      w := EarlierLoose(r, u, true, TrailingDollarReal(t));
      TooLong(r, w, |w| - n, zs, n);
    } else {
      EscapedIsNoLastEnd(t);
      w := LastLoose(r, u, true);
      TooLong(r, w, |w| - n, zs, n);
    }
  }

  // ---------------------------------------------------------------- instances

  /** What the text "a|b" reads as. */
  const TWO_LETTERS := Alt(Cat(Char('a'), Empty), Cat(Char('b'), Empty))

  lemma ReadsAlternation()
    ensures Compile("a|b") == Some(TWO_LETTERS)
  {
    ReadsOneChar('a', "|b");
    ReadsOneChar('b', "");
    assert ['a'] + "|b" == "a|b" && ['b'] + "" == "b" && "|b"[1..] == "b";
  }

  /** A plain character before the end of a branch is a branch of its own. */
  lemma ReadsOneChar(c: char, rest: string)
    requires !IsMeta(c) && (rest == "" || rest[0] == '|')
    ensures ParseCat([c] + rest) == Ok(Cat(Char(c), Empty), rest)
  {
    assert ([c] + rest)[1..] == rest;
    assert ParseAtom([c] + rest) == Ok(Char(c), rest);
    assert ParseRep([c] + rest) == Ok(Char(c), rest);
    assert ParseCat(rest) == Ok(Empty, rest);
  }

  /**
   Such a match_regex is not anchored as promised: it accepts every path that starts with "a", such as "ax",
   though the text matches no such path whole but "a".
   */
  lemma AlternationIsNotAnchored(t: string, w: string) returns (anchored: Re)
    requires Compile(t) == Some(TWO_LETTERS) && |w| > 1 && w[0] == 'a'
    ensures Compile(AnchorPattern(t)) == Some(anchored)
    ensures Search(anchored, w) && !WholeMatch(TWO_LETTERS, w)
  {
    anchored := AnchoredMeaning(t);
    assert Matches(Char('a'), w, 0, 1) && Matches(Empty, w, 1, 1);
    assert Matches(TWO_LETTERS.left, w, 0, 1);
  }
}
