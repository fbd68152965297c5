/**
 The fragment of Go's regular expressions that the mapping client emits or anchors: its concrete
 syntax (a recursive-descent reader of regex text) and its meaning (which span of a subject text an
 expression matches).  Class syntax other than "[^/]", counted repetition and flags are outside it.
 */
module Regex {
  import opened Wrappers

  datatype Re =
    | Empty
    | Char(c: char)
    | Any                             // "."
    | NotSlash                        // "[^/]"
    | Begin                           // "^"
    | End                             // "$"
    | Cat(first: Re, second: Re)
    | Alt(left: Re, right: Re)
    | Star(body: Re)
    | Plus(body: Re)
    | Opt(body: Re)
    | Group(name: string, body: Re)

  // ---------------------------------------------------------------- characters

  /** The characters that have a syntactic meaning, all of which regexp.QuoteMeta escapes. */
  predicate IsMeta(c: char) {
    || c == '\\' || c == '.' || c == '+' || c == '*' || c == '?' || c == '(' || c == ')'
    || c == '|' || c == '[' || c == ']' || c == '{' || c == '}' || c == '^' || c == '$'
  }

  predicate IsQuantifier(c: char) {
    c == '*' || c == '+' || c == '?'
  }

  predicate IsIdStart(c: char) {
    'A' <= c <= 'Z' || 'a' <= c <= 'z' || c == '_'
  }

  predicate IsIdChar(c: char) {
    IsIdStart(c) || '0' <= c <= '9'
  }

  /** The length of the longest prefix of identifier characters. */
  function IdRun(s: string): (n: nat)
    ensures n <= |s|
    ensures forall i :: 0 <= i < n ==> IsIdChar(s[i])
    ensures n < |s| ==> !IsIdChar(s[n])
  {
    if s == "" || !IsIdChar(s[0]) then 0 else 1 + IdRun(s[1..])
  }

  // ---------------------------------------------------------------- reading regex text

  datatype Parse = Bad | Ok(re: Re, rest: string)

  const NOT_SLASH := "[^/]"
  const NAMED_GROUP := "(?P<"

  function ParseAlt(s: string): (p: Parse)
    ensures p.Ok? ==> |p.rest| <= |s|
    decreases |s|, 3
  {
    match ParseCat(s)
    case Bad => Bad
    case Ok(l, rest) =>
      if rest == "" || rest[0] != '|' then Ok(l, rest)
      else
        match ParseAlt(rest[1..])
        case Bad => Bad
        case Ok(r, rest') => Ok(Alt(l, r), rest')
  }

  function ParseCat(s: string): (p: Parse)
    ensures p.Ok? ==> |p.rest| <= |s|
    decreases |s|, 2
  {
    if s == "" || s[0] == '|' || s[0] == ')' then Ok(Empty, s)
    else
      match ParseRep(s)
      case Bad => Bad
      case Ok(l, rest) =>
        match ParseCat(rest)
        case Bad => Bad
        case Ok(r, rest') => Ok(Cat(l, r), rest')
  }

  function ParseRep(s: string): (p: Parse)
    requires s != ""
    ensures p.Ok? ==> |p.rest| < |s|
    decreases |s|, 1
  {
    match ParseAtom(s)
    case Bad => Bad
    case Ok(a, rest) =>
      if rest == "" || !IsQuantifier(rest[0]) then Ok(a, rest)
      else Ok(Quantify(a, rest[0]), SkipLazy(rest[1..]))
  }

  function Quantify(a: Re, q: char): Re
    requires IsQuantifier(q)
  {
    if q == '*' then Star(a) else if q == '+' then Plus(a) else Opt(a)
  }

  /** A "?" after a quantifier only changes which match is preferred. */
  function SkipLazy(s: string): (r: string) {
    if s != "" && s[0] == '?' then s[1..] else s
  }

  function ParseAtom(s: string): (p: Parse)
    requires s != ""
    ensures p.Ok? ==> |p.rest| < |s|
    decreases |s|, 0
  {
    if s[0] == '.' then Ok(Any, s[1..])
    else if s[0] == '^' then Ok(Begin, s[1..])
    else if s[0] == '$' then Ok(End, s[1..])
    else if s[0] == '[' then
      if NOT_SLASH <= s then Ok(NotSlash, s[4..]) else Bad
    else if s[0] == '\\' then
      if |s| >= 2 && IsMeta(s[1]) then Ok(Char(s[1]), s[2..]) else Bad
    else if s[0] == '(' then
      if NAMED_GROUP <= s then
        var n := IdRun(s[4..]);
        if 0 < n < |s| - 4 && s[4 + n] == '>' then ParseGroup(s[4..4 + n], s[5 + n..]) else Bad
      else if |s| >= 2 && s[1] == '?' then Bad
      else ParseGroup("", s[1..])
    else if IsQuantifier(s[0]) || s[0] == '{' || s[0] == ')' || s[0] == '|' then Bad
    else Ok(Char(s[0]), s[1..])
  }

  function ParseGroup(name: string, s: string): (p: Parse)
    ensures p.Ok? ==> |p.rest| < |s|
    decreases |s|, 4
  {
    match ParseAlt(s)
    case Bad => Bad
    case Ok(r, rest) =>
      if rest != "" && rest[0] == ')' then Ok(Group(name, r), rest[1..]) else Bad
  }

  /** regexp.Compile on the fragment: the whole text must be read. */
  function Compile(s: string): (r: Option<Re>) {
    match ParseAlt(s)
    case Bad => None
    case Ok(r, rest) => if rest == "" then Some(r) else None
  }

  // ---------------------------------------------------------------- meaning

  /** r matches exactly the span w[i..j] of the subject w. */
  ghost predicate Matches(r: Re, w: string, i: int, j: int)
    decreases r, 0
  {
    && 0 <= i <= j <= |w|
    && match r
       case Empty => i == j
       case Char(c) => j == i + 1 && w[i] == c
       case Any => j == i + 1 && w[i] != '\n'
       case NotSlash => j == i + 1 && w[i] != '/'
       case Begin => i == j == 0
       case End => i == j == |w|
       case Cat(a, b) => exists k :: Matches(a, w, i, k) && Matches(b, w, k, j)
       case Alt(a, b) => Matches(a, w, i, j) || Matches(b, w, i, j)
       case Star(a) => Iterates(a, w, i, j)
       case Plus(a) => exists k :: Matches(a, w, i, k) && Iterates(a, w, k, j)
       case Opt(a) => i == j || Matches(a, w, i, j)
       case Group(_, a) => Matches(a, w, i, j)
  }

  /** Zero or more matches of a in a row; empty ones add nothing and are left out. */
  ghost predicate Iterates(a: Re, w: string, i: int, j: int)
    decreases a, if i <= j then j - i + 1 else 1
  {
    0 <= i <= j <= |w| &&
    (i == j || exists k :: i < k <= j && Matches(a, w, i, k) && Iterates(a, w, k, j))
  }

  /** Regexp.MatchString: some span of w matches. */
  ghost predicate Search(r: Re, w: string) {
    exists i, j :: Matches(r, w, i, j)
  }

  /** Matching of the whole subject. */
  ghost predicate WholeMatch(r: Re, w: string) {
    Matches(r, w, 0, |w|)
  }
}
