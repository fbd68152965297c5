/**
 The path-pattern compiler: a glob-like path_pattern becomes regex text by quoting, three textual
 rewrites and an anchoring step.  The glob meaning of a pattern is given separately, on its tokens.
 */
module Pattern {
  import opened Wrappers
  import opened Regex

  // ---------------------------------------------------------------- the compiler

  function QuoteChar(c: char): string {
    if IsMeta(c) then ['\\', c] else [c]
  }

  /** regexp.QuoteMeta */
  function QuoteMeta(s: string): string {
    if s == "" then "" else QuoteChar(s[0]) + QuoteMeta(s[1..])
  }

  /** strings.ReplaceAll with a non-empty old text: leftmost, non-overlapping. */
  function ReplaceAll(s: string, from: string, to: string): string
    requires from != ""
  {
    if s == "" then ""
    else if from <= s then to + ReplaceAll(s[|from|..], from, to)
    else [s[0]] + ReplaceAll(s[1..], from, to)
  }

  /** Does the text start with a ":name" parameter? */
  predicate StartsParam(s: string) {
    |s| >= 2 && s[0] == ':' && IsIdStart(s[1])
  }

  /** What replaces a parameter: the template "(?P<$1>[^/]+)" with the name filled in. */
  function ParamGroup(name: string): string {
    "(?P<" + (name + ">[^/]+)")
  }

  /** paramSegment.ReplaceAllString */
  function RewriteParams(s: string): string {
    if s == "" then ""
    else if StartsParam(s) then
      var n := IdRun(s[1..]);
      ParamGroup(s[1..1 + n]) + RewriteParams(s[1 + n..])
    else [s[0]] + RewriteParams(s[1..])
  }

  const STAR := "\\*"
  const STAR_STAR := "\\*\\*"

  /** The quoting and the three rewrites, before anchoring. */
  function Escape(pathPattern: string): string {
    var escaped := QuoteMeta(pathPattern);
    var params := RewriteParams(escaped);
    var wide := ReplaceAll(params, STAR_STAR, ".*");
    ReplaceAll(wide, STAR, "[^/]*")
  }

  predicate StartsWithCaret(s: string) {
    s != "" && s[0] == '^'
  }

  predicate EndsWithDollar(s: string) {
    s != "" && s[|s| - 1] == '$'
  }

  function AnchorPattern(pattern: string): string {
    var p := if StartsWithCaret(pattern) then pattern else "^" + pattern;
    if EndsWithDollar(p) then p else p + "$"
  }

  /** A pattern holding both parentheses is taken for a hand-written regex. */
  predicate IsRaw(pathPattern: string) {
    '(' in pathPattern && ')' in pathPattern
  }

  function PathPatternToRegex(pathPattern: string, compiles: string -> bool): Result<string> {
    if IsRaw(pathPattern) then
      var pattern := AnchorPattern(pathPattern);
      if compiles(pattern) then Success(pattern) else Failure("invalid raw regex path_pattern")
    else
      Success(AnchorPattern(Escape(pathPattern)))
  }

  // ---------------------------------------------------------------- the glob it stands for

  datatype Token =
    | Lit(c: char)
    | Param(name: string)
    | Segment              // "*"
    | Segments             // "**"

  function NextToken(s: string): (t: Token)
    requires s != ""
    ensures 1 <= Width(t) <= |s|
  {
    if StartsParam(s) then Param(s[1..1 + IdRun(s[1..])])
    else if "**" <= s then Segments
    else if s[0] == '*' then Segment
    else Lit(s[0])
  }

  /** How much pattern text a token covers. */
  function Width(t: Token): nat {
    match t
    case Lit(_) => 1
    case Param(name) => 1 + |name|
    case Segment => 1
    case Segments => 2
  }

  /** One left-to-right pass: parameters take the longest name, stars pair up from the left. */
  function Tokenize(s: string): seq<Token> {
    if s == "" then [] else [NextToken(s)] + Tokenize(s[Width(NextToken(s))..])
  }

  /** The glob matcher: which paths a token sequence accepts. */
  ghost predicate Accepts(ts: seq<Token>, w: string) {
    if ts == [] then w == ""
    else
      match ts[0]
      case Lit(c) => w != "" && w[0] == c && Accepts(ts[1..], w[1..])
      case Param(_) => exists k :: 1 <= k <= |w| && '/' !in w[..k] && Accepts(ts[1..], w[k..])
      case Segment => exists k :: 0 <= k <= |w| && '/' !in w[..k] && Accepts(ts[1..], w[k..])
      case Segments => exists k :: 0 <= k <= |w| && '\n' !in w[..k] && Accepts(ts[1..], w[k..])
  }

  /** The documented meaning of a path_pattern. */
  ghost predicate GlobMatches(pathPattern: string, path: string) {
    Accepts(Tokenize(pathPattern), path)
  }
}
