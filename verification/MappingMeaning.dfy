/**
 What the mapping client means by its tables: which paths an entry of any kind matches, what a call resolves to
 and what it reports, stated on the entries' own patterns and actions.
 */
module MappingMeaning {
  import opened Wrappers
  import opened Regex
  import opened Pattern
  import opened Anchoring
  import opened Mapping
  import PatternCorrect

  // ---------------------------------------------------------------- which paths an entry matches

  /** The regex an entry carries: its match_regex or, failing that, a path_pattern with both parentheses. */
  function OwnRegex(rm: RedisMapping): Option<string> {
    if rm.matchRegex != "" then Some(rm.matchRegex)
    else if '(' in rm.pathPattern && ')' in rm.pathPattern then Some(rm.pathPattern)
    else None
  }

  /**
   The paths an entry matches: those its own regex finds with its outer ends anchored, or those its glob
   accepts.
   */
  ghost predicate EntryAccepts(rm: RedisMapping, path: string) {
    match OwnRegex(rm)
    case Some(text) =>
      Compile(text).Some? && Found(Compile(text).value, path, LeadingCaretReal(text), TrailingDollarReal(text))
    case None => PatternCorrect.GlobSearch(rm.pathPattern, path)
  }

  /** The entry's regex is in the fragment, and the engine reads what is made of it as the regex model does. */
  ghost predicate EntryConforms(eng: Engine, rm: RedisMapping) {
    match OwnRegex(rm)
    case Some(text) => Compile(text).Some? && ConformsOn(eng, AnchorPattern(text))
    case None => EngineConforms(eng, rm.pathPattern)
  }

  /** Every such entry compiles and matches exactly those paths. */
  lemma EntryMatches(eng: Engine, rm: RedisMapping, path: string)
    requires EntryConforms(eng, rm)
    ensures CompileMatchPattern(eng, rm).Success?
    ensures MatchesPath(eng, rm, path) <==> EntryAccepts(rm, path)
  {
    match OwnRegex(rm)
    case Some(text) => var anchored := AnchoredMeaning(text);
    case None => var re := PatternCorrect.CompiledMeaning(rm.pathPattern);
  }

  /** With real outer anchors and anchored inner ends, its own regex matches the whole path. */
  lemma OwnRegexMatchesWhole(eng: Engine, rm: RedisMapping, text: string, path: string)
    requires OwnRegex(rm) == Some(text) && EntryConforms(eng, rm)
    requires LeadingCaretReal(text) && TrailingDollarReal(text)
    requires LaterBegin(Compile(text).value) && EarlierEnd(Compile(text).value)
    ensures MatchesPath(eng, rm, path) <==> WholeMatch(Compile(text).value, path)
  {
    var anchored := AnchoredIsWholeMatch(text);
    EntryMatches(eng, rm, path);
  }

  /** What an entry is compiled from, before the compiler has its say. */
  function EntryText(rm: RedisMapping): string {
    match OwnRegex(rm)
    case Some(text) => AnchorPattern(text)
    case None => AnchorPattern(Escape(rm.pathPattern))
  }

  /** An entry whose text does not compile matches nothing; any other is searched for with that text. */
  lemma MatchesByItsText(eng: Engine, rm: RedisMapping, path: string)
    ensures MatchesPath(eng, rm, path) <==>
              eng.compiles(EntryText(rm)) && eng.matchString(EntryText(rm), path)
  {
  }

  function Chars(s: string): Re {
    if s == "" then Empty else Cat(Char(s[0]), Chars(s[1..]))
  }

  lemma {:induction false} ReadsPlain(s: string)
    requires forall c <- s :: !IsMeta(c)
    ensures ParseCat(s) == Ok(Chars(s), "")
  {
    if s == "" {
    } else {
      assert s[0] in s;
      ReadsPlain(s[1..]);
      assert s[1..] != "" ==> s[1..][0] in s;
      assert ParseAtom(s) == Ok(Char(s[0]), s[1..]);
    }
  }

  lemma {:induction false} PlainMeaning(s: string, w: string, i: int, j: int)
    requires 0 <= i <= j <= |w|
    ensures Matches(Chars(s), w, i, j) <==> w[i..j] == s
  {
    if s == "" {
    } else if i < j {
      PlainMeaning(s[1..], w, i + 1, j);
      assert w[i..j] == [w[i]] + w[i + 1..j] && s == [s[0]] + s[1..];
    }
  }

  /** A match_regex without metacharacters matches its own text only, though its author gave it no anchors. */
  lemma PlainRegexIsExact(eng: Engine, rm: RedisMapping, path: string)
    requires rm.matchRegex != "" && forall c <- rm.matchRegex :: !IsMeta(c)
    requires ConformsOn(eng, AnchorPattern(rm.matchRegex))
    ensures MatchesPath(eng, rm, path) <==> path == rm.matchRegex
  {
    var s := rm.matchRegex;
    ReadsPlain(s);
    assert s[0] in s && s[|s| - 1] in s;
    OwnRegexMatchesWhole(eng, rm, s, path);
    PlainMeaning(s, path, 0, |path|);
    assert path[0..|path|] == path;
  }

  // ---------------------------------------------------------------- what a call resolves to

  /** Position k of the method's list holds the first entry that is readable and accepts the path. */
  ghost predicate FirstAccepting(t: Tables, call: Call, k: int) {
    && call.verb in t.patterns && 0 <= k < |t.patterns[call.verb]|
    && Accepting(t, call, t.patterns[call.verb][k])
    && forall i | 0 <= i < k :: !Accepting(t, call, t.patterns[call.verb][i])
  }

  ghost predicate Accepting(t: Tables, call: Call, id: string) {
    && id in t.all && id !in call.faults.unreadable && t.all[id].Some?
    && EntryAccepts(t.all[id].value, call.path)
  }

  /** The engine conforms on every entry of the tables. */
  ghost predicate TablesConform(eng: Engine, t: Tables) {
    forall id | id in t.all && t.all[id].Some? :: EntryConforms(eng, t.all[id].value)
  }

  lemma FirstIsFirst(eng: Engine, t: Tables, call: Call, k: int)
    requires TablesConform(eng, t)
    ensures FirstAt(eng, t, call, k) <==> FirstAccepting(t, call, k)
  {
    forall id | id in t.all && t.all[id].Some?
      ensures MatchesPath(eng, t.all[id].value, call.path) <==> EntryAccepts(t.all[id].value, call.path)
    {
      EntryMatches(eng, t.all[id].value, call.path);
    }
  }

  /**
   Over tables of any entries the regex model reads - match_regex, raw or glob - a call that no cached id
   answers reports the action of the first listed entry that accepts the path, and an error if there is none,
   or if that entry names no action.
   */
  lemma ScanReports(eng: Engine, t: Tables, lookup: LookupCache, call: Call, k: int)
    requires TablesConform(eng, t) && CachedId(lookup, call).None? && !call.faults.listFails
    ensures FirstAccepting(t, call, k) ==>
              var rm := t.all[t.patterns[call.verb][k]].value;
              var got := Reported(Answer(eng, t, lookup, call), call);
              if rm.actionName == "" then got.Failure?
              else got == Success((rm.actionName, Mapping(rm.actionName, call.path, call.verb, rm)))
    ensures (forall n :: !FirstAccepting(t, call, n)) ==> Reported(Answer(eng, t, lookup, call), call).Failure?
  {
    forall n ensures FirstAt(eng, t, call, n) <==> FirstAccepting(t, call, n) { FirstIsFirst(eng, t, call, n); }
    ScanFindsFirst(eng, t, call, 0);
    if FirstAccepting(t, call, k) { FirstMatchUnique(eng, t, call, t.patterns[call.verb][k]); }
  }

  /** Whatever the engine: a path that no entry matches is an error, and so is a list that cannot be read. */
  lemma UnmappedIsError(eng: Engine, t: Tables, lookup: LookupCache, call: Call)
    requires CachedId(lookup, call).None?
    requires call.faults.listFails || call.verb !in t.patterns || forall id :: !IsFirstMatch(eng, t, call, id)
    ensures var what := if call.faults.listFails then "mapping lookup failed for " else "no mapping found for ";
            Reported(Answer(eng, t, lookup, call), call) == Failure(what + call.verb + " " + call.path)
  {
    ScanFindsFirst(eng, t, call, 0);
  }

  /** A success always reports the action, which is not empty, of an entry that the tables hold. */
  lemma SuccessIsAnEntrys(eng: Engine, t: Tables, lookup: LookupCache, call: Call) returns (id: string)
    requires Reported(Answer(eng, t, lookup, call), call).Success?
    ensures id in t.all && t.all[id].Some? && id !in call.faults.unreadable
    ensures var (action, m) := Reported(Answer(eng, t, lookup, call), call).value;
            && action == t.all[id].value.actionName != ""
            && m == Mapping(action, call.path, call.verb, t.all[id].value)
    ensures if CachedId(lookup, call).Some? then id == CachedId(lookup, call).value
            else IsFirstMatch(eng, t, call, id)
  {
    ScanFindsFirst(eng, t, call, 0);
    id := Answer(eng, t, lookup, call).id;
  }

  /**
   A cached id is used exactly when the cache can be read and holds one, not empty and not past its time, for
   the call's key; then the answer is that id's current entry, and otherwise the scan's.
   */
  lemma AnswerByCache(eng: Engine, t: Tables, lookup: LookupCache, call: Call)
    ensures var key := LookupKey(call.verb, call.path);
            if !call.faults.getFails && key in lookup && lookup[key].id != "" && !(lookup[key].expiresAt < call.now)
            then Answer(eng, t, lookup, call) == Details(t, call, lookup[key].id)
            else Answer(eng, t, lookup, call) == Uncached(eng, t, call)
  {
  }
}
