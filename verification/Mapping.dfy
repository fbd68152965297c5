/**
 The mapping client: resolving (path, method) to an action by an ordered first-match scan over the
 mapping tables, through a five-minute lookup cache.  The tables are written by the mapping service.
 */
module Mapping {
  import opened Wrappers
  import opened Colons
  import opened Pattern
  import Regex
  import PatternCorrect

  datatype RedisMapping = RedisMapping(
    id: int,
    pathPattern: string,
    matchRegex: string,
    actionId: int,
    actionName: string,
    description: string)

  /** A resolved mapping; its attributes are those of the table entry. */
  datatype Mapping = Mapping(action: string, path: string, verb: string, entry: RedisMapping)

  // ---------------------------------------------------------------- patterns of entries

  /** The regexp package: which texts compile, and MatchString on those that do. */
  datatype Engine = Engine(compiles: string -> bool, matchString: (string, string) -> bool)

  function BuildMatchPattern(eng: Engine, rm: RedisMapping): Result<string> {
    if rm.matchRegex != "" then Success(AnchorPattern(rm.matchRegex))
    else PathPatternToRegex(rm.pathPattern, eng.compiles)
  }

  function CompileMatchPattern(eng: Engine, rm: RedisMapping): Result<string> {
    match BuildMatchPattern(eng, rm)
    case Failure(e) => Failure(e)
    case Success(text) => if eng.compiles(text) then Success(text) else Failure("invalid mapping pattern")
  }

  predicate MatchesPath(eng: Engine, rm: RedisMapping, path: string) {
    var re := CompileMatchPattern(eng, rm);
    re.Success? && eng.matchString(re.value, path)
  }

  // ---------------------------------------------------------------- tables and reads

  /** Ids in order of specificity per method, and entries by id (None where the JSON is malformed). */
  datatype Tables = Tables(patterns: map<string, seq<string>>, all: map<string, Option<RedisMapping>>)

  /** Which of the Redis commands issued by one call fail. */
  datatype Faults = Faults(getFails: bool, listFails: bool, unreadable: set<string>, writeFails: bool)

  datatype Call = Call(path: string, verb: string, now: int, faults: Faults)

  datatype Cached = Cached(id: string, expiresAt: int)

  type LookupCache = map<string, Cached>

  /** HGET of one entry, decoded. */
  function Load(t: Tables, unreadable: set<string>, id: string): Option<RedisMapping> {
    if id in t.all && id !in unreadable then t.all[id] else None
  }

  /** LRANGE of a method's list; a missing list is empty. */
  function Ids(t: Tables, verb: string): seq<string> {
    if verb in t.patterns then t.patterns[verb] else []
  }

  function LookupKey(verb: string, path: string): string {
    "heimdall:mappings:lookup:" + (verb + (":" + path))
  }

  const LOOKUP_TTL := 300 * 1000000000

  /** What the lookup cache's lifetime is meant to be, in nanoseconds. */
  const FIVE_MINUTES := 5 * 60 * 1000 * 1000 * 1000

  /** Can this id be loaded, decoded and compiled, and does it match the path? */
  predicate Selects(eng: Engine, t: Tables, unreadable: set<string>, id: string, path: string) {
    var rm := Load(t, unreadable, id);
    rm.Some? && MatchesPath(eng, rm.value, path)
  }

  /** id is the first entry of the method's list that selects the path, at position k. */
  predicate FirstAt(eng: Engine, t: Tables, call: Call, k: int) {
    var ids := Ids(t, call.verb);
    && 0 <= k < |ids|
    && Selects(eng, t, call.faults.unreadable, ids[k], call.path)
    && forall i | 0 <= i < k :: !Selects(eng, t, call.faults.unreadable, ids[i], call.path)
  }

  /** The scan would have chosen this id. */
  ghost predicate IsFirstMatch(eng: Engine, t: Tables, call: Call, id: string) {
    exists k :: FirstAt(eng, t, call, k) && Ids(t, call.verb)[k] == id
  }

  datatype Resolution =
    | Resolved(id: string, mapping: Mapping)
    | Unmatched
    | LookupFailed(attempted: Option<string>)

  function ResolveTo(call: Call, id: string, rm: RedisMapping): Resolution {
    Resolved(id, Mapping(rm.actionName, call.path, call.verb, rm))
  }

  /** getMappingDetails: the entry of a cached id, unmatched against the path. */
  function Details(t: Tables, call: Call, id: string): Resolution {
    match Load(t, call.faults.unreadable, id)
    case None => LookupFailed(Some(id))
    case Some(rm) => ResolveTo(call, id, rm)
  }

  /** The scan without any cache. */
  function Uncached(eng: Engine, t: Tables, call: Call): Resolution {
    if call.faults.listFails then LookupFailed(None)
    else ScanFrom(eng, t, call, 0)
  }

  function ScanFrom(eng: Engine, t: Tables, call: Call, k: nat): Resolution
    decreases |Ids(t, call.verb)| - k
  {
    var ids := Ids(t, call.verb);
    if k >= |ids| then Unmatched
    else if Selects(eng, t, call.faults.unreadable, ids[k], call.path) then
      ResolveTo(call, ids[k], Load(t, call.faults.unreadable, ids[k]).value)
    else ScanFrom(eng, t, call, k + 1)
  }

  lemma {:induction false} ScanFindsFirst(eng: Engine, t: Tables, call: Call, k: nat)
    requires k <= |Ids(t, call.verb)|
    requires forall i | 0 <= i < k :: !Selects(eng, t, call.faults.unreadable, Ids(t, call.verb)[i], call.path)
    ensures var r := ScanFrom(eng, t, call, k);
            match r
            case Resolved(id, _) => IsFirstMatch(eng, t, call, id) && r == Details(t, call, id)
            case Unmatched => forall id :: !IsFirstMatch(eng, t, call, id)
            case LookupFailed(_) => false
    decreases |Ids(t, call.verb)| - k
  {
    var ids := Ids(t, call.verb);
    if k >= |ids| {
    } else {
      if Selects(eng, t, call.faults.unreadable, ids[k], call.path) {
        assert FirstAt(eng, t, call, k);
      } else {
        ScanFindsFirst(eng, t, call, k + 1);
      }
    }
  }

  /** The scan has one answer. */
  lemma FirstMatchUnique(eng: Engine, t: Tables, call: Call, id: string)
    requires IsFirstMatch(eng, t, call, id) && !call.faults.listFails
    ensures Uncached(eng, t, call).Resolved? && Uncached(eng, t, call).id == id
  {
    ScanFindsFirst(eng, t, call, 0);
    var k :| FirstAt(eng, t, call, k) && Ids(t, call.verb)[k] == id;
    var r := Uncached(eng, t, call);
    if r.Resolved? {
      var j :| FirstAt(eng, t, call, j) && Ids(t, call.verb)[j] == r.id;
      assert j == k;
    }
  }

  // ---------------------------------------------------------------- one call through the cache

  function CachedId(lookup: LookupCache, call: Call): Option<string> {
    var key := LookupKey(call.verb, call.path);
    if !call.faults.getFails && key in lookup && call.now <= lookup[key].expiresAt && lookup[key].id != ""
    then Some(lookup[key].id) else None
  }

  function Answer(eng: Engine, t: Tables, lookup: LookupCache, call: Call): Resolution {
    match CachedId(lookup, call)
    case Some(id) => Details(t, call, id)
    case None => Uncached(eng, t, call)
  }

  const NOT_CONFIGURED := "Redis mappings not configured - service unavailable"

  /** What GetAction reports: an action with its mapping, or the error that makes its caller deny the request. */
  function Reported(r: Resolution, call: Call): Result<(string, Mapping)> {
    match r
    case LookupFailed(_) => Failure("mapping lookup failed for " + call.verb + " " + call.path)
    case Unmatched => Failure("no mapping found for " + call.verb + " " + call.path)
    case Resolved(_, m) =>
      if m.action == "" then Failure("no mapping found for " + call.verb + " " + call.path)
      else Success((m.action, m))
  }

  /** The action a caller goes on with, if any. */
  function ActionOf(reported: Result<(string, Mapping)>): Option<string> {
    match reported
    case Failure(_) => None
    case Success((action, _)) => Some(action)
  }

  function NextLookup(eng: Engine, t: Tables, lookup: LookupCache, call: Call): LookupCache {
    var r := Uncached(eng, t, call);
    if CachedId(lookup, call).None? && r.Resolved? && !call.faults.writeFails then
      lookup[LookupKey(call.verb, call.path) := Cached(r.id, call.now + LOOKUP_TTL)]
    else lookup
  }

  class Client {
    const engine: Engine
    const configured: bool
    var tables: Tables
    var lookup: LookupCache

    /** A client has a Redis connection when Sentinel hosts and a master name are given. */
    constructor (engine: Engine, tables: Tables, sentinelHosts: string, sentinelService: string)
      ensures this.engine == engine && this.tables == tables && lookup == map[]
      ensures configured <==> sentinelHosts != "" && sentinelService != ""
    {
      this.engine := engine;
      this.configured := sentinelHosts != "" && sentinelService != "";
      this.tables := tables;
      lookup := map[];
    }

    method GetMappingDetails(id: string, call: Call) returns (r: Resolution)
      ensures r == Details(tables, call, id)
    {
      var rm := Load(tables, call.faults.unreadable, id);
      if rm.None? {
        return LookupFailed(Some(id));
      }
      return ResolveTo(call, id, rm.value);
    }

    method PatternMatchingFallback(call: Call) returns (r: Resolution)
      modifies this`lookup
      ensures r == Uncached(engine, tables, call)
      ensures lookup == if r.Resolved? && !call.faults.writeFails
                        then old(lookup)[LookupKey(call.verb, call.path) := Cached(r.id, call.now + LOOKUP_TTL)]
                        else old(lookup)
    {
      if call.faults.listFails {
        return LookupFailed(None);
      }
      var ids := Ids(tables, call.verb);
      for i := 0 to |ids|
        invariant lookup == old(lookup)
        invariant ScanFrom(engine, tables, call, i) == ScanFrom(engine, tables, call, 0)
      {
        var rm := Load(tables, call.faults.unreadable, ids[i]);
        if rm.None? {
          continue;
        }
        var re := CompileMatchPattern(engine, rm.value);
        if re.Failure? {
          continue;
        }
        if engine.matchString(re.value, call.path) {
          if !call.faults.writeFails {
            lookup := lookup[LookupKey(call.verb, call.path) := Cached(ids[i], call.now + LOOKUP_TTL)];
          }
          return ResolveTo(call, ids[i], rm.value);
        }
      }
      return Unmatched;
    }

    method GetActionFromRedis(call: Call) returns (r: Resolution)
      modifies this`lookup
      ensures r == Answer(engine, tables, old(lookup), call)
      ensures lookup == NextLookup(engine, tables, old(lookup), call)
    {
      var key := LookupKey(call.verb, call.path);
      if !call.faults.getFails && key in lookup && call.now <= lookup[key].expiresAt && lookup[key].id != "" {
        r := GetMappingDetails(lookup[key].id, call);
      } else {
        r := PatternMatchingFallback(call);
      }
    }

    method GetAction(call: Call) returns (reported: Result<(string, Mapping)>)
      modifies this`lookup
      ensures !configured ==> reported == Failure(NOT_CONFIGURED) && lookup == old(lookup)
      ensures configured ==>
                && reported == Reported(Answer(engine, tables, old(lookup), call), call)
                && lookup == NextLookup(engine, tables, old(lookup), call)
    {
      if !configured {
        return Failure(NOT_CONFIGURED);
      }
      var r := GetActionFromRedis(call);
      if r.LookupFailed? {
        return Failure("mapping lookup failed for " + call.verb + " " + call.path);
      }
      if r.Unmatched? || r.mapping.action == "" {
        return Failure("no mapping found for " + call.verb + " " + call.path);
      }
      return Success((r.mapping.action, r.mapping));
    }
  }

  // ---------------------------------------------------------------- runs

  /** The mapping service rewrites the tables, or a caller asks. */
  datatype Step = Write(tables: Tables) | Ask(call: Call)

  datatype World = World(tables: Tables, lookup: LookupCache)

  function After(eng: Engine, start: Tables, steps: seq<Step>): World {
    if steps == [] then World(start, map[])
    else
      var w := After(eng, start, steps[..|steps| - 1]);
      match steps[|steps| - 1]
      case Write(t) => w.(tables := t)
      case Ask(call) => w.(lookup := NextLookup(eng, w.tables, w.lookup, call))
  }

  lemma LookupKeyUnambiguous(c: Call, d: Call)
    requires ColonFree(c.verb) && ColonFree(d.verb)
    requires LookupKey(c.verb, c.path) == LookupKey(d.verb, d.path)
    ensures c.verb == d.verb && c.path == d.path
  {
    var p := "heimdall:mappings:lookup:";
    var a, b := c.verb + (":" + c.path), d.verb + (":" + d.path);
    assert (p + a)[|p|..] == a && (p + b)[|p|..] == b;
    FirstColon(c.verb, c.path, d.verb, d.path);
  }

  /** The calls share a lookup key: the same method and path, unless a method holds a colon. */
  predicate SharesKey(c: Call, d: Call) {
    && LookupKey(c.verb, c.path) == LookupKey(d.verb, d.path)
    && (ColonFree(c.verb) && ColonFree(d.verb) ==> c.verb == d.verb && c.path == d.path)
  }

  lemma SameKeyShares(c: Call, d: Call)
    requires LookupKey(c.verb, c.path) == LookupKey(d.verb, d.path)
    ensures SharesKey(c, d)
  {
    if ColonFree(c.verb) && ColonFree(d.verb) { LookupKeyUnambiguous(c, d); }
  }

  ghost predicate ColonFreeVerbs(steps: seq<Step>) {
    forall i | 0 <= i < |steps| && steps[i].Ask? :: ColonFree(steps[i].call.verb)
  }

  ghost predicate ClockMonotone(steps: seq<Step>) {
    forall i, j | 0 <= i < j < |steps| && steps[i].Ask? && steps[j].Ask? ::
      steps[i].call.now <= steps[j].call.now
  }

  /** Step j of the run is a call sharing this one's key whose scan, on its tables, finds id first. */
  ghost predicate FoundBy(eng: Engine, start: Tables, steps: seq<Step>, j: int, call: Call, id: string) {
    && 0 <= j < |steps| && steps[j].Ask? && SharesKey(steps[j].call, call)
    && IsFirstMatch(eng, After(eng, start, steps[..j]).tables, steps[j].call, id)
  }

  /** Every cached id was found by a scan, for a call sharing its key, at the time it was cached. */
  lemma {:induction false} CachedWasFound(eng: Engine, start: Tables, steps: seq<Step>, call: Call) returns (j: int)
    requires LookupKey(call.verb, call.path) in After(eng, start, steps).lookup
    ensures var c := After(eng, start, steps).lookup[LookupKey(call.verb, call.path)];
            FoundBy(eng, start, steps, j, call, c.id) && c.expiresAt == steps[j].call.now + LOOKUP_TTL
  {
    var n := |steps| - 1;
    var init, key := steps[..n], LookupKey(call.verb, call.path);
    var w := After(eng, start, init);
    var step := steps[n];
    if step.Ask? && LookupKey(step.call.verb, step.call.path) == key && CachedId(w.lookup, step.call).None?
       && Uncached(eng, w.tables, step.call).Resolved? && !step.call.faults.writeFails {
      SameKeyShares(step.call, call);
      ScanFindsFirst(eng, w.tables, step.call, 0);
      j := n;
    } else {
      j := CachedWasFound(eng, start, init, call);
      assert steps[..j] == init[..j];
    }
  }

  /**
   Bounded staleness, with tables changing between calls and reads failing at will: the id a call
   uses was the first loadable, compilable, matching entry of some scan, for the same method and path
   unless methods hold colons, in the preceding 300 seconds (or of its own scan).
   */
  lemma BoundedStaleness(eng: Engine, start: Tables, steps: seq<Step>, call: Call) returns (j: int)
    requires ClockMonotone(steps + [Ask(call)])
    requires var r := Answer(eng, After(eng, start, steps).tables, After(eng, start, steps).lookup, call);
             r.Resolved? || (r.LookupFailed? && r.attempted.Some?)
    ensures var r := Answer(eng, After(eng, start, steps).tables, After(eng, start, steps).lookup, call);
            var id := if r.Resolved? then r.id else r.attempted.value;
            && FoundBy(eng, start, steps + [Ask(call)], j, call, id)
            && call.now - FIVE_MINUTES <= (steps + [Ask(call)])[j].call.now <= call.now
  {
    var all := steps + [Ask(call)];
    var w := After(eng, start, steps);
    assert forall i | 0 <= i < |steps| :: all[i] == steps[i];
    assert all[|steps|] == Ask(call) && all[..|steps|] == steps;
    if CachedId(w.lookup, call).Some? {
      j := CachedWasFound(eng, start, steps, call);
      assert all[..j] == steps[..j] && all[j] == steps[j];
    } else {
      ScanFindsFirst(eng, w.tables, call, 0);
      SameKeyShares(call, call);
      j := |steps|;
    }
  }

  /**
   The bound is real: for 300 seconds after a scan chose an id, the same call is answered from that
   id's current entry, whether or not the entry still matches the path, and fails if it is gone.
   */
  lemma HitIsNotRematched(eng: Engine, before: Tables, after: Tables, call: Call, later: Call)
    requires Uncached(eng, before, call).Resolved? && Uncached(eng, before, call).id != ""
    requires !call.faults.writeFails && !later.faults.getFails
    requires later.verb == call.verb && later.path == call.path && later.now <= call.now + FIVE_MINUTES
    ensures var w := After(eng, before, [Ask(call), Write(after)]);
            Answer(eng, w.tables, w.lookup, later) == Details(after, later, Uncached(eng, before, call).id)
  {
    var steps := [Ask(call), Write(after)];
    assert steps[..1] == [Ask(call)] && [Ask(call)][..0] == [];
    assert After(eng, before, []) == World(before, map[]);
    assert After(eng, before, [Ask(call)]).lookup
        == map[LookupKey(call.verb, call.path) := Cached(Uncached(eng, before, call).id, call.now + LOOKUP_TTL)];
  }

  /**
   When a hit agrees with the scan: exactly when the table's list can be read and the cached id is
   the entry the scan would choose now.
   */
  lemma HitAgreesIffStillFirst(eng: Engine, t: Tables, lookup: LookupCache, call: Call)
    requires CachedId(lookup, call).Some?
    ensures Answer(eng, t, lookup, call) == Uncached(eng, t, call)
       <==> !call.faults.listFails && IsFirstMatch(eng, t, call, CachedId(lookup, call).value)
  {
    ScanFindsFirst(eng, t, call, 0);
    if !call.faults.listFails && IsFirstMatch(eng, t, call, CachedId(lookup, call).value) {
      FirstMatchUnique(eng, t, call, CachedId(lookup, call).value);
    }
  }

  /**
   Inputs on which they differ: one of two entries that match a path is found and cached; the mapping
   service then lists the other before it, and for five minutes the path keeps the first one's action.
   */
  lemma StaleAction(eng: Engine, first: RedisMapping, second: RedisMapping, path: string, verb: string,
                    now: int, later: int) returns (before: Tables, after: Tables)
    requires MatchesPath(eng, first, path) && MatchesPath(eng, second, path)
    requires first.actionName != "" && second.actionName != "" && later <= now + FIVE_MINUTES
    ensures var w := After(eng, before, [Ask(Call(path, verb, now, NO_FAULTS)), Write(after)]);
            var call := Call(path, verb, later, NO_FAULTS);
            && ActionOf(Reported(Answer(eng, w.tables, w.lookup, call), call)) == Some(first.actionName)
            && ActionOf(Reported(Uncached(eng, w.tables, call), call)) == Some(second.actionName)
  {
    var call, again := Call(path, verb, now, NO_FAULTS), Call(path, verb, later, NO_FAULTS);
    before := Tables(map[verb := ["1"]], map["1" := Some(first)]);
    after := Tables(map[verb := ["2", "1"]], map["1" := Some(first), "2" := Some(second)]);
    assert Selects(eng, before, {}, "1", path) && Selects(eng, after, {}, "2", path);
    assert Uncached(eng, before, call) == ResolveTo(call, "1", first);
    HitIsNotRematched(eng, before, after, call, again);
    assert Uncached(eng, after, again) == ResolveTo(again, "2", second);
    var steps := [Ask(call), Write(after)];
    assert steps[..1] == [Ask(call)];
    assert After(eng, before, steps).tables == after;
  }

  const NO_FAULTS := Faults(false, false, {}, false)

  /** Calls only, none of whose table reads fail. */
  ghost predicate OnlyCleanAsks(steps: seq<Step>) {
    forall i | 0 <= i < |steps| ::
      steps[i].Ask? && !steps[i].call.faults.listFails && steps[i].call.faults.unreadable == {}
  }

  lemma {:induction false} TablesFixed(eng: Engine, start: Tables, steps: seq<Step>)
    requires OnlyCleanAsks(steps)
    ensures After(eng, start, steps).tables == start
  {
    if steps == [] {
    } else {
      TablesFixed(eng, start, steps[..|steps| - 1]);
    }
  }

  /**
   Agreement: with fixed tables and table reads that do not fail, every call answers exactly what
   the uncached first-match scan answers, at any time and whether or not cache commands fail.
   */
  lemma CacheAgreesWithScan(eng: Engine, start: Tables, steps: seq<Step>, call: Call)
    requires OnlyCleanAsks(steps + [Ask(call)]) && ColonFreeVerbs(steps + [Ask(call)])
    ensures var w := After(eng, start, steps);
            w.tables == start && Answer(eng, w.tables, w.lookup, call) == Uncached(eng, start, call)
  {
    var all := steps + [Ask(call)];
    assert forall i | 0 <= i < |steps| :: all[i] == steps[i];
    assert all[|steps|] == Ask(call);
    TablesFixed(eng, start, steps);
    var w := After(eng, start, steps);
    if CachedId(w.lookup, call).Some? {
      var j := CachedWasFound(eng, start, steps, call);
      var id := CachedId(w.lookup, call).value;
      TablesFixed(eng, start, steps[..j]);
      SameScan(eng, start, steps[j].call, call, id);
      FirstMatchUnique(eng, start, call, id);
      ScanFindsFirst(eng, start, call, 0);
    }
  }

  /** A scan depends on a call only through its method, path and failing reads. */
  lemma SameScan(eng: Engine, t: Tables, c: Call, d: Call, id: string)
    requires c.verb == d.verb && c.path == d.path && c.faults.unreadable == d.faults.unreadable
    requires IsFirstMatch(eng, t, c, id)
    ensures IsFirstMatch(eng, t, d, id)
  {
  }

  // ---------------------------------------------------------------- globs end to end

  /** The engine reads and searches this text as the regex model does. */
  ghost predicate ConformsOn(eng: Engine, text: string) {
    forall re | Regex.Compile(text) == Some(re) ::
      eng.compiles(text) && forall w :: eng.matchString(text, w) <==> Regex.Search(re, w)
  }

  /** So it does with the text compiled from this pattern. */
  ghost predicate EngineConforms(eng: Engine, pathPattern: string) {
    ConformsOn(eng, AnchorPattern(Escape(pathPattern)))
  }

  predicate IsPlainGlob(rm: RedisMapping) {
    rm.matchRegex == "" && !IsRaw(rm.pathPattern) && !EndsWithDollar(rm.pathPattern)
  }

  lemma GlobEntryMatches(eng: Engine, rm: RedisMapping, path: string)
    requires EngineConforms(eng, rm.pathPattern) && IsPlainGlob(rm)
    ensures CompileMatchPattern(eng, rm).Success?
    ensures MatchesPath(eng, rm, path) <==> GlobMatches(rm.pathPattern, path)
  {
    var text, re := PatternCorrect.CompilerCorrect(rm.pathPattern, eng.compiles);
    assert eng.compiles(text);
  }

  /** id is the first listed entry whose glob accepts the path. */
  ghost predicate FirstGlob(t: Tables, verb: string, path: string, k: int) {
    var ids := Ids(t, verb);
    && 0 <= k < |ids|
    && ids[k] in t.all && t.all[ids[k]].Some? && GlobMatches(t.all[ids[k]].value.pathPattern, path)
    && forall i | 0 <= i < k ::
         !(ids[i] in t.all && t.all[ids[i]].Some? && GlobMatches(t.all[ids[i]].value.pathPattern, path))
  }

  /**
   End to end, for tables of plain globs: after any run of clean calls, a call resolves to the first
   listed entry whose glob accepts the path, and to nothing if there is none.
   */
  lemma ResolvesFirstGlob(eng: Engine, start: Tables, steps: seq<Step>, call: Call, k: int)
    requires forall id | id in start.all && start.all[id].Some? ::
               IsPlainGlob(start.all[id].value) && EngineConforms(eng, start.all[id].value.pathPattern)
    requires OnlyCleanAsks(steps + [Ask(call)]) && ColonFreeVerbs(steps + [Ask(call)])
    ensures var w := After(eng, start, steps);
            var r := Answer(eng, w.tables, w.lookup, call);
            && (FirstGlob(start, call.verb, call.path, k) ==>
                  r == Details(start, call, Ids(start, call.verb)[k]))
            && ((forall n :: !FirstGlob(start, call.verb, call.path, n)) ==> r == Unmatched)
  {
    CacheAgreesWithScan(eng, start, steps, call);
    assert (steps + [Ask(call)])[|steps|] == Ask(call);
    forall n ensures FirstAt(eng, start, call, n) <==> FirstGlob(start, call.verb, call.path, n) {
      var ids := Ids(start, call.verb);
      forall i | 0 <= i < |ids| && ids[i] in start.all && start.all[ids[i]].Some?
        ensures MatchesPath(eng, start.all[ids[i]].value, call.path)
           <==> GlobMatches(start.all[ids[i]].value.pathPattern, call.path)
      {
        GlobEntryMatches(eng, start.all[ids[i]].value, call.path);
      }
    }
    ScanFindsFirst(eng, start, call, 0);
    if FirstGlob(start, call.verb, call.path, k) {
      FirstMatchUnique(eng, start, call, Ids(start, call.verb)[k]);
    }
  }
}
