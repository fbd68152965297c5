/** The decision service over the mapping client: what lets an unidentified caller through. */
module EndToEnd {
  import M = Mapping
  import MM = MappingMeaning
  import opened Service
  import opened ServiceRuns
  import S = ServiceSteps

  /** The mapping client resolves the call to a public entry that a recent scan chose. */
  ghost predicate RestsOnPublicEntry(eng: M.Engine, tables: M.Tables, steps: seq<M.Step>, call: M.Call,
                                     r: M.Resolution, j: int) {
    && r == M.Answer(eng, M.After(eng, tables, steps).tables, M.After(eng, tables, steps).lookup, call)
    && r.Resolved? && r.mapping.action == "public"
    && M.FoundBy(eng, tables, steps + [M.Ask(call)], j, call, r.id)
    && call.now - M.FIVE_MINUTES <= (steps + [M.Ask(call)])[j].call.now <= call.now
  }

  /** What the mapping client reports for the call is the action the service goes on with. */
  ghost predicate IsBehind(eng: M.Engine, tables: M.Tables, steps: seq<M.Step>, call: M.Call, ev: Event) {
    && call.path == ev.req.path && call.verb == ev.req.verb
    && M.ClockMonotone(steps + [M.Ask(call)])
    && var w := M.After(eng, tables, steps);
       ev.world.action == M.ActionOf(M.Reported(M.Answer(eng, w.tables, w.lookup, call), call))
  }

  /**
   In any run of the service in which no principal's id starts with "anonymous:", with any run of the
   mapping client behind the call's action: a caller without a valid token is allowed only if the path
   resolves to an entry whose action is "public", by an id that a scan for this method and path, or for
   one sharing its lookup key, chose first within the last 300 seconds.
   */
  lemma AnonymousNeedsPublicMapping(cfg: Config, start: int, evs: seq<Event>, i: int,
                                    eng: M.Engine, tables: M.Tables, steps: seq<M.Step>, call: M.Call)
    returns (r: M.Resolution, j: int)
    requires GoodHash(cfg) && forall ev <- evs :: !IsLookalike(ev)
    requires 0 <= i < |evs| && OutcomeAt(cfg, start, evs, i).response.allowed
    requires HasKey(evs[i]) ==> PrincipalOf(evs[i]) == "anonymous"
    requires IsBehind(eng, tables, steps, call, evs[i])
    ensures RestsOnPublicEntry(eng, tables, steps, call, r, j)
  {
    var w := M.After(eng, tables, steps);
    r := M.Answer(eng, w.tables, w.lookup, call);
    AnonymousOnlyPublic(cfg, start, evs, i);
    j := M.BoundedStaleness(eng, tables, steps, call);
  }

  /** So it is with any number of concurrent callers, in every interleaving. */
  lemma AnonymousNeedsPublicMappingConcurrently(cfg: Config, calls: S.Calls, start: int, run: seq<S.Step>,
                                                c: S.Caller, resp: Response, eng: M.Engine, tables: M.Tables,
                                                steps: seq<M.Step>, call: M.Call)
    returns (r: M.Resolution, j: int)
    requires GoodHash(cfg) && S.Has(cfg, calls, start, run, c, resp) && resp.allowed
    requires forall d: S.Caller :: !IsLookalike(calls(d))
    requires HasKey(calls(c)) ==> PrincipalOf(calls(c)) == "anonymous"
    requires IsBehind(eng, tables, steps, call, calls(c))
    ensures RestsOnPublicEntry(eng, tables, steps, call, r, j)
  {
    var w := M.After(eng, tables, steps);
    r := M.Answer(eng, w.tables, w.lookup, call);
    S.AnonymousOnlyPublicConcurrently(cfg, calls, start, run, c, resp);
    j := M.BoundedStaleness(eng, tables, steps, call);
  }

  /**
   A path that no entry matches and no cached id answers is denied, in any state and either failure mode,
   whatever token the caller brings; and then neither the cache nor the PDP is touched.
   */
  lemma UnmappedIsDenied(cfg: Config, s: State, ev: Event, eng: M.Engine, tables: M.Tables, steps: seq<M.Step>,
                         call: M.Call)
    requires IsBehind(eng, tables, steps, call, ev)
    requires var w := M.After(eng, tables, steps);
             && M.CachedId(w.lookup, call).None?
             && (call.faults.listFails || call.verb !in w.tables.patterns
                 || forall id :: !M.IsFirstMatch(eng, w.tables, call, id))
    ensures var out := Decide(cfg, s, ev.req, ev.world);
            && !out.response.allowed && out.response.status == "no_action_mapping"
            && out.state == s && out.asked.None?
  {
    var w := M.After(eng, tables, steps);
    MM.UnmappedIsError(eng, w.tables, w.lookup, call);
  }

  /** And what the service goes on with is the action of an entry of the tables as they are. */
  lemma ActionIsAnEntrys(eng: M.Engine, tables: M.Tables, steps: seq<M.Step>, call: M.Call, ev: Event)
    returns (id: string)
    requires IsBehind(eng, tables, steps, call, ev) && ev.world.action.Some?
    ensures var t := M.After(eng, tables, steps).tables;
            && id in t.all && t.all[id].Some? && ev.world.action.value == t.all[id].value.actionName != ""
  {
    var w := M.After(eng, tables, steps);
    id := MM.SuccessIsAnEntrys(eng, w.tables, w.lookup, call);
  }
}
