/**
 The decision service under concurrent requests.  An Authorize call is broken into the steps between
 which others may run: reading the cache, asking IsOpen, the locked sections of Execute, the PDP's
 answer, storing.  Any number of calls interleave, and the cache may drop entries at any time.
 */
module ServiceSteps {
  import opened Wrappers
  import opened Service
  import opened ServiceRuns
  import B = Breaker
  import C = MemoryCache
  import R = BreakerRuns

  type Caller = R.Caller

  /** Where a call is. */
  datatype Phase =
    | Keyed                       // it has its cache key
    | Missed                      // the cache has no answer and the PDP is needed
    | Past                        // past the IsOpen guard
    | Inside                      // in Execute, or asking the PDP directly when there is no breaker
    | Answered                    // it has the PDP's decision and has not stored it
    | Done(response: Response)

  datatype System = System(cache: C.Data, inner: R.System, phases: map<Caller, Phase>)

  datatype Step =
    | Begin(c: Caller)
    | Read(c: Caller)
    | Guard(c: Caller)
    | Enter(c: Caller)
    | Probe(c: Caller)
    | Record(c: Caller)
    | Finish(c: Caller)
    | Store(c: Caller)
    | Drop(keys: set<string>)

  /** What each caller asks, and what the outside world answers it. */
  type Calls = Caller -> Event

  function New(start: int): System {
    System(map[], R.System(B.New(start), map[], 0), map[])
  }

  function View(s: System): State {
    State(s.cache, s.inner.b)
  }

  /** The breaker's part of a step. */
  function BreakerStep(calls: Calls, step: Step): Option<R.Step> {
    match step
    case Enter(c) => Some(R.Check(c, calls(c).world.checkAt))
    case Probe(c) => Some(R.Probe(c))
    case Record(c) => Some(R.Record(c))
    case Finish(c) => Some(R.Finish(c, calls(c).world.pdp.PdpError?, calls(c).world.doneAt))
    case _ => None
  }

  predicate At(s: System, c: Caller, phase: Phase) {
    c in s.phases && s.phases[c] == phase
  }

  predicate Enabled(cfg: Config, calls: Calls, s: System, step: Step) {
    && (match step
        case Begin(c) => c !in s.phases
        case Read(c) => At(s, c, Keyed) && HasKey(calls(c))
        case Guard(c) => At(s, c, Missed) && IsPolicyCall(calls(c))
        case Enter(c) => At(s, c, Past) && IsPolicyCall(calls(c))
        case Probe(c) => At(s, c, Inside) && cfg.breakerEnabled
        case Record(c) => At(s, c, Inside) && cfg.breakerEnabled
        case Finish(c) => At(s, c, Inside) && IsPolicyCall(calls(c))
        case Store(c) => At(s, c, Answered) && IsPolicyCall(calls(c)) && calls(c).world.pdp.Decided?
        case Drop(_) => true)
    && (cfg.breakerEnabled && BreakerStep(calls, step).Some? ==>
          R.Enabled(s.inner, BreakerStep(calls, step).value))
  }

  /** What a call answers that needs neither the cache nor the PDP. */
  function Unaided(cfg: Config, ev: Event): Response {
    Decide(cfg, View(New(0)), ev.req, ev.world).response
  }

  function ActionOf(ev: Event): string
    requires HasKey(ev)
  {
    ev.world.action.value
  }

  function PdpResponse(ev: Event): Response
    requires IsPolicyCall(ev) && ev.world.pdp.Decided?
  {
    FromPdp(ev.world.pdp.results, ActionOf(ev), PrincipalOf(ev))
  }

  /** The phase a caller's own step takes it to. */
  function NextPhase(cfg: Config, calls: Calls, s: System, step: Step): Phase
    requires Enabled(cfg, calls, s, step) && !step.Drop?
  {
    var ev := calls(step.c);
    match step
    case Begin(_) => if HasKey(ev) then Keyed else Done(Unaided(cfg, ev))
    case Read(_) =>
      if IsHit(cfg, View(s), ev) then Done(FromCache(s.cache[KeyOf(cfg, ev)].result))
      else if IsPolicyCall(ev) then Missed
      else Done(Unaided(cfg, ev))
    case Guard(_) =>
      if cfg.breakerEnabled && s.inner.b.state == B.Open then Done(OnBreakerOpen(cfg, ActionOf(ev), PrincipalOf(ev)))
      else Past
    case Enter(_) =>
      if cfg.breakerEnabled && !B.Admits(BreakerConfig(cfg), s.inner.b, ev.world.checkAt) then
        Done(OnError(cfg, "circuit breaker is open", ActionOf(ev), PrincipalOf(ev)))
      else Inside
    case Probe(_) => Inside
    case Record(_) => Inside
    case Finish(_) =>
      if ev.world.pdp.Decided? then Answered
      else Done(OnError(cfg, ev.world.pdp.message, ActionOf(ev), PrincipalOf(ev)))
    case Store(_) => Done(PdpResponse(ev))
  }

  function NextCache(cfg: Config, calls: Calls, s: System, step: Step): C.Data
    requires Enabled(cfg, calls, s, step)
  {
    if step.Drop? then s.cache - step.keys
    else if step.Store? && !calls(step.c).world.writeFails then
      var ev := calls(step.c);
      s.cache[KeyOf(cfg, ev) := EntryOf(cfg, PdpResponse(ev), ev.world.setAt)]
    else s.cache
  }

  function NextInner(cfg: Config, calls: Calls, s: System, step: Step): R.System
    requires Enabled(cfg, calls, s, step)
  {
    if cfg.breakerEnabled && BreakerStep(calls, step).Some? then
      R.Next(BreakerConfig(cfg), s.inner, BreakerStep(calls, step).value)
    else s.inner
  }

  function Next(cfg: Config, calls: Calls, s: System, step: Step): System
    requires Enabled(cfg, calls, s, step)
  {
    System(NextCache(cfg, calls, s, step), NextInner(cfg, calls, s, step),
           if step.Drop? then s.phases else s.phases[step.c := NextPhase(cfg, calls, s, step)])
  }

  function Init(steps: seq<Step>): seq<Step>
    requires steps != []
  {
    steps[..|steps| - 1]
  }

  function Last(steps: seq<Step>): Step
    requires steps != []
  {
    steps[|steps| - 1]
  }

  /** A run from s: every step enabled in the state the steps before it lead to. */
  predicate IsRun(cfg: Config, calls: Calls, s: System, steps: seq<Step>)
    decreases |steps|, 0
  {
    steps == [] ||
    (IsRun(cfg, calls, s, Init(steps)) && Enabled(cfg, calls, AfterSteps(cfg, calls, s, Init(steps)), Last(steps)))
  }

  function AfterSteps(cfg: Config, calls: Calls, s: System, steps: seq<Step>): System
    requires IsRun(cfg, calls, s, steps)
    decreases |steps|, 1
  {
    if steps == [] then s else Next(cfg, calls, AfterSteps(cfg, calls, s, Init(steps)), Last(steps))
  }

  // ---------------------------------------------------------------- where cache entries come from

  /** A caller that holds the PDP's decision has asked for it. */
  lemma {:induction false} AnsweredFinished(cfg: Config, calls: Calls, start: int, steps: seq<Step>, c: Caller)
    requires IsRun(cfg, calls, New(start), steps) && At(AfterSteps(cfg, calls, New(start), steps), c, Answered)
    ensures Finish(c) in steps
  {
    if Last(steps) == Finish(c) {
    } else {
      AnsweredFinished(cfg, calls, start, Init(steps), c);
    }
  }

  /** Step i of the run stored this entry under this key: the PDP's decision on the storing call. */
  ghost predicate StoredAt(cfg: Config, calls: Calls, steps: seq<Step>, i: int, key: string, entry: C.Entry) {
    && 0 <= i < |steps| && steps[i].Store? && Finish(steps[i].c) in steps
    && var ev := calls(steps[i].c);
       && IsPolicyCall(ev) && ev.world.pdp.Decided?
       && key == KeyOf(cfg, ev) && entry == EntryOf(cfg, PdpResponse(ev), ev.world.setAt)
  }

  /** In every interleaving, every cached entry was stored by a call with that key, from the PDP's answer. */
  lemma {:induction false} EveryEntryStored(cfg: Config, calls: Calls, start: int, steps: seq<Step>, key: string)
    returns (i: int)
    requires IsRun(cfg, calls, New(start), steps) && key in AfterSteps(cfg, calls, New(start), steps).cache
    ensures StoredAt(cfg, calls, steps, i, key, AfterSteps(cfg, calls, New(start), steps).cache[key])
  {
    var init, step := Init(steps), Last(steps);
    assert steps == init + [step];
    if step.Store? && !calls(step.c).world.writeFails && KeyOf(cfg, calls(step.c)) == key {
      i := |steps| - 1;
      AnsweredFinished(cfg, calls, start, init, step.c);
    } else {
      i := EveryEntryStored(cfg, calls, start, init, key);
    }
  }

  // ---------------------------------------------------------------- where responses come from

  /** The answer of a call when the PDP cannot be asked or fails. */
  ghost predicate IsOutage(cfg: Config, ev: Event, resp: Response)
    requires HasKey(ev)
  {
    || resp == OnBreakerOpen(cfg, ActionOf(ev), PrincipalOf(ev))
    || exists message :: resp == OnError(cfg, message, ActionOf(ev), PrincipalOf(ev))
  }

  /** The caller read, at step j, an entry that step i had stored under its key, and answered from it. */
  ghost predicate FromEntry(cfg: Config, calls: Calls, steps: seq<Step>, c: Caller, resp: Response, i: int, j: int) {
    && 0 <= i < j < |steps| && steps[j] == Read(c) && HasKey(calls(c))
    && exists entry :: StoredAt(cfg, calls, steps, i, KeyOf(cfg, calls(c)), entry)
         && resp == FromCache(entry.result) && calls(c).world.getAt <= entry.expiresAt
  }

  /** Every way a caller can have got its response. */
  ghost predicate Origin(cfg: Config, calls: Calls, steps: seq<Step>, c: Caller, resp: Response, i: int, j: int) {
    var ev := calls(c);
    || (!IsPolicyCall(ev) && resp == Unaided(cfg, ev))
    || FromEntry(cfg, calls, steps, c, resp, i, j)
    || (IsPolicyCall(ev) && ev.world.pdp.Decided? && Finish(c) in steps && resp == PdpResponse(ev))
    || (IsPolicyCall(ev) && IsOutage(cfg, ev, resp))
  }

  /** The caller has its response. */
  ghost predicate Has(cfg: Config, calls: Calls, start: int, steps: seq<Step>, c: Caller, resp: Response) {
    IsRun(cfg, calls, New(start), steps) && At(AfterSteps(cfg, calls, New(start), steps), c, Done(resp))
  }

  /** The last step of the run is a read that hits. */
  ghost predicate LastHits(cfg: Config, calls: Calls, start: int, steps: seq<Step>) {
    && steps != [] && IsRun(cfg, calls, New(start), steps) && Last(steps).Read?
    && IsHit(cfg, View(AfterSteps(cfg, calls, New(start), Init(steps))), calls(Last(steps).c))
  }

  lemma HitAnswers(cfg: Config, calls: Calls, start: int, steps: seq<Step>, c: Caller, resp: Response)
    returns (i: int)
    requires Has(cfg, calls, start, steps, c, resp) && LastHits(cfg, calls, start, steps) && Last(steps).c == c
    ensures FromEntry(cfg, calls, steps, c, resp, i, |steps| - 1)
  {
    var s, key := AfterSteps(cfg, calls, New(start), Init(steps)), KeyOf(cfg, calls(c));
    i := EveryEntryStored(cfg, calls, start, Init(steps), key);
    assert steps == Init(steps) + [Last(steps)];
    assert StoredAt(cfg, calls, steps, i, key, s.cache[key]);
  }

  /** What a call is answered before it is known to need the PDP, unless it is a hit. */
  lemma EarlyAnswer(cfg: Config, calls: Calls, s: System, step: Step, resp: Response)
    requires Enabled(cfg, calls, s, step) && (step.Begin? || step.Read?)
    requires NextPhase(cfg, calls, s, step) == Done(resp)
    requires step.Read? ==> !IsHit(cfg, View(s), calls(step.c))
    ensures !IsPolicyCall(calls(step.c)) && resp == Unaided(cfg, calls(step.c))
  {
  }

  /** What a policy call is answered without a decision. */
  lemma OutageAnswer(cfg: Config, calls: Calls, s: System, step: Step, resp: Response)
    requires Enabled(cfg, calls, s, step) && (step.Guard? || step.Enter? || step.Finish?)
    requires NextPhase(cfg, calls, s, step) == Done(resp)
    ensures IsPolicyCall(calls(step.c)) && IsOutage(cfg, calls(step.c), resp)
  {
    var ev := calls(step.c);
    match step
    case Guard(_) =>
    case Enter(_) => ErrorIsOutage(cfg, ev, "circuit breaker is open");
    case Finish(_) => ErrorIsOutage(cfg, ev, ev.world.pdp.message);
  }

  lemma ErrorIsOutage(cfg: Config, ev: Event, message: string)
    requires HasKey(ev)
    ensures IsOutage(cfg, ev, OnError(cfg, message, ActionOf(ev), PrincipalOf(ev)))
  {
  }

  lemma LastStepAnswers(cfg: Config, calls: Calls, start: int, steps: seq<Step>, c: Caller, resp: Response)
    returns (i: int, j: int)
    requires Has(cfg, calls, start, steps, c, resp)
    requires steps != [] && !Last(steps).Drop? && Last(steps).c == c
    ensures Origin(cfg, calls, steps, c, resp, i, j)
  {
    var s := AfterSteps(cfg, calls, New(start), Init(steps));
    i, j := 0, |steps| - 1;
    if LastHits(cfg, calls, start, steps) {
      i := HitAnswers(cfg, calls, start, steps, c, resp);
    } else if Last(steps).Store? {
      assert steps == Init(steps) + [Last(steps)];
      AnsweredFinished(cfg, calls, start, Init(steps), c);
    } else if Last(steps).Begin? || Last(steps).Read? {
      EarlyAnswer(cfg, calls, s, Last(steps), resp);
    } else {
      OutageAnswer(cfg, calls, s, Last(steps), resp);
    }
  }

  lemma OriginLasts(cfg: Config, calls: Calls, steps: seq<Step>, c: Caller, resp: Response, i: int, j: int)
    requires steps != [] && Origin(cfg, calls, Init(steps), c, resp, i, j)
    ensures Origin(cfg, calls, steps, c, resp, i, j)
  {
    assert steps == Init(steps) + [Last(steps)];
    if FromEntry(cfg, calls, Init(steps), c, resp, i, j) {
      var entry :| StoredAt(cfg, calls, Init(steps), i, KeyOf(cfg, calls(c)), entry)
        && resp == FromCache(entry.result) && calls(c).world.getAt <= entry.expiresAt;
      assert StoredAt(cfg, calls, steps, i, KeyOf(cfg, calls(c)), entry);
    }
  }

  lemma HadBefore(cfg: Config, calls: Calls, start: int, steps: seq<Step>, c: Caller, resp: Response)
    requires Has(cfg, calls, start, steps, c, resp)
    ensures steps != []
    ensures Last(steps).Drop? || Last(steps).c != c ==> Has(cfg, calls, start, Init(steps), c, resp)
  {
  }

  /** In every interleaving, every response has one of these origins. */
  lemma {:induction false} EveryResponse(cfg: Config, calls: Calls, start: int, steps: seq<Step>,
                                         c: Caller, resp: Response) returns (i: int, j: int)
    requires Has(cfg, calls, start, steps, c, resp)
    ensures Origin(cfg, calls, steps, c, resp, i, j)
    decreases |steps|
  {
    HadBefore(cfg, calls, start, steps, c, resp);
    if Last(steps).Drop? || Last(steps).c != c {
      i, j := EveryResponse(cfg, calls, start, Init(steps), c, resp);
      OriginLasts(cfg, calls, steps, c, resp, i, j);
    } else {
      i, j := LastStepAnswers(cfg, calls, start, steps, c, resp);
    }
  }

  // ---------------------------------------------------------------- allow provenance in every interleaving

  /** Caller d asked the PDP under the key text of caller c and was answered EFFECT_ALLOW. */
  ghost predicate AllowedThrough(calls: Calls, steps: seq<Step>, d: Caller, c: Caller) {
    var asker := calls(d);
    && HasKey(calls(c)) && IsPolicyCall(asker) && ShareByText(asker, calls(c)) && Finish(d) in steps
    && asker.world.pdp.Decided? && SaysAllow(asker.world.pdp.results, ActionOf(asker))
  }

  /** Caller d stored its decision before caller c read the cache, and the decision was still alive. */
  ghost predicate SharedInTime(cfg: Config, calls: Calls, steps: seq<Step>, d: Caller, c: Caller) {
    && (exists i, j :: 0 <= i < j < |steps| && steps[i] == Store(d) && steps[j] == Read(c))
    && calls(c).world.getAt <= calls(d).world.setAt + cfg.cacheTTL
  }

  /** The caller whose stored decision was read shares the reader's key text. */
  lemma EntryThrough(cfg: Config, calls: Calls, steps: seq<Step>, c: Caller, resp: Response, i: int, j: int)
    requires GoodHash(cfg) && FromEntry(cfg, calls, steps, c, resp, i, j) && resp.allowed
    ensures AllowedThrough(calls, steps, steps[i].c, c) && SharedInTime(cfg, calls, steps, steps[i].c, c)
  {
    var d := steps[i].c;
    SameTextShares(calls(d), calls(c));
    assert steps[i] == Store(d);
  }

  /**
   Allow provenance with any number of concurrent callers, in every interleaving of their steps and
   with entries dropped at any time: an Allowed response is a public action, or the "authenticated"
   action with a known principal, or rests on the PDP's EFFECT_ALLOW under the same key text - the
   caller's own, or another's stored before the read and at most cacheTTL old - or is a "degraded"
   response of fail_open mode.
   */
  lemma AllowedInAnyInterleaving(cfg: Config, calls: Calls, start: int, steps: seq<Step>, c: Caller, resp: Response)
    returns (d: Caller)
    requires GoodHash(cfg) && Has(cfg, calls, start, steps, c, resp) && resp.allowed
    ensures var ev := calls(c);
            || ev.world.action == Some("public")
            || (ev.world.action == Some("authenticated") && HasKey(ev) && PrincipalOf(ev) != "anonymous")
            || (AllowedThrough(calls, steps, d, c) && (d == c || SharedInTime(cfg, calls, steps, d, c)))
            || (cfg.failureMode == "fail_open" && resp.status == "degraded")
  {
    var i, j := EveryResponse(cfg, calls, start, steps, c, resp);
    d := c;
    if FromEntry(cfg, calls, steps, c, resp, i, j) {
      d := steps[i].c;
      EntryThrough(cfg, calls, steps, c, resp, i, j);
    } else if HasKey(calls(c)) {
      SameTextShares(calls(c), calls(c));
    }
  }

  /**
   So without a valid token naming a principal, only public actions are allowed in any interleaving, as
   long as no principal's id starts with "anonymous:".
   */
  lemma AnonymousOnlyPublicConcurrently(cfg: Config, calls: Calls, start: int, steps: seq<Step>,
                                        c: Caller, resp: Response)
    requires GoodHash(cfg) && Has(cfg, calls, start, steps, c, resp) && resp.allowed
    requires forall d: Caller :: !IsLookalike(calls(d))
    requires HasKey(calls(c)) ==> PrincipalOf(calls(c)) == "anonymous"
    ensures calls(c).world.action == Some("public")
  {
    var i, j := EveryResponse(cfg, calls, start, steps, c, resp);
    if FromEntry(cfg, calls, steps, c, resp, i, j) {
      EntryThrough(cfg, calls, steps, c, resp, i, j);
      AnonymousTextIsLookalikes(calls(steps[i].c), calls(c));
      assert false;
    }
  }

  // ---------------------------------------------------------------- right decisions in every interleaving

  /** The PDP, where it answers a call, is a function of the query, and keys determine queries. */
  ghost predicate Functional(cfg: Config, calls: Calls, pdp: Query -> seq<map<string, string>>) {
    && (forall c: Caller :: IsPolicyCall(calls(c)) && calls(c).world.pdp.Decided? ==>
          calls(c).world.pdp == Decided(pdp(QueryFor(cfg, calls(c)))))
    && (forall c: Caller, d: Caller ::
          HasKey(calls(c)) && HasKey(calls(d)) && KeyOf(cfg, calls(c)) == KeyOf(cfg, calls(d)) ==>
          QueryFor(cfg, calls(c)) == QueryFor(cfg, calls(d)))
  }

  /**
   With such a PDP, a policy call that is not told of an outage gets the PDP's decision on its own
   query, whoever asked for it and however the calls interleave.
   */
  lemma RightDecision(cfg: Config, calls: Calls, start: int, steps: seq<Step>, c: Caller, resp: Response,
                      pdp: Query -> seq<map<string, string>>)
    requires Functional(cfg, calls, pdp) && Has(cfg, calls, start, steps, c, resp) && IsPolicyCall(calls(c))
    ensures || IsOutage(cfg, calls(c), resp)
            || var allowed := SaysAllow(pdp(QueryFor(cfg, calls(c))), ActionOf(calls(c)));
               resp.allowed == allowed && resp.status == (if allowed then "allowed" else "denied")
               && resp.action == ActionOf(calls(c))
  {
    var i, j := EveryResponse(cfg, calls, start, steps, c, resp);
    if FromEntry(cfg, calls, steps, c, resp, i, j) {
      var d := steps[i].c;
      assert QueryFor(cfg, calls(d)) == QueryFor(cfg, calls(c));
    }
  }

  // ---------------------------------------------------------------- the breaker inside

  /** The breaker's share of a run. */
  function BreakerSteps(cfg: Config, calls: Calls, steps: seq<Step>): seq<R.Step> {
    if steps == [] then []
    else
      BreakerSteps(cfg, calls, Init(steps)) +
      if cfg.breakerEnabled && BreakerStep(calls, Last(steps)).Some? then [BreakerStep(calls, Last(steps)).value]
      else []
  }

  /** The breaker inside the service goes through a run of the breaker with concurrent callers. */
  lemma {:induction false} BreakerRunInside(cfg: Config, calls: Calls, start: int, steps: seq<Step>)
    requires IsRun(cfg, calls, New(start), steps)
    ensures R.IsRun(BreakerConfig(cfg), start, BreakerSteps(cfg, calls, steps))
    ensures R.After(BreakerConfig(cfg), start, BreakerSteps(cfg, calls, steps))
         == AfterSteps(cfg, calls, New(start), steps).inner
  {
    if steps == [] {
    } else {
      var before := BreakerSteps(cfg, calls, Init(steps));
      BreakerRunInside(cfg, calls, start, Init(steps));
      if cfg.breakerEnabled && BreakerStep(calls, Last(steps)).Some? {
        var longer := before + [BreakerStep(calls, Last(steps)).value];
        assert R.Init(longer) == before && R.Last(longer) == BreakerStep(calls, Last(steps)).value;
      } else {
        assert before + [] == before;
      }
    }
  }

  lemma {:induction false} NothingForgotten(cfg: Config, calls: Calls, start: int, steps: seq<Step>)
    requires R.IsRun(BreakerConfig(cfg), start, BreakerSteps(cfg, calls, steps))
    ensures R.Forgotten(BreakerConfig(cfg), start, BreakerSteps(cfg, calls, steps)) == 0
  {
    if steps == [] {
    } else if cfg.breakerEnabled && BreakerStep(calls, Last(steps)).Some? {
      var longer := BreakerSteps(cfg, calls, steps);
      assert R.Init(longer) == BreakerSteps(cfg, calls, Init(steps));
      NothingForgotten(cfg, calls, start, Init(steps));
    } else {
      assert BreakerSteps(cfg, calls, steps) == BreakerSteps(cfg, calls, Init(steps));
      NothingForgotten(cfg, calls, start, Init(steps));
    }
  }

  /**
   So in every interleaving of requests a half-open breaker refuses only while three of them are in
   flight and admits when none is, a closed one is below its threshold, and every request recorded by the
   breaker has failed, has succeeded or is in flight.
   */
  lemma ServiceBreakerSound(cfg: Config, calls: Calls, start: int, steps: seq<Step>, now: int)
    requires IsRun(cfg, calls, New(start), steps)
    ensures var s := AfterSteps(cfg, calls, New(start), steps).inner;
            && (s.b.state == B.HalfOpen && !B.Admits(BreakerConfig(cfg), s.b, now) ==> |R.InFlight(s)| >= 3)
            && (s.b.state == B.HalfOpen && R.InFlight(s) == {} ==> B.Admits(BreakerConfig(cfg), s.b, now))
            && (cfg.failureThreshold >= 1 && s.b.state == B.Closed ==> s.b.failureCount < cfg.failureThreshold)
            && s.b.totalRequests
               == s.b.totalFailures + R.Successes(BreakerSteps(cfg, calls, steps)) + |R.InFlight(s)|
  {
    var bs := BreakerSteps(cfg, calls, steps);
    BreakerRunInside(cfg, calls, start, steps);
    NothingForgotten(cfg, calls, start, steps);
    R.Accounting(BreakerConfig(cfg), start, bs);
    if AfterSteps(cfg, calls, New(start), steps).inner.b.state == B.HalfOpen {
      R.NeverWedges(BreakerConfig(cfg), start, bs, now);
    }
    if cfg.failureThreshold >= 1 { R.ClosedBelowThreshold(BreakerConfig(cfg), start, bs); }
  }

  /** A caller between the guard and the probe. */
  ghost predicate HasStraggler(s: System) {
    || (exists c :: At(s, c, Past))
    || (exists c :: c in s.inner.callers && s.inner.callers[c] == R.Admitted)
  }

  /** Open, with no straggler, and with nobody in the breaker or at the PDP but the callers given. */
  ghost predicate Shut(s: System, inside: set<Caller>) {
    && s.inner.b.state == B.Open && !HasStraggler(s)
    && forall c :: At(s, c, Inside) ==> c in inside
  }

  lemma StepKeepsShut(cfg: Config, calls: Calls, s: System, step: Step, inside: set<Caller>)
    requires cfg.breakerEnabled && Shut(s, inside) && Enabled(cfg, calls, s, step)
    ensures Shut(Next(cfg, calls, s, step), inside)
  {
    var t := Next(cfg, calls, s, step);
    if c :| At(t, c, Past) {
      assert At(s, c, Past);
      assert false;
    }
    forall c | At(t, c, Inside) ensures c in inside {
      assert At(s, c, Inside) || At(s, c, Past);
    }
  }

  /**
   Once the breaker is open and no request is held up before the probe, it stays open in every
   interleaving of any further requests, and none of them reaches the PDP.
   */
  lemma {:induction false} ShutForever(cfg: Config, calls: Calls, s: System, steps: seq<Step>, inside: set<Caller>)
    requires cfg.breakerEnabled && Shut(s, inside) && IsRun(cfg, calls, s, steps)
    ensures Shut(AfterSteps(cfg, calls, s, steps), inside)
    ensures forall c :: Finish(c) in steps ==> c in inside
  {
    if steps == [] {
    } else {
      ShutForever(cfg, calls, s, Init(steps), inside);
      StepKeepsShut(cfg, calls, AfterSteps(cfg, calls, s, Init(steps)), Last(steps), inside);
      assert steps == Init(steps) + [Last(steps)];
    }
  }

  // ---------------------------------------------------------------- failure modes in lockstep

  predicate SamePhase(open: Phase, closed: Phase) {
    if open.Done? && closed.Done? then SameResponse(open.response, closed.response) else open == closed
  }

  /** Two services that differ in nothing but how they reported outages. */
  ghost predicate Twins(open: System, closed: System) {
    open.cache == closed.cache && open.inner == closed.inner && SamePhases(open.phases, closed.phases)
  }

  ghost predicate SamePhases(open: map<Caller, Phase>, closed: map<Caller, Phase>) {
    open.Keys == closed.Keys && forall c :: c in open ==> SamePhase(open[c], closed[c])
  }

  lemma TwinPhases(cfg: Config, calls: Calls, open: System, closed: System, step: Step)
    requires Twins(open, closed) && !step.Drop?
    requires Enabled(FailOpen(cfg), calls, open, step) && Enabled(FailClosed(cfg), calls, closed, step)
    ensures SamePhase(NextPhase(FailOpen(cfg), calls, open, step), NextPhase(FailClosed(cfg), calls, closed, step))
  {
  }

  lemma TwinEnabled(cfg: Config, calls: Calls, open: System, closed: System, step: Step)
    requires Twins(open, closed)
    ensures Enabled(FailOpen(cfg), calls, open, step) <==> Enabled(FailClosed(cfg), calls, closed, step)
  {
    if !step.Drop? && step.c in open.phases {
      assert SamePhase(open.phases[step.c], closed.phases[step.c]);
    }
  }

  lemma TwinCaches(cfg: Config, calls: Calls, open: System, closed: System, step: Step)
    requires open.cache == closed.cache
    requires Enabled(FailOpen(cfg), calls, open, step) && Enabled(FailClosed(cfg), calls, closed, step)
    ensures NextCache(FailOpen(cfg), calls, open, step) == NextCache(FailClosed(cfg), calls, closed, step)
  {
    if step.Store? {
      assert KeyOf(FailOpen(cfg), calls(step.c)) == KeyOf(FailClosed(cfg), calls(step.c));
    }
  }

  lemma TwinInners(cfg: Config, calls: Calls, open: System, closed: System, step: Step)
    requires open.inner == closed.inner
    requires Enabled(FailOpen(cfg), calls, open, step) && Enabled(FailClosed(cfg), calls, closed, step)
    ensures NextInner(FailOpen(cfg), calls, open, step) == NextInner(FailClosed(cfg), calls, closed, step)
  {
    assert BreakerConfig(FailOpen(cfg)) == BreakerConfig(FailClosed(cfg));
  }

  lemma TwinUpdate(open: map<Caller, Phase>, closed: map<Caller, Phase>, c: Caller, p: Phase, q: Phase)
    requires SamePhases(open, closed) && SamePhase(p, q)
    ensures SamePhases(open[c := p], closed[c := q])
  {
  }

  lemma StepKeepsTwins(cfg: Config, calls: Calls, open: System, closed: System, step: Step)
    requires Twins(open, closed) && Enabled(FailOpen(cfg), calls, open, step)
    ensures Enabled(FailClosed(cfg), calls, closed, step)
    ensures Twins(Next(FailOpen(cfg), calls, open, step), Next(FailClosed(cfg), calls, closed, step))
  {
    TwinEnabled(cfg, calls, open, closed, step);
    TwinCaches(cfg, calls, open, closed, step);
    TwinInners(cfg, calls, open, closed, step);
    if !step.Drop? {
      TwinPhases(cfg, calls, open, closed, step);
      TwinUpdate(open.phases, closed.phases, step.c, NextPhase(FailOpen(cfg), calls, open, step),
                 NextPhase(FailClosed(cfg), calls, closed, step));
    }
  }

  /**
   Two services differing only in failure mode can go through exactly the same interleavings of the same
   calls, with the same cache and breaker throughout, and answer alike except that one degrades where the
   other reports the breaker or an error.
   */
  lemma {:induction false} LockstepConcurrently(cfg: Config, calls: Calls, s: System, steps: seq<Step>)
    ensures IsRun(FailOpen(cfg), calls, s, steps) <==> IsRun(FailClosed(cfg), calls, s, steps)
    ensures IsRun(FailOpen(cfg), calls, s, steps) ==>
              Twins(AfterSteps(FailOpen(cfg), calls, s, steps), AfterSteps(FailClosed(cfg), calls, s, steps))
  {
    if steps == [] {
    } else {
      LockstepConcurrently(cfg, calls, s, Init(steps));
      if IsRun(FailOpen(cfg), calls, s, Init(steps)) {
        var open := AfterSteps(FailOpen(cfg), calls, s, Init(steps));
        var closed := AfterSteps(FailClosed(cfg), calls, s, Init(steps));
        TwinEnabled(cfg, calls, open, closed, Last(steps));
        if Enabled(FailOpen(cfg), calls, open, Last(steps)) {
          StepKeepsTwins(cfg, calls, open, closed, Last(steps));
        }
      }
    }
  }
}
