/**
 The two models of a call agree: a call whose steps run without interruption computes the decision
 function of the serial model, from any state of the concurrent one.
 */
module ServiceAlone {
  import opened Service
  import opened ServiceRuns
  import opened ServiceSteps
  import B = Breaker
  import R = BreakerRuns

  /** The run leads from s to t. */
  ghost predicate Leads(cfg: Config, calls: Calls, s: System, steps: seq<Step>, t: System) {
    IsRun(cfg, calls, s, steps) && AfterSteps(cfg, calls, s, steps) == t
  }

  lemma Then(cfg: Config, calls: Calls, s: System, steps: seq<Step>, t: System, step: Step) returns (more: seq<Step>)
    requires Leads(cfg, calls, s, steps, t) && Enabled(cfg, calls, t, step)
    ensures Leads(cfg, calls, s, more, Next(cfg, calls, t, step))
  {
    more := steps + [step];
    assert Init(more) == steps;
  }

  /** The state in which the call is in this phase and nothing else has changed. */
  function With(s: System, c: Caller, phase: Phase): System {
    s.(phases := s.phases[c := phase])
  }

  /** What the serial model says of a call that the cache answers or that needs no PDP. */
  lemma DecideEarly(cfg: Config, v: State, ev: Event)
    requires !IsPolicyCall(ev) || IsHit(cfg, v, ev)
    ensures var out := Decide(cfg, v, ev.req, ev.world);
            && out.response == (if IsHit(cfg, v, ev) then FromCache(v.cache[KeyOf(cfg, ev)].result)
                                else Unaided(cfg, ev))
            && out.state == v.(cache := AfterRead(cfg, v, ev))
  {
  }

  /** Where a call is after it has read the cache. */
  function EarlyPhase(cfg: Config, v: State, ev: Event): Phase {
    if IsHit(cfg, v, ev) then Done(FromCache(v.cache[KeyOf(cfg, ev)].result))
    else if IsPolicyCall(ev) then Missed
    else Done(Unaided(cfg, ev))
  }

  lemma ReadAlone(cfg: Config, calls: Calls, s: System, c: Caller) returns (steps: seq<Step>, t: System)
    requires At(s, c, Keyed) && HasKey(calls(c))
    ensures Leads(cfg, calls, s, steps, t)
    ensures t == With(s.(cache := AfterRead(cfg, View(s), calls(c))), c, EarlyPhase(cfg, View(s), calls(c)))
  {
    var ev := calls(c);
    steps := Then(cfg, calls, s, [], s, Read(c));
    t := Next(cfg, calls, s, Read(c));
    if !ev.world.readFails && !IsHit(cfg, View(s), ev) {
      steps := Then(cfg, calls, s, steps, t, Drop({KeyOf(cfg, ev)}));
      t := Next(cfg, calls, t, Drop({KeyOf(cfg, ev)}));
    }
  }

  /** A call from its beginning to the guard, or to its response. */
  lemma UpToGuard(cfg: Config, calls: Calls, s: System, c: Caller) returns (steps: seq<Step>, t: System)
    requires c !in s.phases
    ensures Leads(cfg, calls, s, steps, t)
    ensures t == With(s.(cache := AfterRead(cfg, View(s), calls(c))), c, EarlyPhase(cfg, View(s), calls(c)))
  {
    steps := Then(cfg, calls, s, [], s, Begin(c));
    t := Next(cfg, calls, s, Begin(c));
    if HasKey(calls(c)) {
      var rest, u := ReadAlone(cfg, calls, t, c);
      steps := Joined(cfg, calls, s, steps, t, rest, u);
      t := u;
    }
  }

  /** Where a verdict of the breaker leaves a call. */
  function AfterVerdict(cfg: Config, ev: Event, verdict: B.Verdict): Phase
    requires IsPolicyCall(ev)
  {
    match verdict
    case Rejected => Done(OnError(cfg, "circuit breaker is open", ActionOf(ev), PrincipalOf(ev)))
    case FnFailed =>
      if ev.world.pdp.Decided? then Answered
      else Done(OnError(cfg, ev.world.pdp.message, ActionOf(ev), PrincipalOf(ev)))
    case FnSucceeded => Answered
  }

  /** The breaker's share of an admitted call, uninterrupted. */
  function BreakerAlone(cfg: B.Config, r: R.System, c: Caller, call: B.Call): R.System
    requires c !in r.callers && B.Admits(cfg, r.b, call.now)
  {
    var probed := R.Next(cfg, R.Next(cfg, r, R.Check(c, call.now)), R.Probe(c));
    R.Next(cfg, R.Next(cfg, probed, R.Record(c)), R.Finish(c, call.fails, call.doneAt))
  }

  lemma BreakerAloneExecutes(cfg: B.Config, r: R.System, c: Caller, call: B.Call)
    requires c !in r.callers && B.Admits(cfg, r.b, call.now)
    ensures BreakerAlone(cfg, r, c, call).b == B.Executed(cfg, r.b, call).0
    ensures BreakerAlone(cfg, r, c, call).callers == r.callers
  {
  }

  /** The breaker's share of a step. */
  function InnerNext(cfg: Config, calls: Calls, r: R.System, step: Step): R.System
    requires BreakerStep(calls, step).Some? && R.Enabled(r, BreakerStep(calls, step).value)
  {
    R.Next(BreakerConfig(cfg), r, BreakerStep(calls, step).value)
  }

  /** A step of a call inside the breaker, before its function ends. */
  lemma InsideStep(cfg: Config, calls: Calls, s: System, steps: seq<Step>, t: System, step: Step)
    returns (more: seq<Step>, u: System)
    requires Leads(cfg, calls, s, steps, t) && Enabled(cfg, calls, t, step) && cfg.breakerEnabled
    requires step.Probe? || step.Record?
    ensures Leads(cfg, calls, s, more, u)
    ensures u == System(t.cache, InnerNext(cfg, calls, t.inner, step), t.phases[step.c := Inside])
  {
    more := Then(cfg, calls, s, steps, t, step);
    u := Next(cfg, calls, t, step);
  }

  lemma EnterStep(cfg: Config, calls: Calls, s: System, c: Caller) returns (steps: seq<Step>, t: System)
    requires At(s, c, Past) && IsPolicyCall(calls(c)) && c !in s.inner.callers && cfg.breakerEnabled
    requires B.Admits(BreakerConfig(cfg), s.inner.b, calls(c).world.checkAt)
    ensures Leads(cfg, calls, s, steps, t)
    ensures t == System(s.cache, InnerNext(cfg, calls, s.inner, Enter(c)), s.phases[c := Inside])
  {
    steps := Then(cfg, calls, s, [], s, Enter(c));
    t := Next(cfg, calls, s, Enter(c));
  }

  lemma FinishStep(cfg: Config, calls: Calls, s: System, steps: seq<Step>, t: System, c: Caller)
    returns (more: seq<Step>, u: System)
    requires Leads(cfg, calls, s, steps, t) && Enabled(cfg, calls, t, Finish(c)) && cfg.breakerEnabled
    ensures Leads(cfg, calls, s, more, u)
    ensures u == System(t.cache, InnerNext(cfg, calls, t.inner, Finish(c)),
                        t.phases[c := AfterVerdict(cfg, calls(c), VerdictOf(calls(c)))])
  {
    more := Then(cfg, calls, s, steps, t, Finish(c));
    u := Next(cfg, calls, t, Finish(c));
  }

  /** A call past the guard, up to the PDP's answer. */
  lemma ThroughBreaker(cfg: Config, calls: Calls, s: System, c: Caller) returns (steps: seq<Step>, t: System)
    requires At(s, c, Past) && IsPolicyCall(calls(c)) && c !in s.inner.callers && cfg.breakerEnabled
    requires B.Admits(BreakerConfig(cfg), s.inner.b, calls(c).world.checkAt)
    ensures Leads(cfg, calls, s, steps, t)
    ensures t == System(s.cache, BreakerAlone(BreakerConfig(cfg), s.inner, c, CallOf(calls(c))),
                        s.phases[c := AfterVerdict(cfg, calls(c), VerdictOf(calls(c)))])
  {
    steps, t := EnterStep(cfg, calls, s, c);
    steps, t := InsideStep(cfg, calls, s, steps, t, Probe(c));
    steps, t := InsideStep(cfg, calls, s, steps, t, Record(c));
    steps, t := FinishStep(cfg, calls, s, steps, t, c);
  }

  /** What Execute is called with. */
  function CallOf(ev: Event): B.Call {
    B.Call(ev.world.checkAt, ev.world.pdp.PdpError?, ev.world.doneAt)
  }

  /** What an admitted call's function returns. */
  function VerdictOf(ev: Event): B.Verdict {
    if ev.world.pdp.PdpError? then B.FnFailed else B.FnSucceeded
  }

  /** A call past the guard, up to its response or its decision, with or without the breaker. */
  lemma UpToAnswer(cfg: Config, calls: Calls, s: System, c: Caller) returns (steps: seq<Step>, t: System)
    requires At(s, c, Past) && IsPolicyCall(calls(c)) && c !in s.inner.callers
    ensures Leads(cfg, calls, s, steps, t)
    ensures var (b, verdict) := Verdict(cfg, s.inner.b, calls(c));
            && t.cache == s.cache && t.inner.b == b && t.inner.callers == s.inner.callers
            && t.phases == s.phases[c := AfterVerdict(cfg, calls(c), verdict)]
  {
    if cfg.breakerEnabled && B.Admits(BreakerConfig(cfg), s.inner.b, calls(c).world.checkAt) {
      steps, t := ThroughBreaker(cfg, calls, s, c);
      BreakerAloneExecutes(BreakerConfig(cfg), s.inner, c, CallOf(calls(c)));
    } else {
      steps := Then(cfg, calls, s, [], s, Enter(c));
      t := Next(cfg, calls, s, Enter(c));
      if !cfg.breakerEnabled {
        steps := Then(cfg, calls, s, steps, t, Finish(c));
        t := Next(cfg, calls, t, Finish(c));
      }
    }
  }

  function Verdict(cfg: Config, b: B.Status, ev: Event): (B.Status, B.Verdict) {
    if cfg.breakerEnabled then B.Executed(BreakerConfig(cfg), b, CallOf(ev)) else (b, VerdictOf(ev))
  }

  /** Storing a decision, after the cache has dropped what it drops. */
  lemma StoreAlone(cfg: Config, calls: Calls, s: System, c: Caller) returns (steps: seq<Step>, t: System)
    requires At(s, c, Answered) && IsPolicyCall(calls(c)) && calls(c).world.pdp.Decided?
    ensures Leads(cfg, calls, s, steps, t)
    ensures var ev := calls(c);
            t == With(s.(cache := Cached(cfg, s.cache, ev.world, KeyOf(cfg, ev), PdpResponse(ev))),
                      c, Done(PdpResponse(ev)))
  {
    var drop := Drop(calls(c).world.lost);
    steps := Then(cfg, calls, s, [], s, drop);
    t := Next(cfg, calls, s, drop);
    steps := Then(cfg, calls, s, steps, t, Store(c));
    t := Next(cfg, calls, t, Store(c));
  }

  /** What Consult comes to, verdict by verdict. */
  lemma ConsultByVerdict(cfg: Config, v: State, ev: Event)
    requires IsPolicyCall(ev)
    ensures var (b, verdict) := Verdict(cfg, v.breaker, ev);
            var out := Consult(cfg, v, ev.world, KeyOf(cfg, ev), QueryFor(cfg, ev));
            var phase := AfterVerdict(cfg, ev, verdict);
            && (phase == Answered <==> verdict == B.FnSucceeded) && (phase == Answered ==> ev.world.pdp.Decided?)
            && out.state.breaker == b
            && (if phase == Answered then
                  && out.response == PdpResponse(ev)
                  && out.state.cache == Cached(cfg, v.cache, ev.world, KeyOf(cfg, ev), PdpResponse(ev))
                else phase == Done(out.response) && out.state.cache == v.cache)
  {
  }

  /** A call past the guard, to its end. */
  lemma ConsultAlone(cfg: Config, calls: Calls, s: System, c: Caller) returns (steps: seq<Step>, t: System)
    requires At(s, c, Past) && IsPolicyCall(calls(c)) && c !in s.inner.callers
    ensures Leads(cfg, calls, s, steps, t)
    ensures var ev := calls(c);
            var out := Consult(cfg, View(s), ev.world, KeyOf(cfg, ev), QueryFor(cfg, ev));
            && View(t) == out.state && t.inner.callers == s.inner.callers
            && t.phases == s.phases[c := Done(out.response)]
  {
    steps, t := UpToAnswer(cfg, calls, s, c);
    ConsultByVerdict(cfg, View(s), calls(c));
    if At(t, c, Answered) {
      var rest, u := StoreAlone(cfg, calls, t, c);
      steps := Joined(cfg, calls, s, steps, t, rest, u);
      t := u;
    }
  }

  lemma Joined(cfg: Config, calls: Calls, s: System, a: seq<Step>, t: System, b: seq<Step>, u: System)
    returns (both: seq<Step>)
    requires Leads(cfg, calls, s, a, t) && Leads(cfg, calls, t, b, u)
    ensures Leads(cfg, calls, s, both, u)
    decreases |b|
  {
    if b == [] {
      both := a;
    } else {
      both := Joined(cfg, calls, s, a, t, Init(b), AfterSteps(cfg, calls, t, Init(b)));
      both := Then(cfg, calls, s, both, AfterSteps(cfg, calls, t, Init(b)), Last(b));
    }
  }

  /** A call from the guard to its end. */
  lemma FromGuard(cfg: Config, calls: Calls, s: System, c: Caller) returns (steps: seq<Step>, t: System)
    requires At(s, c, Missed) && IsPolicyCall(calls(c)) && c !in s.inner.callers
    ensures Leads(cfg, calls, s, steps, t)
    ensures var out := AfterMiss(cfg, View(s), calls(c));
            && View(t) == out.state && t.inner.callers == s.inner.callers
            && t.phases == s.phases[c := Done(out.response)]
  {
    steps := Then(cfg, calls, s, [], s, Guard(c));
    t := Next(cfg, calls, s, Guard(c));
    if At(t, c, Past) {
      var rest, u := ConsultAlone(cfg, calls, t, c);
      steps := Joined(cfg, calls, s, steps, t, rest, u);
      t := u;
    }
  }

  /**
   A call that runs alone, from any state of the concurrent service, gives the response and leaves the
   cache and the breaker that the serial decision function says, and changes nothing else.
   */
  lemma AloneIsDecide(cfg: Config, calls: Calls, s: System, c: Caller) returns (steps: seq<Step>, t: System)
    requires c !in s.phases && c !in s.inner.callers
    ensures Leads(cfg, calls, s, steps, t)
    ensures var out := Decide(cfg, View(s), calls(c).req, calls(c).world);
            && View(t) == out.state && t.inner.callers == s.inner.callers
            && t.phases == s.phases[c := Done(out.response)]
  {
    steps, t := UpToGuard(cfg, calls, s, c);
    if !IsPolicyCall(calls(c)) || IsHit(cfg, View(s), calls(c)) {
      DecideEarly(cfg, View(s), calls(c));
    } else {
      DecideOnMiss(cfg, View(s), calls(c));
      var rest, u := FromGuard(cfg, calls, t, c);
      steps := Joined(cfg, calls, s, steps, t, rest, u);
      t := u;
    }
  }
}
