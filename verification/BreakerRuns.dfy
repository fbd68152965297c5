/**
 The breaker under concurrent callers.  Execute takes its lock four separate times; this transition
 system lets any number of callers, and the administrative calls, interleave between them.
 */
module BreakerRuns {
  import opened Breaker

  type Caller = nat

  /**
   Where a caller of Execute is: past the admission check, past the half-open transition, or running
   its function.  A running caller remembers the half-open period it was recorded in (0 for none).
   */
  datatype Phase = Admitted | Ready | Running(period: nat)

  /** The breaker, its callers, and how many half-open periods have begun. */
  datatype System = System(b: Status, callers: map<Caller, Phase>, periods: nat)

  datatype Step =
    | Check(c: Caller, now: int)
    | Probe(c: Caller)
    | Record(c: Caller)
    | Finish(c: Caller, fails: bool, now: int)
    | Force(open: bool)
    | Reset

  predicate Enabled(s: System, step: Step) {
    match step
    case Check(c, _) => c !in s.callers
    case Probe(c) => c in s.callers && s.callers[c] == Admitted
    case Record(c) => c in s.callers && s.callers[c] == Ready
    case Finish(c, _, _) => c in s.callers && s.callers[c].Running?
    case Force(_) => true
    case Reset => true
  }

  function Next(cfg: Config, s: System, step: Step): System
    requires Enabled(s, step)
  {
    match step
    case Check(c, now) =>
      if Admits(cfg, s.b, now) then s.(callers := s.callers[c := Admitted]) else s
    case Probe(c) =>
      System(StartProbing(s.b), s.callers[c := Ready], if s.b.state == Open then s.periods + 1 else s.periods)
    case Record(c) =>
      System(Requested(s.b), s.callers[c := Running(if s.b.state == HalfOpen then s.periods else 0)], s.periods)
    case Finish(c, fails, now) =>
      System(if fails then Failed(cfg, s.b, now) else Succeeded(s.b), s.callers - {c}, s.periods)
    case Force(open) => s.(b := if open then ToOpen(s.b) else ToClosed(s.b))
    case Reset => s.(b := WasReset())
  }

  /** A run: every step enabled in the state the steps before it lead to. */
  predicate IsRun(cfg: Config, start: int, steps: seq<Step>)
    decreases |steps|, 0
  {
    steps == [] ||
    (IsRun(cfg, start, Init(steps)) && Enabled(After(cfg, start, Init(steps)), Last(steps)))
  }

  function After(cfg: Config, start: int, steps: seq<Step>): System
    requires IsRun(cfg, start, steps)
    decreases |steps|, 1
  {
    if steps == [] then System(New(start), map[], 0)
    else Next(cfg, After(cfg, start, Init(steps)), Last(steps))
  }

  function Init(steps: seq<Step>): seq<Step>
    requires steps != []
  {
    steps[..|steps| - 1]
  }

  function Last(steps: seq<Step>): Step
    requires steps != []
  {
    steps[|steps| - 1]
  }

  // ---------------------------------------------------------------- groups of callers

  /** The callers now running that were recorded in half-open period p. */
  function RecordedIn(s: System, p: nat): set<Caller> {
    set c | c in s.callers && s.callers[c] == Running(p)
  }

  function InFlight(s: System): set<Caller> {
    set c | c in s.callers && s.callers[c].Running?
  }

  /** The callers between the admission check and the request record. */
  function Between(s: System): set<Caller> {
    set c | c in s.callers && !s.callers[c].Running?
  }

  // ---------------------------------------------------------------- what every step keeps

  ghost predicate Invariant(s: System) {
    && (forall c | c in s.callers && s.callers[c].Running? :: s.callers[c].period <= s.periods)
    && (s.b.state == HalfOpen ==>
          s.periods >= 1 && s.b.halfOpenRequests == |RecordedIn(s, s.periods)|)
  }

  /** Only a record, and the end of a recorded call, change the group of a half-open period. */
  lemma GroupStays(cfg: Config, s: System, step: Step, p: nat)
    requires Enabled(s, step) && !step.Record? && !step.Finish?
    ensures RecordedIn(Next(cfg, s, step), p) == RecordedIn(s, p)
  {
  }

  lemma RecordJoinsGroup(cfg: Config, s: System, c: Caller)
    requires Enabled(s, Record(c)) && s.b.state == HalfOpen
    ensures |RecordedIn(Next(cfg, s, Record(c)), s.periods)| == |RecordedIn(s, s.periods)| + 1
  {
    assert RecordedIn(Next(cfg, s, Record(c)), s.periods) == RecordedIn(s, s.periods) + {c};
  }

  lemma StepKeepsInvariant(cfg: Config, s: System, step: Step)
    requires Invariant(s) && Enabled(s, step)
    ensures Invariant(Next(cfg, s, step))
  {
    if step.Record? {
      if s.b.state == HalfOpen { RecordJoinsGroup(cfg, s, step.c); }
    } else if !step.Finish? {
      GroupStays(cfg, s, step, s.periods);
      if step.Probe? && s.b.state == Open { assert RecordedIn(Next(cfg, s, step), s.periods + 1) == {}; }
    }
  }

  lemma {:induction false} RunKeepsInvariant(cfg: Config, start: int, steps: seq<Step>)
    requires IsRun(cfg, start, steps)
    ensures Invariant(After(cfg, start, steps))
  {
    if steps == [] {
    } else {
      RunKeepsInvariant(cfg, start, Init(steps));
      StepKeepsInvariant(cfg, After(cfg, start, Init(steps)), Last(steps));
    }
  }

  /**
   Half-open never wedges: in every interleaving, the half-open count is the number of callers
   recorded in this half-open period that are still running, so a refused call means that at least
   halfOpenMaxRequests callers are in flight, and with none in flight the next call is admitted.
   */
  lemma NeverWedges(cfg: Config, start: int, steps: seq<Step>, now: int)
    requires IsRun(cfg, start, steps) && After(cfg, start, steps).b.state == HalfOpen
    ensures var s := After(cfg, start, steps);
            && s.b.halfOpenRequests == |RecordedIn(s, s.periods)|
            && (!Admits(cfg, s.b, now) ==> |InFlight(s)| >= cfg.halfOpenMaxRequests)
            && (cfg.halfOpenMaxRequests >= 1 && InFlight(s) == {} ==> Admits(cfg, s.b, now))
  {
    var s := After(cfg, start, steps);
    RunKeepsInvariant(cfg, start, steps);
    SubsetSize(RecordedIn(s, s.periods), InFlight(s));
  }

  lemma {:induction false} SubsetSize(a: set<Caller>, b: set<Caller>)
    requires a <= b
    ensures |a| <= |b|
  {
    assert b == a + (b - a);
  }

  /** Whichever way a caller's function ends, the half-open period is over. */
  lemma CompletionEndsProbing(cfg: Config, s: System, c: Caller, fails: bool, now: int)
    requires Enabled(s, Finish(c, fails, now))
    ensures Next(cfg, s, Finish(c, fails, now)).b.state != HalfOpen
    ensures s.b.state == HalfOpen ==>
              Next(cfg, s, Finish(c, fails, now)).b.state == if fails then Open else Closed
  {
  }

  // ---------------------------------------------------------------- overshoot of the half-open limit

  /** No state of the run has more than w callers between the check and the record. */
  predicate BetweenAtMost(cfg: Config, start: int, steps: seq<Step>, w: nat)
    requires IsRun(cfg, start, steps)
  {
    && |Between(After(cfg, start, steps))| <= w
    && (steps == [] || BetweenAtMost(cfg, start, Init(steps), w))
  }

  ghost predicate Bounded(cfg: Config, s: System, w: nat) {
    s.b.state == HalfOpen ==> s.b.halfOpenRequests + |Between(s)| <= cfg.halfOpenMaxRequests - 1 + w
  }

  lemma StepKeepsBound(cfg: Config, s: System, step: Step, w: nat)
    requires cfg.halfOpenMaxRequests >= 1 && Enabled(s, step) && Bounded(cfg, s, w)
    requires |Between(Next(cfg, s, step))| <= w
    ensures Bounded(cfg, Next(cfg, s, step), w)
  {
    var t := Next(cfg, s, step);
    match step
    case Check(c, now) =>
    case Probe(c) => assert Between(t) == Between(s);
    case Record(c) => assert Between(s) == Between(t) + {c};
    case Finish(c, fails, now) =>
    case Force(open) =>
    case Reset =>
  }

  /**
   If at most w callers are ever between the check and the record, the half-open count never passes
   halfOpenMaxRequests - 1 + w; serial callers (w = 1) respect the limit exactly.
   */
  lemma {:induction false} Overshoot(cfg: Config, start: int, steps: seq<Step>, w: nat)
    requires cfg.halfOpenMaxRequests >= 1
    requires IsRun(cfg, start, steps) && BetweenAtMost(cfg, start, steps, w)
    ensures Bounded(cfg, After(cfg, start, steps), w)
    ensures After(cfg, start, steps).b.state == HalfOpen ==>
              After(cfg, start, steps).b.halfOpenRequests <= cfg.halfOpenMaxRequests - 1 + w
  {
    if steps == [] {
    } else {
      Overshoot(cfg, start, Init(steps), w);
      StepKeepsBound(cfg, After(cfg, start, Init(steps)), Last(steps), w);
    }
  }

  // ---------------------------------------------------------------- accounting

  /** Functions that succeeded since the last Reset. */
  function Successes(steps: seq<Step>): nat {
    if steps == [] || Last(steps) == Reset then 0
    else Successes(Init(steps)) + if Last(steps).Finish? && !Last(steps).fails then 1 else 0
  }

  /** Actual changes of state since the last Reset. */
  function Changes(cfg: Config, start: int, steps: seq<Step>): nat
    requires IsRun(cfg, start, steps)
  {
    if steps == [] || Last(steps) == Reset then 0
    else
      Changes(cfg, start, Init(steps)) +
      if After(cfg, start, Init(steps)).b.state != After(cfg, start, steps).b.state then 1 else 0
  }

  /** Callers that were already running at the last Reset, whose requests it forgot. */
  function Forgotten(cfg: Config, start: int, steps: seq<Step>): nat
    requires IsRun(cfg, start, steps)
  {
    if steps == [] then 0
    else if Last(steps) == Reset then |InFlight(After(cfg, start, Init(steps)))|
    else Forgotten(cfg, start, Init(steps))
  }

  lemma OneMoreInFlight(s: System, t: System, c: Caller, p: nat)
    requires c !in InFlight(s) && t.callers == s.callers[c := Running(p)]
    ensures |InFlight(t)| == |InFlight(s)| + 1
  {
    assert InFlight(t) == InFlight(s) + {c};
  }

  lemma OneLessInFlight(s: System, t: System, c: Caller)
    requires c in InFlight(s) && t.callers == s.callers - {c}
    ensures |InFlight(t)| == |InFlight(s)| - 1
  {
    assert InFlight(t) == InFlight(s) - {c};
  }

  lemma InFlightChanges(cfg: Config, s: System, step: Step)
    requires Enabled(s, step)
    ensures |InFlight(Next(cfg, s, step))| ==
            |InFlight(s)| + if step.Record? then 1 else if step.Finish? then -1 else 0
  {
    var t := Next(cfg, s, step);
    match step
    case Check(c, _) => assert InFlight(t) == InFlight(s);
    case Probe(c) => assert InFlight(t) == InFlight(s);
    case Record(c) => OneMoreInFlight(s, t, c, if s.b.state == HalfOpen then s.periods else 0);
    case Finish(c, _, _) => OneLessInFlight(s, t, c);
    case Force(_) =>
    case Reset =>
  }

  /**
   Conservation, in every interleaving: every recorded request (and every one a Reset forgot) has
   failed, has succeeded or is still running; and stateChanges counts the actual changes of state.
   */
  lemma {:induction false} Accounting(cfg: Config, start: int, steps: seq<Step>)
    requires IsRun(cfg, start, steps)
    ensures var s := After(cfg, start, steps);
            && s.b.totalRequests + Forgotten(cfg, start, steps)
               == s.b.totalFailures + Successes(steps) + |InFlight(s)|
            && s.b.stateChanges == Changes(cfg, start, steps)
  {
    if steps == [] {
    } else {
      Accounting(cfg, start, Init(steps));
      InFlightChanges(cfg, After(cfg, start, Init(steps)), Last(steps));
    }
  }

  // ---------------------------------------------------------------- what the fields mean

  /** The clock reading of the last failure of the run: the start, if none, and the zero time after a Reset. */
  function LastFailureAt(start: int, steps: seq<Step>): int {
    if steps == [] then start
    else if Last(steps).Reset? then ZERO_TIME
    else if Last(steps).Finish? && Last(steps).fails then Last(steps).now
    else LastFailureAt(start, Init(steps))
  }

  /** Failures of the run since its last success, Reset or closing. */
  function RecentFailures(cfg: Config, start: int, steps: seq<Step>): nat
    requires IsRun(cfg, start, steps)
  {
    if steps == [] || Last(steps).Reset? then 0
    else if Last(steps).Finish? then
      if Last(steps).fails then RecentFailures(cfg, start, Init(steps)) + 1 else 0
    else if After(cfg, start, Init(steps)).b.state != Closed && After(cfg, start, steps).b.state == Closed then 0
    else RecentFailures(cfg, start, Init(steps))
  }

  /** Requests recorded half-open since the last success, Reset or beginning of a half-open period. */
  function HalfOpenRecorded(cfg: Config, start: int, steps: seq<Step>): nat
    requires IsRun(cfg, start, steps)
  {
    if steps == [] || Last(steps).Reset? || (Last(steps).Finish? && !Last(steps).fails) then 0
    else
      var before := After(cfg, start, Init(steps)).b.state;
      if before != HalfOpen && After(cfg, start, steps).b.state == HalfOpen then 0
      else HalfOpenRecorded(cfg, start, Init(steps)) + if Last(steps).Record? && before == HalfOpen then 1 else 0
  }

  /** Failures of the run since the last Reset. */
  function AllFailures(steps: seq<Step>): nat {
    if steps == [] || Last(steps).Reset? then 0
    else AllFailures(Init(steps)) + if Last(steps).Finish? && Last(steps).fails then 1 else 0
  }

  lemma {:induction false} FailureFieldsMean(cfg: Config, start: int, steps: seq<Step>)
    requires IsRun(cfg, start, steps)
    ensures var b := After(cfg, start, steps).b;
            && b.lastFailureTime == LastFailureAt(start, steps)
            && b.totalFailures == AllFailures(steps) && b.totalTimeouts == 0
  {
    if steps == [] {
    } else {
      FailureFieldsMean(cfg, start, Init(steps));
    }
  }

  lemma {:induction false} FailureCountMeans(cfg: Config, start: int, steps: seq<Step>)
    requires IsRun(cfg, start, steps)
    ensures After(cfg, start, steps).b.failureCount == RecentFailures(cfg, start, steps)
  {
    if steps == [] {
    } else {
      FailureCountMeans(cfg, start, Init(steps));
    }
  }

  lemma {:induction false} HalfOpenCountMeans(cfg: Config, start: int, steps: seq<Step>)
    requires IsRun(cfg, start, steps)
    ensures After(cfg, start, steps).b.halfOpenRequests == HalfOpenRecorded(cfg, start, steps)
  {
    if steps == [] {
    } else {
      HalfOpenCountMeans(cfg, start, Init(steps));
    }
  }

  /**
   In every interleaving, in every state: lastFailureTime is when the last failure was recorded, whether the
   breaker was closed, half-open or open then; failureCount counts the failures since the last success, Reset
   or closing; halfOpenRequests counts the requests recorded half-open; totalFailures counts all failures; and no
   timeout is ever counted.
   */
  lemma FieldsMean(cfg: Config, start: int, steps: seq<Step>)
    requires IsRun(cfg, start, steps)
    ensures var b := After(cfg, start, steps).b;
            && b.lastFailureTime == LastFailureAt(start, steps)
            && b.failureCount == RecentFailures(cfg, start, steps)
            && b.halfOpenRequests == HalfOpenRecorded(cfg, start, steps)
            && b.totalFailures == AllFailures(steps) && b.totalTimeouts == 0
  {
    FailureFieldsMean(cfg, start, steps);
    FailureCountMeans(cfg, start, steps);
    HalfOpenCountMeans(cfg, start, steps);
  }

  /**
   So an open breaker admits a caller exactly when recoveryTime has passed since the last failure of all, even
   one of a call that was still running when the breaker opened.
   */
  lemma OpenAdmitsAfterLastFailure(cfg: Config, start: int, steps: seq<Step>, now: int)
    requires IsRun(cfg, start, steps) && After(cfg, start, steps).b.state == Open
    ensures Admits(cfg, After(cfg, start, steps).b, now) <==> now - LastFailureAt(start, steps) >= cfg.recoveryTime
  {
    FieldsMean(cfg, start, steps);
  }

  /** In every interleaving, a closed breaker has seen fewer than failureThreshold failures. */
  lemma {:induction false} ClosedBelowThreshold(cfg: Config, start: int, steps: seq<Step>)
    requires cfg.failureThreshold >= 1 && IsRun(cfg, start, steps)
    ensures var b := After(cfg, start, steps).b;
            b.state == Closed ==> b.failureCount < cfg.failureThreshold
  {
    if steps == [] {
    } else {
      ClosedBelowThreshold(cfg, start, Init(steps));
    }
  }
}
