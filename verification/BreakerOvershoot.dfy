/**
 The overshoot bound is exact: for every limit and every w there is an interleaving with at most w
 callers between the check and the record that drives the half-open count to the bound, without any
 administrative call.
 */
module BreakerOvershoot {
  import opened Breaker
  import opened BreakerRuns

  /** Callers 0..n-1 are running, callers n..n+k-1 are admitted, and nobody else is there. */
  ghost predicate Shape(s: System, n: nat, k: nat) {
    && (forall c: Caller :: c in s.callers <==> c < n + k)
    && (forall c: Caller | c < n :: s.callers[c].Running?)
    && (forall c: Caller | n <= c < n + k :: s.callers[c] == Admitted)
  }

  /** The first n callers have been recorded in the first half-open period, if it has begun. */
  ghost predicate OnTheWay(start: int, s: System, n: nat, k: nat) {
    && Shape(s, n, k)
    && (if n == 0 then s.b.state == Open && s.b.lastFailureTime == start
        else s.b.state == HalfOpen && s.b.halfOpenRequests == n)
  }

  /** The run consists of callers only. */
  predicate NoAdmin(steps: seq<Step>) {
    forall i | 0 <= i < |steps| :: !steps[i].Force? && !steps[i].Reset?
  }

  ghost predicate Reaches(cfg: Config, start: int, steps: seq<Step>, w: nat, n: nat, k: nat) {
    && IsRun(cfg, start, steps) && BetweenAtMost(cfg, start, steps, w) && NoAdmin(steps)
    && OnTheWay(start, After(cfg, start, steps), n, k)
  }

  lemma {:induction false} RangeSize(n: nat, k: nat, r: set<Caller>)
    requires forall c: Caller :: c in r <==> n <= c < n + k
    ensures |r| == k
  {
    if k == 0 {
      assert r == {};
    } else {
      RangeSize(n, k - 1, r - {n + k - 1});
    }
  }

  lemma BetweenSize(s: System, n: nat, k: nat)
    requires Shape(s, n, k)
    ensures |Between(s)| == k
  {
    RangeSize(n, k, Between(s));
  }

  lemma Snoc(cfg: Config, start: int, steps: seq<Step>, step: Step, w: nat)
    requires IsRun(cfg, start, steps) && BetweenAtMost(cfg, start, steps, w)
    requires Enabled(After(cfg, start, steps), step)
    requires |Between(Next(cfg, After(cfg, start, steps), step))| <= w
    ensures IsRun(cfg, start, steps + [step]) && BetweenAtMost(cfg, start, steps + [step], w)
    ensures After(cfg, start, steps + [step]) == Next(cfg, After(cfg, start, steps), step)
  {
  }

  /** One more caller is admitted once the recovery time has passed. */
  lemma AdmitOne(cfg: Config, start: int, steps: seq<Step>, w: nat, n: nat, k: nat) returns (more: seq<Step>)
    requires Reaches(cfg, start, steps, w, n, k) && n < cfg.halfOpenMaxRequests && k < w
    ensures Reaches(cfg, start, more, w, n, k + 1)
  {
    var step := Check(n + k, start + cfg.recoveryTime);
    var t := Next(cfg, After(cfg, start, steps), step);
    assert Shape(t, n, k + 1);
    BetweenSize(t, n, k + 1);
    Snoc(cfg, start, steps, step, w);
    more := steps + [step];
  }

  /** The first admitted caller is recorded, opening the half-open period if need be. */
  lemma RecordOne(cfg: Config, start: int, steps: seq<Step>, w: nat, n: nat, k: nat) returns (more: seq<Step>)
    requires Reaches(cfg, start, steps, w, n, k) && 0 < k
    ensures Reaches(cfg, start, more, w, n + 1, k - 1)
  {
    var s := After(cfg, start, steps);
    var t := Next(cfg, s, Probe(n));
    assert Between(t) == Between(s);
    Snoc(cfg, start, steps, Probe(n), w);
    var u := Next(cfg, t, Record(n));
    assert Shape(u, n + 1, k - 1);
    assert Between(u) <= Between(t);
    SubsetSize(Between(u), Between(t));
    Snoc(cfg, start, steps + [Probe(n)], Record(n), w);
    more := steps + [Probe(n)] + [Record(n)];
  }

  lemma {:induction false} AdmitMany(cfg: Config, start: int, steps: seq<Step>, w: nat, n: nat, k: nat)
    returns (more: seq<Step>)
    requires Reaches(cfg, start, steps, w, n, k) && n < cfg.halfOpenMaxRequests && k <= w
    ensures Reaches(cfg, start, more, w, n, w)
    decreases w - k
  {
    more := steps;
    if k >= w {
    } else {
      more := AdmitOne(cfg, start, steps, w, n, k);
      more := AdmitMany(cfg, start, more, w, n, k + 1);
    }
  }

  lemma {:induction false} RecordMany(cfg: Config, start: int, steps: seq<Step>, w: nat, n: nat, k: nat)
    returns (more: seq<Step>)
    requires Reaches(cfg, start, steps, w, n, k)
    ensures Reaches(cfg, start, more, w, n + k, 0)
    decreases k
  {
    more := steps;
    if k == 0 {
    } else {
      more := RecordOne(cfg, start, steps, w, n, k);
      more := RecordMany(cfg, start, more, w, n + 1, k - 1);
    }
  }

  /** Every clock reading of the run is the same. */
  predicate AllAt(steps: seq<Step>, now: int) {
    forall i | 0 <= i < |steps| && (steps[i].Check? || steps[i].Finish?) :: steps[i].now == now
  }

  /** A run of callers, in no time, to a state in which at most one of them is left. */
  ghost predicate Leads(cfg: Config, start: int, steps: seq<Step>, w: nat, b: Status, callers: map<Caller, Phase>) {
    && IsRun(cfg, start, steps) && BetweenAtMost(cfg, start, steps, w) && NoAdmin(steps) && AllAt(steps, start)
    && After(cfg, start, steps).b == b && After(cfg, start, steps).callers == callers
    && callers.Keys <= {0}
  }

  lemma StepAlone(cfg: Config, start: int, steps: seq<Step>, w: nat, step: Step, b: Status,
                  callers: map<Caller, Phase>, b': Status, callers': map<Caller, Phase>)
    requires Leads(cfg, start, steps, w, b, callers) && w >= 1
    requires NoAdmin([step]) && AllAt([step], start)
    requires Enabled(After(cfg, start, steps), step) && callers'.Keys <= {0}
    requires Next(cfg, After(cfg, start, steps), step).b == b'
    requires Next(cfg, After(cfg, start, steps), step).callers == callers'
    ensures Leads(cfg, start, steps + [step], w, b', callers')
  {
    var t := Next(cfg, After(cfg, start, steps), step);
    assert step == [step][0] && Between(t) <= {0};
    SubsetSize(Between(t), {0});
    Snoc(cfg, start, steps, step, w);
  }

  /** One caller goes through Execute alone and its function fails. */
  lemma FailOne(cfg: Config, start: int, steps: seq<Step>, w: nat, b: Status) returns (more: seq<Step>)
    requires Leads(cfg, start, steps, w, b, map[]) && w >= 1 && b.state == Closed
    ensures Leads(cfg, start, more, w, Failed(cfg, Requested(b), start), map[])
  {
    more := EnterAlone(cfg, start, steps, w, b);
    StepAlone(cfg, start, more, w, Record(0), b, map[0 := Ready], Requested(b), map[0 := Running(0)]);
    more := more + [Record(0)];
    assert map[0 := Running(0)] - {0} == map[];
    StepAlone(cfg, start, more, w, Finish(0, true, start), Requested(b), map[0 := Running(0)],
              Failed(cfg, Requested(b), start), map[]);
    more := more + [Finish(0, true, start)];
  }

  lemma EnterAlone(cfg: Config, start: int, steps: seq<Step>, w: nat, b: Status) returns (more: seq<Step>)
    requires Leads(cfg, start, steps, w, b, map[]) && w >= 1 && b.state == Closed
    ensures Leads(cfg, start, more, w, b, map[0 := Ready])
  {
    StepAlone(cfg, start, steps, w, Check(0, start), b, map[], b, map[0 := Admitted]);
    more := steps + [Check(0, start)];
    StepAlone(cfg, start, more, w, Probe(0), b, map[0 := Admitted], b, map[0 := Ready]);
    more := more + [Probe(0)];
  }

  /** k failures in a row, too few to trip the breaker. */
  lemma {:induction false} FailSome(cfg: Config, start: int, w: nat, k: nat) returns (steps: seq<Step>, b: Status)
    requires w >= 1 && (k == 0 || k < cfg.failureThreshold)
    ensures Leads(cfg, start, steps, w, b, map[]) && b.state == Closed && b.failureCount == k
  {
    if k == 0 {
      steps, b := [], New(start);
      assert Between(After(cfg, start, [])) == {};
    } else {
      steps, b := FailSome(cfg, start, w, k - 1);
      steps := FailOne(cfg, start, steps, w, b);
      b := Failed(cfg, Requested(b), start);
    }
  }

  /** The breaker is opened by failures. */
  lemma Trip(cfg: Config, start: int, w: nat) returns (steps: seq<Step>)
    requires w >= 1
    ensures Reaches(cfg, start, steps, w, 0, 0)
  {
    var b: Status;
    steps, b := FailSome(cfg, start, w, if cfg.failureThreshold > 1 then cfg.failureThreshold - 1 else 0);
    steps := FailOne(cfg, start, steps, w, b);
  }

  /** n callers go through one after the other. */
  lemma {:induction false} FillUp(cfg: Config, start: int, w: nat, n: nat) returns (steps: seq<Step>)
    requires n < cfg.halfOpenMaxRequests && w >= 1
    ensures Reaches(cfg, start, steps, w, n, 0)
  {
    if n == 0 {
      steps := Trip(cfg, start, w);
    } else {
      steps := FillUp(cfg, start, w, n - 1);
      steps := AdmitOne(cfg, start, steps, w, n - 1, 0);
      steps := RecordOne(cfg, start, steps, w, n - 1, 1);
    }
  }

  /** The bound of Overshoot is attained. */
  lemma OvershootIsReached(cfg: Config, start: int, w: nat) returns (steps: seq<Step>)
    requires cfg.halfOpenMaxRequests >= 1 && w >= 1
    ensures IsRun(cfg, start, steps) && BetweenAtMost(cfg, start, steps, w) && NoAdmin(steps)
    ensures After(cfg, start, steps).b.state == HalfOpen
    ensures After(cfg, start, steps).b.halfOpenRequests == cfg.halfOpenMaxRequests - 1 + w
  {
    var n := cfg.halfOpenMaxRequests - 1;
    steps := FillUp(cfg, start, w, n);
    steps := AdmitMany(cfg, start, steps, w, n, 0);
    steps := RecordMany(cfg, start, steps, w, n, w);
  }
}
