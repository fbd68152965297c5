/**
 Which half-open periods may begin before the recovery time has passed.  The check and the half-open
 transition of Execute take the lock separately, so a caller admitted before the breaker opened probes it
 without having waited.
 */
module BreakerWait {
  import opened Breaker
  import opened BreakerRuns
  import opened BreakerOvershoot

  /** Step i is the check that admitted caller c, the last one it made. */
  ghost predicate AdmittedAt(cfg: Config, start: int, steps: seq<Step>, c: Caller, i: int) {
    && 0 <= i < |steps| && steps[i].Check? && steps[i].c == c
    && IsRun(cfg, start, steps[..i]) && Admits(cfg, After(cfg, start, steps[..i]).b, steps[i].now)
    && forall j | i < j < |steps| && steps[j].Check? :: steps[j].c != c
  }

  /** Every caller past the check was admitted by one. */
  lemma {:induction false} WasAdmitted(cfg: Config, start: int, steps: seq<Step>, c: Caller) returns (i: int)
    requires IsRun(cfg, start, steps)
    requires c in After(cfg, start, steps).callers && After(cfg, start, steps).callers[c] == Admitted
    ensures AdmittedAt(cfg, start, steps, c, i)
  {
    var init, last := Init(steps), Last(steps);
    if last.Check? && last.c == c {
      i := |steps| - 1;
    } else {
      i := WasAdmitted(cfg, start, init, c);
      assert steps[..i] == init[..i];
    }
  }

  /** The last step of the run begins a half-open period. */
  ghost predicate BeginsProbing(cfg: Config, start: int, steps: seq<Step>) {
    && steps != [] && IsRun(cfg, start, steps)
    && After(cfg, start, Init(steps)).b.state != HalfOpen && After(cfg, start, steps).b.state == HalfOpen
  }

  /**
   In every interleaving a half-open period begins with the probe of a caller that either found the
   breaker open when it was checked, recoveryTime after the failure last recorded then, or was checked
   before the breaker opened.
   */
  lemma ProbedAfterWaitOrByStraggler(cfg: Config, start: int, steps: seq<Step>) returns (i: int)
    requires BeginsProbing(cfg, start, steps)
    ensures Last(steps).Probe? && AdmittedAt(cfg, start, Init(steps), Last(steps).c, i)
    ensures After(cfg, start, Init(steps)).b.state == Open
    ensures After(cfg, start, Init(steps)[..i]).b.state == Open ==>
              Init(steps)[i].now - LastFailureAt(start, Init(steps)[..i]) >= cfg.recoveryTime
  {
    i := WasAdmitted(cfg, start, Init(steps), Last(steps).c);
    FieldsMean(cfg, start, Init(steps)[..i]);
  }

  /** A run of callers, in no time, to this breaker and these callers. */
  ghost predicate AtOnce(cfg: Config, start: int, steps: seq<Step>, b: Status, callers: map<Caller, Phase>) {
    && IsRun(cfg, start, steps) && NoAdmin(steps) && AllAt(steps, start)
    && After(cfg, start, steps).b == b && After(cfg, start, steps).callers == callers
  }

  lemma Extends(cfg: Config, start: int, steps: seq<Step>, step: Step, b: Status, callers: map<Caller, Phase>)
    requires AtOnce(cfg, start, steps, b, callers)
    requires Enabled(After(cfg, start, steps), step) && NoAdmin([step]) && AllAt([step], start)
    ensures var t := Next(cfg, After(cfg, start, steps), step);
            AtOnce(cfg, start, steps + [step], t.b, t.callers)
  {
    assert step == [step][0];
    assert Init(steps + [step]) == steps;
  }

  /** Two callers are admitted, and the second goes on. */
  lemma AdmitTwo(cfg: Config, start: int, before: seq<Step>, b: Status) returns (steps: seq<Step>)
    requires AtOnce(cfg, start, before, b, map[]) && b.state == Closed
    ensures AtOnce(cfg, start, steps, b, map[0 := Admitted, 1 := Ready])
  {
    Extends(cfg, start, before, Check(0, start), b, map[]);
    steps := before + [Check(0, start)];
    Extends(cfg, start, steps, Check(1, start), b, map[0 := Admitted]);
    steps := steps + [Check(1, start)];
    Extends(cfg, start, steps, Probe(1), b, map[0 := Admitted, 1 := Admitted]);
    steps := steps + [Probe(1)];
  }

  /** The second caller's function fails. */
  lemma FailSecond(cfg: Config, start: int, before: seq<Step>, b: Status) returns (steps: seq<Step>)
    requires AtOnce(cfg, start, before, b, map[0 := Admitted, 1 := Ready]) && b.state == Closed
    ensures AtOnce(cfg, start, steps, Failed(cfg, Requested(b), start), map[0 := Admitted])
  {
    Extends(cfg, start, before, Record(1), b, map[0 := Admitted, 1 := Ready]);
    steps := before + [Record(1)];
    assert map[0 := Admitted, 1 := Ready][1 := Running(0)] == map[0 := Admitted, 1 := Running(0)];
    Extends(cfg, start, steps, Finish(1, true, start), Requested(b), map[0 := Admitted, 1 := Running(0)]);
    steps := steps + [Finish(1, true, start)];
    assert map[0 := Admitted, 1 := Running(0)] - {1} == map[0 := Admitted];
  }

  /**
   The second way is real: for every configuration there is a run of callers that trips the breaker and
   begins a half-open period at the very same time, whatever the recovery time.
   */
  lemma ProbedAtOnce(cfg: Config, start: int) returns (steps: seq<Step>)
    requires cfg.failureThreshold >= 1
    ensures BeginsProbing(cfg, start, steps) && NoAdmin(steps) && AllAt(steps, start)
  {
    var b: Status;
    steps, b := FailSome(cfg, start, 1, cfg.failureThreshold - 1);
    steps := AdmitTwo(cfg, start, steps, b);
    steps := FailSecond(cfg, start, steps, b);
    var tripped := steps;
    Extends(cfg, start, tripped, Probe(0), Failed(cfg, Requested(b), start), map[0 := Admitted]);
    steps := tripped + [Probe(0)];
    assert Init(steps) == tripped;
  }
}
