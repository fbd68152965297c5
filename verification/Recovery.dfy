/**
 Recovery of the breaker as Authorize uses it, under concurrent requests.  Authorize first asks IsOpen
 and calls Execute only if the answer was no, so an open breaker can be probed only by a straggler: a
 request that passed that guard before the breaker opened.
 */
module Recovery {
  import opened Breaker
  import opened BreakerRuns

  /** The breaker with its callers, and the requests past the guard that have not called Execute yet. */
  datatype Guarded = Guarded(inner: System, past: set<Caller>)

  datatype Move = Guard(c: Caller) | Inner(step: Step)

  /** Requests only ever enter Execute through the guard; nothing here administers the breaker. */
  predicate CanMove(g: Guarded, m: Move) {
    match m
    case Guard(c) => c !in g.past && c !in g.inner.callers
    case Inner(step) =>
      && Enabled(g.inner, step) && !step.Force? && !step.Reset?
      && (step.Check? ==> step.c in g.past)
  }

  function Moved(cfg: Config, g: Guarded, m: Move): Guarded
    requires CanMove(g, m)
  {
    match m
    case Guard(c) => if g.inner.b.state == Open then g else g.(past := g.past + {c})
    case Inner(step) =>
      Guarded(Next(cfg, g.inner, step), if step.Check? then g.past - {step.c} else g.past)
  }

  predicate IsPath(cfg: Config, g: Guarded, ms: seq<Move>)
    decreases |ms|
  {
    ms == [] || (CanMove(g, ms[0]) && IsPath(cfg, Moved(cfg, g, ms[0]), ms[1..]))
  }

  function EndOf(cfg: Config, g: Guarded, ms: seq<Move>): Guarded
    requires IsPath(cfg, g, ms)
    decreases |ms|
  {
    if ms == [] then g else EndOf(cfg, Moved(cfg, g, ms[0]), ms[1..])
  }

  /** A request past the guard has not called Execute yet. */
  ghost predicate Separate(g: Guarded) {
    forall c <- g.past :: c !in g.inner.callers
  }

  function Fresh(start: int): Guarded {
    Guarded(System(New(start), map[], 0), {})
  }

  lemma {:induction false} PathKeepsSeparate(cfg: Config, g: Guarded, ms: seq<Move>)
    requires Separate(g) && IsPath(cfg, g, ms)
    ensures Separate(EndOf(cfg, g, ms))
    decreases |ms|
  {
    if ms == [] {
    } else {
      PathKeepsSeparate(cfg, Moved(cfg, g, ms[0]), ms[1..]);
    }
  }

  /** A request that passed the guard, or Execute's own check, and has not reached the probe yet. */
  ghost predicate HasStraggler(g: Guarded) {
    g.past != {} || exists c :: c in g.inner.callers && g.inner.callers[c] == Admitted
  }

  /**
   Once the breaker is open and no straggler is left, it stays open in every interleaving of any number
   of further requests, at any time.
   */
  lemma {:induction false} OpenWithoutStragglersIsForever(cfg: Config, g: Guarded, ms: seq<Move>)
    requires g.inner.b.state == Open && !HasStraggler(g) && IsPath(cfg, g, ms)
    ensures EndOf(cfg, g, ms).inner.b.state == Open && !HasStraggler(EndOf(cfg, g, ms))
    decreases |ms|
  {
    if ms == [] {
    } else {
      OpenWithoutStragglersIsForever(cfg, Moved(cfg, g, ms[0]), ms[1..]);
    }
  }

  /** An admitted caller probes the breaker and, succeeding, closes it. */
  lemma AdmittedRecovers(cfg: Config, g: Guarded, c: Caller) returns (ms: seq<Move>)
    requires g.inner.b.state == Open && c in g.inner.callers && g.inner.callers[c] == Admitted
    ensures IsPath(cfg, g, ms) && EndOf(cfg, g, ms).inner.b.state == Closed
  {
    var m1, m2, m3 := Inner(Probe(c)), Inner(Record(c)), Inner(Finish(c, false, 0));
    var g1 := Moved(cfg, g, m1);
    var g2 := Moved(cfg, g1, m2);
    ms := Before(cfg, g2, m3, []);
    ms := Before(cfg, g1, m2, ms);
    ms := Before(cfg, g, m1, ms);
  }

  lemma Before(cfg: Config, g: Guarded, m: Move, ms: seq<Move>) returns (all: seq<Move>)
    requires CanMove(g, m) && IsPath(cfg, Moved(cfg, g, m), ms)
    ensures IsPath(cfg, g, all) && EndOf(cfg, g, all) == EndOf(cfg, Moved(cfg, g, m), ms)
  {
    all := [m] + ms;
    assert all[1..] == ms;
  }

  /**
   When an open breaker can recover: exactly when a straggler is left.  A request held up between the
   guard and Execute until recoveryTime after the failure is enough; no later request ever is.
   */
  lemma RecoversIffStraggler(cfg: Config, g: Guarded)
    requires g.inner.b.state == Open && Separate(g)
    ensures (exists ms :: IsPath(cfg, g, ms) && EndOf(cfg, g, ms).inner.b.state != Open) <==> HasStraggler(g)
  {
    if HasStraggler(g) {
      if c :| c in g.inner.callers && g.inner.callers[c] == Admitted {
        var ms := AdmittedRecovers(cfg, g, c);
      } else {
        var c :| c in g.past;
        var check := Inner(Check(c, g.inner.b.lastFailureTime + cfg.recoveryTime));
        var ms := AdmittedRecovers(cfg, Moved(cfg, g, check), c);
        ms := Before(cfg, g, check, ms);
      }
    } else {
      forall ms | IsPath(cfg, g, ms) ensures EndOf(cfg, g, ms).inner.b.state == Open {
        OpenWithoutStragglersIsForever(cfg, g, ms);
      }
    }
  }

  /** So it is in every state that requests can bring a new breaker to. */
  lemma ReachableRecoversIffStraggler(cfg: Config, start: int, before: seq<Move>)
    requires IsPath(cfg, Fresh(start), before) && EndOf(cfg, Fresh(start), before).inner.b.state == Open
    ensures var g := EndOf(cfg, Fresh(start), before);
            (exists ms :: IsPath(cfg, g, ms) && EndOf(cfg, g, ms).inner.b.state != Open) <==> HasStraggler(g)
  {
    PathKeepsSeparate(cfg, Fresh(start), before);
    RecoversIffStraggler(cfg, EndOf(cfg, Fresh(start), before));
  }
}
