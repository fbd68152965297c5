/**
 The circuit breaker.  Its state is a value (Status) with one function per locked section, which the
 class below updates in place and which the interleaved model steps through one lock at a time.
 Times are integers (nanoseconds) read by the caller.
 */
module Breaker {

  datatype State = Closed | HalfOpen | Open

  datatype Config = Config(failureThreshold: int, recoveryTime: int, halfOpenMaxRequests: int)

  datatype Status = Status(
    state: State,
    failureCount: int,
    lastFailureTime: int,
    halfOpenRequests: int,
    totalRequests: int,
    totalFailures: int,
    totalTimeouts: int,
    stateChanges: int)

  /** Go's zero time.Time, in nanoseconds of the Unix epoch. */
  const ZERO_TIME := -62135596800 * 1000000000

  // ---------------------------------------------------------------- one function per locked section

  function New(now: int): Status {
    Status(Closed, 0, now, 0, 0, 0, 0, 0)
  }

  predicate Admits(cfg: Config, b: Status, now: int) {
    match b.state
    case Closed => true
    case HalfOpen => b.halfOpenRequests < cfg.halfOpenMaxRequests
    case Open => now - b.lastFailureTime >= cfg.recoveryTime
  }

  function ToOpen(b: Status): Status {
    if b.state != Open then b.(state := Open, stateChanges := b.stateChanges + 1) else b
  }

  function ToHalfOpen(b: Status): Status {
    if b.state != HalfOpen then
      b.(state := HalfOpen, halfOpenRequests := 0, stateChanges := b.stateChanges + 1)
    else b
  }

  function ToClosed(b: Status): Status {
    if b.state != Closed then
      b.(state := Closed, failureCount := 0, stateChanges := b.stateChanges + 1)
    else b
  }

  /** The section of Execute between the check and the request record. */
  function StartProbing(b: Status): Status {
    if b.state == Open then ToHalfOpen(b) else b
  }

  function Requested(b: Status): Status {
    var b1 := b.(totalRequests := b.totalRequests + 1);
    if b1.state == HalfOpen then b1.(halfOpenRequests := b1.halfOpenRequests + 1) else b1
  }

  function Failed(cfg: Config, b: Status, now: int): Status {
    var b1 := b.(failureCount := b.failureCount + 1, totalFailures := b.totalFailures + 1, lastFailureTime := now);
    match b1.state
    case Closed => if b1.failureCount >= cfg.failureThreshold then ToOpen(b1) else b1
    case HalfOpen => ToOpen(b1)
    case Open => b1
  }

  function Succeeded(b: Status): Status {
    var b1 := b.(failureCount := 0, halfOpenRequests := 0);
    if b1.state == HalfOpen then ToClosed(b1) else b1
  }

  function WasReset(): Status {
    Status(Closed, 0, ZERO_TIME, 0, 0, 0, 0, 0)
  }

  // ---------------------------------------------------------------- serial execution

  /** One call of Execute: when it is checked, whether its function fails, and when that ends. */
  datatype Call = Call(now: int, fails: bool, doneAt: int)

  datatype Verdict = Rejected | FnFailed | FnSucceeded

  function Executed(cfg: Config, b: Status, call: Call): (Status, Verdict) {
    if !Admits(cfg, b, call.now) then (b, Rejected)
    else
      var running := Requested(StartProbing(b));
      if call.fails then (Failed(cfg, running, call.doneAt), FnFailed)
      else (Succeeded(running), FnSucceeded)
  }

  // ---------------------------------------------------------------- the object

  class Breaker {
    const config: Config
    var state: State
    var failureCount: int
    var lastFailureTime: int
    var halfOpenRequests: int
    var totalRequests: int
    var totalFailures: int
    var totalTimeouts: int
    var stateChanges: int

    function Value(): Status
      reads this
    {
      Status(state, failureCount, lastFailureTime, halfOpenRequests,
             totalRequests, totalFailures, totalTimeouts, stateChanges)
    }

    constructor (config: Config, now: int)
      ensures this.config == config && Value() == New(now)
    {
      this.config := config;
      state, failureCount, lastFailureTime, halfOpenRequests := Closed, 0, now, 0;
      totalRequests, totalFailures, totalTimeouts, stateChanges := 0, 0, 0, 0;
    }

    method CanExecute(now: int) returns (ok: bool)
      ensures ok == Admits(config, Value(), now)
    {
      match state {
        case Closed => ok := true;
        case HalfOpen => ok := halfOpenRequests < config.halfOpenMaxRequests;
        case Open => ok := now - lastFailureTime >= config.recoveryTime;
      }
    }

    method IsOpen() returns (open: bool)
      ensures open == (Value().state == Open)
    {
      open := state == Open;
    }

    method TransitionToOpen()
      modifies this
      ensures Value() == ToOpen(old(Value()))
    {
      if state != Open {
        state := Open;
        stateChanges := stateChanges + 1;
      }
    }

    method TransitionToHalfOpen()
      modifies this
      ensures Value() == ToHalfOpen(old(Value()))
    {
      if state != HalfOpen {
        state := HalfOpen;
        halfOpenRequests := 0;
        stateChanges := stateChanges + 1;
      }
    }

    method TransitionToClosed()
      modifies this
      ensures Value() == ToClosed(old(Value()))
    {
      if state != Closed {
        state := Closed;
        failureCount := 0;
        stateChanges := stateChanges + 1;
      }
    }

    method RecordRequest()
      modifies this
      ensures Value() == Requested(old(Value()))
    {
      totalRequests := totalRequests + 1;
      if state == HalfOpen {
        halfOpenRequests := halfOpenRequests + 1;
      }
    }

    method RecordFailure(now: int)
      modifies this
      ensures Value() == Failed(config, old(Value()), now)
    {
      failureCount := failureCount + 1;
      totalFailures := totalFailures + 1;
      lastFailureTime := now;
      match state {
        case Closed =>
          if failureCount >= config.failureThreshold {
            TransitionToOpen();
          }
        case HalfOpen => TransitionToOpen();
        case Open =>
      }
    }

    method RecordSuccess()
      modifies this
      ensures Value() == Succeeded(old(Value()))
    {
      failureCount := 0;
      halfOpenRequests := 0;
      if state == HalfOpen {
        TransitionToClosed();
      }
    }

    method Execute(call: Call) returns (verdict: Verdict)
      modifies this
      ensures (Value(), verdict) == Executed(config, old(Value()), call)
    {
      var ok := CanExecute(call.now);
      if !ok {
        return Rejected;
      }
      if state == Open {
        TransitionToHalfOpen();
      }
      RecordRequest();
      if call.fails {
        RecordFailure(call.doneAt);
        return FnFailed;
      }
      RecordSuccess();
      return FnSucceeded;
    }

    method ForceOpen()
      modifies this
      ensures Value() == ToOpen(old(Value()))
    {
      TransitionToOpen();
    }

    method ForceClose()
      modifies this
      ensures Value() == ToClosed(old(Value()))
    {
      TransitionToClosed();
    }

    method Reset()
      modifies this
      ensures Value() == WasReset()
    {
      state, failureCount, halfOpenRequests, lastFailureTime := Closed, 0, 0, ZERO_TIME;
      totalRequests, totalFailures, totalTimeouts, stateChanges := 0, 0, 0, 0;
    }
  }

  // ---------------------------------------------------------------- serial runs

  function Serial(cfg: Config, start: int, calls: seq<Call>): Status {
    if calls == [] then New(start)
    else Executed(cfg, Serial(cfg, start, calls[..|calls| - 1]), calls[|calls| - 1]).0
  }

  /** The textbook breaker: count consecutive failures; once tripped, wait, then let one call decide. */
  datatype Textbook = Counting(streak: nat) | Tripped(since: int)

  function TextbookStep(cfg: Config, t: Textbook, call: Call): Textbook {
    match t
    case Counting(k) =>
      if !call.fails then Counting(0)
      else if k + 1 >= cfg.failureThreshold then Tripped(call.doneAt)
      else Counting(k + 1)
    case Tripped(since) =>
      if call.now - since < cfg.recoveryTime then t
      else if call.fails then Tripped(call.doneAt)
      else Counting(0)
  }

  function TextbookRun(cfg: Config, calls: seq<Call>): Textbook {
    if calls == [] then Counting(0)
    else TextbookStep(cfg, TextbookRun(cfg, calls[..|calls| - 1]), calls[|calls| - 1])
  }

  /**
   Run serially, the breaker is the textbook one: it never rests half-open, it trips at the
   threshold-th consecutive failure, and it is probed no sooner than recoveryTime after the last one.
   */
  lemma {:induction false} SerialIsTextbook(cfg: Config, start: int, calls: seq<Call>)
    requires cfg.failureThreshold >= 1
    ensures var b := Serial(cfg, start, calls);
            match TextbookRun(cfg, calls)
            case Counting(k) => b.state == Closed && b.failureCount == k < cfg.failureThreshold
            case Tripped(since) => b.state == Open && b.lastFailureTime == since
  {
    if calls == [] {
    } else {
      SerialIsTextbook(cfg, start, calls[..|calls| - 1]);
    }
  }

  /** The length of the run of failing calls a sequence ends with. */
  function TrailingFailures(calls: seq<Call>): nat {
    if calls == [] || !calls[|calls| - 1].fails then 0
    else 1 + TrailingFailures(calls[..|calls| - 1])
  }

  ghost predicate NeverTripped(cfg: Config, start: int, calls: seq<Call>) {
    forall n | 0 <= n <= |calls| :: Serial(cfg, start, calls[..n]).state == Closed
  }

  ghost predicate NoLongStreak(cfg: Config, calls: seq<Call>) {
    forall n | 0 <= n <= |calls| :: TrailingFailures(calls[..n]) < cfg.failureThreshold
  }

  lemma LastPrefix(cfg: Config, start: int, calls: seq<Call>)
    requires calls != []
    ensures var init := calls[..|calls| - 1];
            && (NeverTripped(cfg, start, calls)
                <==> NeverTripped(cfg, start, init) && Serial(cfg, start, calls).state == Closed)
            && (NoLongStreak(cfg, calls)
                <==> NoLongStreak(cfg, init) && TrailingFailures(calls) < cfg.failureThreshold)
  {
    var init := calls[..|calls| - 1];
    assert calls[..|calls|] == calls;
    assert forall n | 0 <= n <= |init| :: init[..n] == calls[..n];
  }

  /**
   A serial breaker stays closed throughout a run exactly when no prefix of the run ends in
   failureThreshold failures in a row.
   */
  lemma {:induction false} TripsExactlyAtThreshold(cfg: Config, start: int, calls: seq<Call>)
    requires cfg.failureThreshold >= 1
    ensures NeverTripped(cfg, start, calls) <==> NoLongStreak(cfg, calls)
    ensures NeverTripped(cfg, start, calls) ==>
              Serial(cfg, start, calls).failureCount == TrailingFailures(calls)
  {
    if calls == [] {
      assert forall n | 0 <= n <= |calls| :: calls[..n] == [];
    } else {
      var init := calls[..|calls| - 1];
      LastPrefix(cfg, start, calls);
      TripsExactlyAtThreshold(cfg, start, init);
      if NeverTripped(cfg, start, init) {
        assert init[..|init|] == init;
        assert Serial(cfg, start, init).state == Closed;
      }
    }
  }
}
