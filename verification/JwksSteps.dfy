/**
 The JWKS key cache under concurrent callers.  getPublicKey reads the cache, fetches without a lock,
 replaces the cache, and reads it again; each of these is a step between which other callers may run.
 */
module JwksSteps {
  import opened Wrappers
  import opened Jwks

  type Caller = nat

  /** Where a caller is; it remembers the key it first found in the cache, if any. */
  datatype Phase =
    | Stale(cached: Option<PublicKey>, age: int)     // not fresh: it will fetch
    | Fetched(cached: Option<PublicKey>)             // it holds usable keys, not yet in the cache
    | Written(cached: Option<PublicKey>)             // its keys are, or have been, in the cache
    | Done(key: Option<PublicKey>)

  datatype System = System(cache: Cache, phases: map<Caller, Phase>)

  datatype Step = Look(c: Caller) | Fetch(c: Caller) | Write(c: Caller) | Reread(c: Caller)

  /** What each caller asks for, its clock readings and what the endpoint answers it. */
  type Requests = Caller -> Request

  predicate Enabled(reqs: Requests, s: System, step: Step) {
    match step
    case Look(c) => c !in s.phases
    case Fetch(c) => c in s.phases && s.phases[c].Stale?
    case Write(c) => c in s.phases && s.phases[c].Fetched? && FetchSucceeds(reqs(c).answer)
    case Reread(c) => c in s.phases && s.phases[c].Written?
  }

  function Held(cache: Cache, kid: string): Option<PublicKey> {
    if kid in cache.keys then Some(cache.keys[kid]) else None
  }

  function NextPhase(cfg: Config, reqs: Requests, s: System, step: Step): Phase
    requires Enabled(reqs, s, step)
  {
    var r := reqs(step.c);
    match step
    case Look(_) =>
      if IsFresh(cfg, s.cache, r) then Done(Held(s.cache, r.kid))
      else Stale(Held(s.cache, r.kid), r.now - s.cache.lastFetch)
    case Fetch(c) =>
      if FetchSucceeds(r.answer) then Fetched(s.phases[c].cached)
      else Done(if s.phases[c].age < cfg.graceTTL then s.phases[c].cached else None)
    case Write(c) => Written(s.phases[c].cached)
    case Reread(c) => Done(if r.kid in s.cache.keys then Held(s.cache, r.kid) else s.phases[c].cached)
  }

  function Next(cfg: Config, reqs: Requests, s: System, step: Step): System
    requires Enabled(reqs, s, step)
  {
    System(if step.Write? then Cache(KeyMap(reqs(step.c).answer.jwks), reqs(step.c).fetchedAt) else s.cache,
           s.phases[step.c := NextPhase(cfg, reqs, s, step)])
  }

  function Init(steps: seq<Step>): seq<Step>
    requires steps != []
  {
    steps[..|steps| - 1]
  }

  function Last(steps: seq<Step>): Step
    requires steps != []
  {
    steps[|steps| - 1]
  }

  predicate IsRun(cfg: Config, reqs: Requests, zeroTime: int, steps: seq<Step>)
    decreases |steps|, 0
  {
    steps == [] ||
    (IsRun(cfg, reqs, zeroTime, Init(steps)) && Enabled(reqs, After(cfg, reqs, zeroTime, Init(steps)), Last(steps)))
  }

  function After(cfg: Config, reqs: Requests, zeroTime: int, steps: seq<Step>): System
    requires IsRun(cfg, reqs, zeroTime, steps)
    decreases |steps|, 1
  {
    if steps == [] then System(Cache(map[], zeroTime), map[])
    else Next(cfg, reqs, After(cfg, reqs, zeroTime, Init(steps)), Last(steps))
  }

  // ---------------------------------------------------------------- what the cache holds

  /** Step i is the last replacement of the cache before step j. */
  predicate LastWrite(steps: seq<Step>, i: int, j: int) {
    && 0 <= i < j <= |steps| && steps[i].Write?
    && forall k | i < k < j :: !steps[k].Write?
  }

  lemma LastWriteLasts(steps: seq<Step>, i: int, j: int)
    requires steps != [] && LastWrite(Init(steps), i, j)
    ensures LastWrite(steps, i, j)
  {
    assert forall k | 0 <= k < |Init(steps)| :: Init(steps)[k] == steps[k];
  }

  /** In every interleaving the cache is the document written last, whichever was fetched last. */
  lemma {:induction false} CacheIsLastWrite(cfg: Config, reqs: Requests, zeroTime: int, steps: seq<Step>)
    returns (i: int)
    requires IsRun(cfg, reqs, zeroTime, steps)
    ensures var c := After(cfg, reqs, zeroTime, steps).cache;
            if i < 0 then c == Cache(map[], zeroTime) && forall k | 0 <= k < |steps| :: !steps[k].Write?
            else && LastWrite(steps, i, |steps|) && FetchSucceeds(reqs(steps[i].c).answer)
                 && c == Cache(KeyMap(reqs(steps[i].c).answer.jwks), reqs(steps[i].c).fetchedAt)
  {
    if steps == [] {
      i := -1;
    } else if Last(steps).Write? {
      i := |steps| - 1;
    } else {
      i := CacheIsLastWrite(cfg, reqs, zeroTime, Init(steps));
      assert forall k | 0 <= k < |Init(steps)| :: Init(steps)[k] == steps[k];
    }
  }

  lemma HeldWasWritten(cfg: Config, reqs: Requests, zeroTime: int, steps: seq<Step>, kid: string)
    returns (i: int)
    requires IsRun(cfg, reqs, zeroTime, steps) && kid in After(cfg, reqs, zeroTime, steps).cache.keys
    ensures LastWrite(steps, i, |steps|)
    ensures var c := After(cfg, reqs, zeroTime, steps).cache;
            && FetchSucceeds(reqs(steps[i].c).answer)
            && Carries(reqs(steps[i].c).answer.jwks, kid, c.keys[kid]) && c.lastFetch == reqs(steps[i].c).fetchedAt
  {
    i := CacheIsLastWrite(cfg, reqs, zeroTime, steps);
    KeyMapCarries(reqs(steps[i].c).answer.jwks);
  }

  // ---------------------------------------------------------------- where a key comes from

  /** Step i wrote a document that carries the key for the caller's kid. */
  ghost predicate WroteKey(reqs: Requests, steps: seq<Step>, i: int, c: Caller, key: PublicKey) {
    && 0 <= i < |steps| && steps[i].Write? && FetchSucceeds(reqs(steps[i].c).answer)
    && Carries(reqs(steps[i].c).answer.jwks, reqs(c).kid, key)
  }

  /** The caller's first look, at step j, found the key that step i had put in the cache last. */
  ghost predicate Found(reqs: Requests, steps: seq<Step>, c: Caller, key: PublicKey, i: int, j: int) {
    LastWrite(steps, i, j) && j < |steps| && steps[j] == Look(c) && WroteKey(reqs, steps, i, c, key)
  }

  /** How old the keys of step i are by the caller's clock. */
  function AgeFor(reqs: Requests, steps: seq<Step>, c: Caller, i: int): int
    requires 0 <= i < |steps|
  {
    reqs(c).now - reqs(steps[i].c).fetchedAt
  }

  /** At step n the caller read the cache again, as step m had written it after the caller's own fetch. */
  ghost predicate RereadFrom(steps: seq<Step>, c: Caller, m: int, n: int) {
    LastWrite(steps, m, n) && n < |steps| && steps[n] == Reread(c) && Write(c) in steps[..m + 1]
  }

  /** The document the caller read again, at least as new as its own, leaves out its kid. */
  ghost predicate Dropped(reqs: Requests, steps: seq<Step>, c: Caller) {
    exists m, n :: RereadFrom(steps, c, m, n) && FetchSucceeds(reqs(steps[m].c).answer)
      && forall k :: !Carries(reqs(steps[m].c).answer.jwks, reqs(c).kid, k)
  }

  /** Every way a caller can have got a key. */
  ghost predicate Origin(cfg: Config, reqs: Requests, steps: seq<Step>, c: Caller, key: PublicKey, i: int, j: int) {
    || (Found(reqs, steps, c, key, i, j)
        && (|| AgeFor(reqs, steps, c, i) < cfg.ttl
            || (!FetchSucceeds(reqs(c).answer) && AgeFor(reqs, steps, c, i) < cfg.graceTTL)
            || (FetchSucceeds(reqs(c).answer) && Dropped(reqs, steps, c))))
    || (RereadFrom(steps, c, i, j) && WroteKey(reqs, steps, i, c, key))
  }

  /** What a caller on its way remembers was in the cache when it looked. */
  ghost predicate Remembers(cfg: Config, reqs: Requests, zeroTime: int, steps: seq<Step>, c: Caller, phase: Phase) {
    && IsRun(cfg, reqs, zeroTime, steps) && c in After(cfg, reqs, zeroTime, steps).phases
    && phase == After(cfg, reqs, zeroTime, steps).phases[c] && !phase.Done? && phase.cached.Some?
  }

  lemma FoundLasts(reqs: Requests, steps: seq<Step>, c: Caller, key: PublicKey, i: int, j: int)
    requires steps != [] && Found(reqs, Init(steps), c, key, i, j)
    ensures Found(reqs, steps, c, key, i, j) && AgeFor(reqs, steps, c, i) == AgeFor(reqs, Init(steps), c, i)
  {
    LastWriteLasts(steps, i, j);
  }

  lemma {:induction false} RememberedWasFound(cfg: Config, reqs: Requests, zeroTime: int, steps: seq<Step>,
                                              c: Caller, phase: Phase) returns (i: int, j: int)
    requires Remembers(cfg, reqs, zeroTime, steps, c, phase)
    ensures Found(reqs, steps, c, phase.cached.value, i, j)
    ensures phase.Stale? ==> phase.age == AgeFor(reqs, steps, c, i)
    ensures phase.Written? ==> Write(c) in steps
  {
    var s := After(cfg, reqs, zeroTime, Init(steps));
    assert steps == Init(steps) + [Last(steps)];
    if Last(steps) == Look(c) {
      i := HeldWasWritten(cfg, reqs, zeroTime, Init(steps), reqs(c).kid);
      j := |steps| - 1;
      LastWriteLasts(steps, i, j);
    } else {
      i, j := RememberedWasFound(cfg, reqs, zeroTime, Init(steps), c, s.phases[c]);
      FoundLasts(reqs, steps, c, phase.cached.value, i, j);
    }
  }

  /** The caller has its answer. */
  ghost predicate Has(cfg: Config, reqs: Requests, zeroTime: int, steps: seq<Step>, c: Caller, key: PublicKey) {
    && IsRun(cfg, reqs, zeroTime, steps) && c in After(cfg, reqs, zeroTime, steps).phases
    && After(cfg, reqs, zeroTime, steps).phases[c] == Done(Some(key))
  }

  /** A caller that has written its keys rereads the cache no older than it left it. */
  lemma {:induction false} WrittenWrote(cfg: Config, reqs: Requests, zeroTime: int, steps: seq<Step>, c: Caller)
    requires IsRun(cfg, reqs, zeroTime, steps)
    requires c in After(cfg, reqs, zeroTime, steps).phases && After(cfg, reqs, zeroTime, steps).phases[c].Written?
    ensures Write(c) in steps && FetchSucceeds(reqs(c).answer)
  {
    assert steps == Init(steps) + [Last(steps)];
    if Last(steps) == Write(c) {
    } else {
      WrittenWrote(cfg, reqs, zeroTime, Init(steps), c);
    }
  }

  lemma RereadNoOlder(cfg: Config, reqs: Requests, zeroTime: int, steps: seq<Step>, c: Caller) returns (i: int)
    requires steps != [] && IsRun(cfg, reqs, zeroTime, steps) && Last(steps) == Reread(c)
    ensures RereadFrom(steps, c, i, |steps| - 1) && FetchSucceeds(reqs(c).answer)
    ensures FetchSucceeds(reqs(steps[i].c).answer)
    ensures After(cfg, reqs, zeroTime, Init(steps)).cache.keys == KeyMap(reqs(steps[i].c).answer.jwks)
  {
    i := CacheIsLastWrite(cfg, reqs, zeroTime, Init(steps));
    WrittenWrote(cfg, reqs, zeroTime, Init(steps), c);
    assert steps == Init(steps) + [Last(steps)];
    var p :| 0 <= p < |Init(steps)| && Init(steps)[p] == Write(c);
    assert i >= 0 && p <= i;
    assert steps[..i + 1][p] == Write(c);
    LastWriteLasts(steps, i, |steps| - 1);
  }

  lemma LastStepGives(cfg: Config, reqs: Requests, zeroTime: int, steps: seq<Step>, c: Caller, key: PublicKey)
    returns (i: int, j: int)
    requires Has(cfg, reqs, zeroTime, steps, c, key) && steps != [] && Last(steps).c == c
    ensures Origin(cfg, reqs, steps, c, key, i, j)
  {
    var s := After(cfg, reqs, zeroTime, Init(steps));
    assert steps == Init(steps) + [Last(steps)];
    match Last(steps) {
      case Look(_) =>
        i := HeldWasWritten(cfg, reqs, zeroTime, Init(steps), reqs(c).kid);
        j := |steps| - 1;
        LastWriteLasts(steps, i, j);
      case Fetch(_) =>
        i, j := RememberedWasFound(cfg, reqs, zeroTime, Init(steps), c, s.phases[c]);
        FoundLasts(reqs, steps, c, key, i, j);
      case Reread(_) => i, j := RereadGives(cfg, reqs, zeroTime, steps, c, key);
    }
  }

  lemma RereadGives(cfg: Config, reqs: Requests, zeroTime: int, steps: seq<Step>, c: Caller, key: PublicKey)
    returns (i: int, j: int)
    requires Has(cfg, reqs, zeroTime, steps, c, key) && steps != [] && Last(steps) == Reread(c)
    ensures Origin(cfg, reqs, steps, c, key, i, j)
  {
    var s := After(cfg, reqs, zeroTime, Init(steps));
    var m := RereadNoOlder(cfg, reqs, zeroTime, steps, c);
    i, j := m, |steps| - 1;
    KeyMapCarries(reqs(steps[m].c).answer.jwks);
    if reqs(c).kid !in s.cache.keys {
      OmittedKid(reqs(steps[m].c).answer.jwks, reqs(c).kid);
      i, j := RememberedWasFound(cfg, reqs, zeroTime, Init(steps), c, s.phases[c]);
      FoundLasts(reqs, steps, c, key, i, j);
    }
  }

  lemma RereadLasts(steps: seq<Step>, c: Caller, m: int, n: int)
    requires steps != [] && RereadFrom(Init(steps), c, m, n)
    ensures RereadFrom(steps, c, m, n) && Init(steps)[m] == steps[m]
  {
    LastWriteLasts(steps, m, n);
    assert Init(steps)[..m + 1] == steps[..m + 1];
  }

  lemma OriginLasts(cfg: Config, reqs: Requests, steps: seq<Step>, c: Caller, key: PublicKey, i: int, j: int)
    requires steps != [] && Origin(cfg, reqs, Init(steps), c, key, i, j)
    ensures Origin(cfg, reqs, steps, c, key, i, j)
  {
    if Found(reqs, Init(steps), c, key, i, j) { FoundLasts(reqs, steps, c, key, i, j); }
    if RereadFrom(Init(steps), c, i, j) { RereadLasts(steps, c, i, j); }
    if Dropped(reqs, Init(steps), c) {
      var m, n :| RereadFrom(Init(steps), c, m, n) && FetchSucceeds(reqs(Init(steps)[m].c).answer)
        && forall k :: !Carries(reqs(Init(steps)[m].c).answer.jwks, reqs(c).kid, k);
      RereadLasts(steps, c, m, n);
    }
  }

  /**
   Provenance of every key in every interleaving: a document written to the cache carried it, and the
   caller either found it there when it looked - younger than ttl, or younger than graceTTL with its own
   fetch failing, or left out by the document it then read again - or read it again from a document
   written no earlier than its own.
   */
  lemma {:induction false} KeyOrigin(cfg: Config, reqs: Requests, zeroTime: int, steps: seq<Step>, c: Caller,
                                     key: PublicKey) returns (i: int, j: int)
    requires Has(cfg, reqs, zeroTime, steps, c, key)
    ensures Origin(cfg, reqs, steps, c, key, i, j)
    decreases |steps|
  {
    if Last(steps).c == c {
      i, j := LastStepGives(cfg, reqs, zeroTime, steps, c, key);
    } else {
      i, j := KeyOrigin(cfg, reqs, zeroTime, Init(steps), c, key);
      OriginLasts(cfg, reqs, steps, c, key, i, j);
    }
  }

  // ---------------------------------------------------------------- dropped kids

  /**
   Once a document without a kid has been written, a caller that reads the cache only afterwards gets a
   key for it only from a document written later still.
   */
  lemma DroppedKidNeedsLaterWrite(cfg: Config, reqs: Requests, zeroTime: int, steps: seq<Step>, c: Caller,
                                  key: PublicKey, m: int) returns (i: int)
    requires Has(cfg, reqs, zeroTime, steps, c, key)
    requires 0 <= m < |steps| && steps[m].Write?
    requires FetchSucceeds(reqs(steps[m].c).answer)
    requires forall k :: !Carries(reqs(steps[m].c).answer.jwks, reqs(c).kid, k)
    requires forall j | 0 <= j < |steps| && (steps[j] == Look(c) || steps[j] == Reread(c)) :: j > m
    ensures m < i && WroteKey(reqs, steps, i, c, key)
  {
    var j: int;
    i, j := KeyOrigin(cfg, reqs, zeroTime, steps, c, key);
  }

  /** The run leads to this state. */
  ghost predicate Leads(cfg: Config, reqs: Requests, zeroTime: int, steps: seq<Step>, s: System) {
    IsRun(cfg, reqs, zeroTime, steps) && After(cfg, reqs, zeroTime, steps) == s
  }

  lemma Then(cfg: Config, reqs: Requests, zeroTime: int, steps: seq<Step>, s: System, step: Step)
    returns (more: seq<Step>)
    requires Leads(cfg, reqs, zeroTime, steps, s) && Enabled(reqs, s, step)
    ensures Leads(cfg, reqs, zeroTime, more, Next(cfg, reqs, s, step)) && more == steps + [step]
  {
    more := steps + [step];
    assert Init(more) == steps;
  }

  /** Two callers miss and fetch, the first one before the second. */
  lemma BothFetch(cfg: Config, reqs: Requests, zeroTime: int) returns (steps: seq<Step>, s: System)
    requires FetchSucceeds(reqs(0).answer) && FetchSucceeds(reqs(1).answer)
    ensures Leads(cfg, reqs, zeroTime, steps, s) && s.phases == map[0 := Fetched(None), 1 := Fetched(None)]
    ensures steps == [Look(0), Look(1), Fetch(0), Fetch(1)]
  {
    s := System(Cache(map[], zeroTime), map[]);
    steps := Then(cfg, reqs, zeroTime, [], s, Look(0));
    s := Next(cfg, reqs, s, Look(0));
    steps := Then(cfg, reqs, zeroTime, steps, s, Look(1));
    s := Next(cfg, reqs, s, Look(1));
    steps := Then(cfg, reqs, zeroTime, steps, s, Fetch(0));
    s := Next(cfg, reqs, s, Fetch(0));
    steps := Then(cfg, reqs, zeroTime, steps, s, Fetch(1));
    s := Next(cfg, reqs, s, Fetch(1));
    assert s.phases == map[0 := Fetched(None), 1 := Fetched(None)];
  }

  /**
   Written later is not fetched later: a document fetched before another can replace it.  Then a caller
   gets, fresh, a key even if the newer document had dropped it and had been written before it looked.
   */
  lemma OlderDocumentReturns(cfg: Config, reqs: Requests, zeroTime: int, key: PublicKey) returns (steps: seq<Step>)
    requires FetchSucceeds(reqs(0).answer) && Carries(reqs(0).answer.jwks, reqs(2).kid, key)
    requires FetchSucceeds(reqs(1).answer) && reqs(2).now - reqs(0).fetchedAt < cfg.ttl
    ensures steps == [Look(0), Look(1), Fetch(0), Fetch(1), Write(1), Write(0), Look(2)]
    ensures Has(cfg, reqs, zeroTime, steps, 2, key)
  {
    var s: System;
    steps, s := BothFetch(cfg, reqs, zeroTime);
    steps := Then(cfg, reqs, zeroTime, steps, s, Write(1));
    s := Next(cfg, reqs, s, Write(1));
    steps := Then(cfg, reqs, zeroTime, steps, s, Write(0));
    s := Next(cfg, reqs, s, Write(0));
    KeyMapCarries(reqs(0).answer.jwks);
    steps := Then(cfg, reqs, zeroTime, steps, s, Look(2));
  }

  // ---------------------------------------------------------------- a caller alone

  /** The steps of one caller, uninterrupted. */
  function Alone(cfg: Config, reqs: Requests, s: System, c: Caller): System
    requires c !in s.phases
  {
    var looked := Next(cfg, reqs, s, Look(c));
    if looked.phases[c].Done? then looked
    else
      var fetched := Next(cfg, reqs, looked, Fetch(c));
      if fetched.phases[c].Done? then fetched
      else Next(cfg, reqs, Next(cfg, reqs, fetched, Write(c)), Reread(c))
  }

  /** A caller whose steps run one after the other does what the serial model says. */
  lemma AloneIsSerial(cfg: Config, reqs: Requests, s: System, c: Caller)
    requires c !in s.phases
    ensures Alone(cfg, reqs, s, c).cache == NextCache(cfg, s.cache, reqs(c))
    ensures Alone(cfg, reqs, s, c).phases == s.phases[c := Done(Returned(cfg, s.cache, reqs(c)))]
  {
  }
}
