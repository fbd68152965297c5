/**
 Whole runs of the decision service: where an Allowed response comes from, what the failure mode and
 the cache change, and what happens once the breaker has opened.
 */
module ServiceRuns {
  import opened Wrappers
  import opened Colons
  import opened Service
  import B = Breaker
  import C = MemoryCache

  datatype Event = Event(req: Request, world: World)

  function After(cfg: Config, start: int, evs: seq<Event>): State {
    if evs == [] then State(map[], B.New(start))
    else
      var ev := evs[|evs| - 1];
      Decide(cfg, After(cfg, start, evs[..|evs| - 1]), ev.req, ev.world).state
  }

  function OutcomeAt(cfg: Config, start: int, evs: seq<Event>, i: int): Outcome
    requires 0 <= i < |evs|
  {
    Decide(cfg, After(cfg, start, evs[..i]), evs[i].req, evs[i].world)
  }

  // ---------------------------------------------------------------- what the PDP says

  /** The answer gives the action the effect EFFECT_ALLOW; every other answer withholds it. */
  predicate SaysAllow(results: seq<map<string, string>>, action: string) {
    |results| > 0 && action in results[0].Keys && results[0][action] == "EFFECT_ALLOW"
  }

  // ---------------------------------------------------------------- who asks what

  /** The call gets past the public check and the token check, so it computes a cache key. */
  predicate HasKey(ev: Event) {
    && ev.world.action.Some? && ev.world.action.value != "public"
    && ExtractPrincipal(ev.req.authHeader, ev.world.claims).Success?
  }

  function PrincipalOf(ev: Event): string
    requires HasKey(ev)
  {
    ExtractPrincipal(ev.req.authHeader, ev.world.claims).value.0
  }

  function KeyOf(cfg: Config, ev: Event): string
    requires HasKey(ev)
  {
    CacheKey(cfg, PrincipalOf(ev), ev.req)
  }

  function QueryFor(cfg: Config, ev: Event): Query
    requires HasKey(ev)
  {
    var (principal, roles) := ExtractPrincipal(ev.req.authHeader, ev.world.claims).value;
    QueryOf(cfg, principal, roles, ev.world.action.value, ev.req)
  }

  /** The call would go on to the breaker and the PDP if the cache does not answer it. */
  predicate IsPolicyCall(ev: Event) {
    HasKey(ev) && ev.world.action.value != "authenticated" && PrincipalOf(ev) != "anonymous"
  }

  predicate IsHit(cfg: Config, s: State, ev: Event) {
    HasKey(ev) && !ev.world.readFails && C.Lookup(s.cache, KeyOf(cfg, ev), ev.world.getAt).Some?
  }

  /** The cache after a call has read it. */
  function AfterRead(cfg: Config, s: State, ev: Event): C.Data {
    if HasKey(ev) && !ev.world.readFails && !IsHit(cfg, s, ev) then s.cache - {KeyOf(cfg, ev)} else s.cache
  }

  /** What is left to do of a policy call that the cache did not answer. */
  function AfterMiss(cfg: Config, s: State, ev: Event): Outcome
    requires IsPolicyCall(ev)
  {
    if cfg.breakerEnabled && s.breaker.state == B.Open then
      Outcome(s, OnBreakerOpen(cfg, ev.world.action.value, PrincipalOf(ev)), None)
    else Consult(cfg, s, ev.world, KeyOf(cfg, ev), QueryFor(cfg, ev))
  }

  lemma DecideOnMiss(cfg: Config, s: State, ev: Event)
    requires IsPolicyCall(ev) && !IsHit(cfg, s, ev)
    ensures Decide(cfg, s, ev.req, ev.world) == AfterMiss(cfg, s.(cache := AfterRead(cfg, s, ev)), ev)
  {
  }

  // ---------------------------------------------------------------- the hash and the key text

  /** The one assumption about SHA-256: no collisions, and no empty digest. */
  ghost predicate GoodHash(cfg: Config) {
    && (forall x, y :: cfg.hash(x) == cfg.hash(y) ==> x == y)
    && (forall x :: cfg.hash(x) != "")
  }

  /** Principal, service name and method hold no ":"; the path may. */
  predicate ColonFreeEvent(ev: Event) {
    HasKey(ev) ==> ColonFree(PrincipalOf(ev)) && ColonFree(ServiceName(ev.req)) && ColonFree(ev.req.verb)
  }

  lemma KeyTextUnambiguous(p: string, s: string, path: string, v: string,
                           p': string, s': string, path': string, v': string)
    requires ColonFree(p) && ColonFree(s) && ColonFree(v) && ColonFree(p') && ColonFree(s') && ColonFree(v')
    requires KeyText(p, s, path, v) == KeyText(p', s', path', v')
    ensures p == p' && s == s' && path == path' && v == v'
  {
    FirstColon(p, s + (":" + (path + (":" + v))), p', s' + (":" + (path' + (":" + v'))));
    FirstColon(s, path + (":" + v), s', path' + (":" + v'));
    LastColon(path, v, path', v');
  }

  /** The key text of these four parts is the key text of no other four. */
  ghost predicate OnlyKeyTextOf(p: string, s: string, path: string, v: string) {
    forall p', s', path', v' | KeyText(p', s', path', v') == KeyText(p, s, path, v) ::
      p' == p && s' == s && path' == path && v' == v
  }

  lemma KeyTextColons(p: string, s: string, path: string, v: string)
    ensures CountColons(KeyText(p, s, path, v))
         == CountColons(p) + CountColons(s) + CountColons(path) + CountColons(v) + 3
  {
    CountColonsAdd(p, ":" + (s + (":" + (path + (":" + v)))));
    CountColonsAdd(":", s + (":" + (path + (":" + v))));
    CountColonsAdd(s, ":" + (path + (":" + v)));
    CountColonsAdd(":", path + (":" + v));
    CountColonsAdd(path, ":" + v);
    CountColonsAdd(":", v);
    assert CountColons(":") == 1;
  }

  /** A part that holds a colon can give its tail, or its head, to a neighbour. */
  lemma ColonsShift(p: string, s: string, path: string, v: string)
    requires !ColonFree(p) || !ColonFree(s) || !ColonFree(path) || !ColonFree(v)
    ensures !OnlyKeyTextOf(p, s, path, v)
  {
    if !ColonFree(p) {
      var a, b := SplitAtColon(p);
      assert KeyText(a, b, s + (":" + path), v) == KeyText(p, s, path, v) && |a| < |p|;
    } else if !ColonFree(s) {
      var a, b := SplitAtColon(s);
      assert KeyText(p, a, b + (":" + path), v) == KeyText(p, s, path, v) && |a| < |s|;
    } else if !ColonFree(path) {
      var a, b := SplitAtColon(path);
      assert KeyText(p, s + (":" + a), b, v) == KeyText(p, s, path, v) && |b| < |path|;
    } else {
      var a, b := SplitAtColon(v);
      assert KeyText(p, s, path + (":" + a), b) == KeyText(p, s, path, v) && |b| < |v|;
    }
  }

  /** Among all callers, a key text determines its four parts if and only if none of them holds a colon. */
  lemma KeyTextDeterminesIffColonFree(p: string, s: string, path: string, v: string)
    ensures OnlyKeyTextOf(p, s, path, v) <==> ColonFree(p) && ColonFree(s) && ColonFree(path) && ColonFree(v)
  {
    if ColonFree(p) && ColonFree(s) && ColonFree(path) && ColonFree(v) {
      forall p', s', path', v' | KeyText(p', s', path', v') == KeyText(p, s, path, v)
        ensures p' == p && s' == s && path' == path && v' == v
      {
        KeyTextColons(p, s, path, v);
        KeyTextColons(p', s', path', v');
        ColonFreeParts(p, s, path, v);
        ColonFreeParts(p', s', path', v');
        KeyTextUnambiguous(p, s, path, v, p', s', path', v');
      }
    } else {
      ColonsShift(p, s, path, v);
    }
  }

  lemma ColonFreeParts(p: string, s: string, path: string, v: string)
    ensures ColonFree(p) && ColonFree(s) && ColonFree(path) && ColonFree(v)
       <==> CountColons(p) + CountColons(s) + CountColons(path) + CountColons(v) == 0
  {
    ColonFreeCount(p);
    ColonFreeCount(s);
    ColonFreeCount(path);
    ColonFreeCount(v);
  }

  // ---------------------------------------------------------------- where cache entries come from

  /** Event j asked the PDP, was answered, and stored its response as this entry under this key. */
  ghost predicate StoredBy(cfg: Config, start: int, evs: seq<Event>, j: int, key: string, entry: C.Entry) {
    0 <= j < |evs| && Stores(cfg, After(cfg, start, evs[..j]), evs[j], key, entry)
  }

  ghost predicate Stores(cfg: Config, s: State, ev: Event, key: string, entry: C.Entry) {
    var out := Decide(cfg, s, ev.req, ev.world);
    && IsPolicyCall(ev) && ev.world.pdp.Decided?
    && out.asked == Some(QueryFor(cfg, ev))
    && key == KeyOf(cfg, ev)
    && out.response == FromPdp(ev.world.pdp.results, ev.world.action.value, PrincipalOf(ev))
    && entry == EntryOf(cfg, out.response, ev.world.setAt)
  }

  /** One call leaves an entry alone, drops it, or stores the PDP's decision. */
  lemma StepCache(cfg: Config, s: State, ev: Event, key: string)
    requires key in Decide(cfg, s, ev.req, ev.world).state.cache
    ensures var entry := Decide(cfg, s, ev.req, ev.world).state.cache[key];
            (key in s.cache && s.cache[key] == entry) || Stores(cfg, s, ev, key, entry)
  {
  }

  /** Every cached entry is a PDP decision stored by some call of the run. */
  lemma {:induction false} EntryProvenance(cfg: Config, start: int, evs: seq<Event>, key: string) returns (j: int)
    requires key in After(cfg, start, evs).cache
    ensures StoredBy(cfg, start, evs, j, key, After(cfg, start, evs).cache[key])
  {
    var n := |evs| - 1;
    var init := evs[..n];
    var s := After(cfg, start, init);
    StepCache(cfg, s, evs[n], key);
    if key in s.cache && s.cache[key] == After(cfg, start, evs).cache[key] {
      j := EntryProvenance(cfg, start, init, key);
      assert init[..j] == evs[..j] && init[j] == evs[j];
    } else {
      j := n;
    }
  }

  /** In either failure mode, no degraded or error response is ever cached. */
  lemma OnlyDecisionsCached(cfg: Config, start: int, evs: seq<Event>, key: string)
    requires key in After(cfg, start, evs).cache
    ensures var d := After(cfg, start, evs).cache[key].result;
            d.errorCodes == if d.success then ["allowed"] else ["denied"]
  {
    var j := EntryProvenance(cfg, start, evs, key);
  }

  // ---------------------------------------------------------------- what sharing a key says

  function TextOf(ev: Event): string
    requires HasKey(ev)
  {
    KeyText(PrincipalOf(ev), ServiceName(ev.req), ev.req.path, ev.req.verb)
  }

  /** The part of the key text after the principal. */
  function TailOf(ev: Event): string {
    ServiceName(ev.req) + (":" + (ev.req.path + (":" + ev.req.verb)))
  }

  /** The two calls are by the same principal for the same service, path and method. */
  predicate SameResource(a: Event, b: Event)
    requires HasKey(a) && HasKey(b)
  {
    && PrincipalOf(a) == PrincipalOf(b) && ServiceName(a.req) == ServiceName(b.req)
    && a.req.path == b.req.path && a.req.verb == b.req.verb
  }

  /**
   What calls with the same key text have in common, by what of them is free of colons: with principals
   free of colons they are the same principal's, whatever services and methods hold.
   */
  ghost predicate ShareByText(a: Event, b: Event)
    requires HasKey(a) && HasKey(b)
  {
    && TextOf(a) == TextOf(b)
    && (ColonFree(PrincipalOf(a)) && ColonFree(PrincipalOf(b)) ==>
          PrincipalOf(a) == PrincipalOf(b) && TailOf(a) == TailOf(b))
    && (ColonFreeEvent(a) && ColonFreeEvent(b) ==> SameResource(a, b))
  }

  lemma SameTextShares(a: Event, b: Event)
    requires HasKey(a) && HasKey(b) && TextOf(a) == TextOf(b)
    ensures ShareByText(a, b)
  {
    if ColonFree(PrincipalOf(a)) && ColonFree(PrincipalOf(b)) {
      FirstColon(PrincipalOf(a), TailOf(a), PrincipalOf(b), TailOf(b));
    }
    if ColonFreeEvent(a) && ColonFreeEvent(b) {
      KeyTextUnambiguous(PrincipalOf(a), ServiceName(a.req), a.req.path, a.req.verb,
                         PrincipalOf(b), ServiceName(b.req), b.req.path, b.req.verb);
    }
  }

  // ---------------------------------------------------------------- where Allowed comes from

  /** Event j got an EFFECT_ALLOW from the PDP, under the key text of event i. */
  ghost predicate AllowedByPdp(cfg: Config, start: int, evs: seq<Event>, j: int, i: int)
    requires 0 <= i < |evs| && HasKey(evs[i])
  {
    && 0 <= j <= i && IsPolicyCall(evs[j])
    && OutcomeAt(cfg, start, evs, j).asked == Some(QueryFor(cfg, evs[j]))
    && evs[j].world.pdp.Decided? && SaysAllow(evs[j].world.pdp.results, evs[j].world.action.value)
    && ShareByText(evs[j], evs[i])
  }

  /** The grounds on which event i may be allowed; j is the call the decision came from, if any. */
  ghost predicate Grounds(cfg: Config, start: int, evs: seq<Event>, i: int, j: int)
    requires 0 <= i < |evs|
  {
    var ev := evs[i];
    || ev.world.action == Some("public")
    || (ev.world.action == Some("authenticated") && HasKey(ev) && PrincipalOf(ev) != "anonymous")
    || (HasKey(ev) && AllowedByPdp(cfg, start, evs, j, i)
        && (j == i || ev.world.getAt <= evs[j].world.setAt + cfg.cacheTTL))
  }

  /**
   Allow provenance, over every run: an Allowed response has one of three grounds - a public action,
   the "authenticated" action with a known principal, or the PDP's EFFECT_ALLOW given now or at most
   cacheTTL before under the same key text - or it is a "degraded" response of fail_open mode.  The same
   key text means the same principal when principals are free of colons, and the same principal,
   service, path and method when services and methods are so, too.
   */
  lemma AllowProvenance(cfg: Config, start: int, evs: seq<Event>, i: int) returns (j: int)
    requires GoodHash(cfg) && 0 <= i < |evs| && OutcomeAt(cfg, start, evs, i).response.allowed
    ensures || Grounds(cfg, start, evs, i, j)
            || (cfg.failureMode == "fail_open" && OutcomeAt(cfg, start, evs, i).response.status == "degraded")
  {
    var s := After(cfg, start, evs[..i]);
    if IsHit(cfg, s, evs[i]) {
      j := HitProvenance(cfg, start, evs, i);
    } else {
      j := i;
      AllowedOnMiss(cfg, s, evs[i]);
      if HasKey(evs[i]) { SameTextShares(evs[i], evs[i]); }
    }
  }

  /** How long a decision lives in the cache, by what the PDP said. */
  function LifeOf(cfg: Config, ev: Event): int
    requires ev.world.action.Some? && ev.world.pdp.Decided?
  {
    if SaysAllow(ev.world.pdp.results, ev.world.action.value) then cfg.cacheTTL else cfg.cacheFailedTTL
  }

  /**
   Every hit of every run repeats what the PDP said to an earlier call under the same key text, and not
   longer after it was stored than such a decision lives: a denial no longer than cacheFailedTTL.
   */
  lemma HitRepeatsDecision(cfg: Config, start: int, evs: seq<Event>, i: int) returns (j: int)
    requires GoodHash(cfg) && 0 <= i < |evs| && IsHit(cfg, After(cfg, start, evs[..i]), evs[i])
    ensures 0 <= j < i && IsPolicyCall(evs[j]) && evs[j].world.pdp.Decided? && ShareByText(evs[j], evs[i])
    ensures OutcomeAt(cfg, start, evs, j).asked == Some(QueryFor(cfg, evs[j]))
    ensures OutcomeAt(cfg, start, evs, i).response.allowed
        <==> SaysAllow(evs[j].world.pdp.results, evs[j].world.action.value)
    ensures evs[i].world.getAt <= evs[j].world.setAt + LifeOf(cfg, evs[j])
  {
    j := EntryProvenance(cfg, start, evs[..i], KeyOf(cfg, evs[i]));
    assert evs[..i][..j] == evs[..j] && evs[..i][j] == evs[j];
    SameTextShares(evs[j], evs[i]);
  }

  /** An Allowed hit repeats a PDP decision under the same key text, stored at most cacheTTL before. */
  lemma HitProvenance(cfg: Config, start: int, evs: seq<Event>, i: int) returns (j: int)
    requires GoodHash(cfg) && 0 <= i < |evs| && OutcomeAt(cfg, start, evs, i).response.allowed
    requires IsHit(cfg, After(cfg, start, evs[..i]), evs[i])
    ensures AllowedByPdp(cfg, start, evs, j, i) && evs[i].world.getAt <= evs[j].world.setAt + cfg.cacheTTL
  {
    j := HitRepeatsDecision(cfg, start, evs, i);
  }

  /** What an Allowed response of a policy call that missed the cache rests on. */
  lemma AllowedAfterMiss(cfg: Config, s: State, ev: Event)
    requires IsPolicyCall(ev) && AfterMiss(cfg, s, ev).response.allowed
    ensures var out := AfterMiss(cfg, s, ev);
            || (out.asked == Some(QueryFor(cfg, ev)) && ev.world.pdp.Decided?
                && SaysAllow(ev.world.pdp.results, ev.world.action.value))
            || (cfg.failureMode == "fail_open" && out.response.status == "degraded")
  {
  }

  /** What an Allowed response rests on when the cache did not give it. */
  lemma AllowedOnMiss(cfg: Config, s: State, ev: Event)
    requires Decide(cfg, s, ev.req, ev.world).response.allowed && !IsHit(cfg, s, ev)
    ensures var out := Decide(cfg, s, ev.req, ev.world);
            || ev.world.action == Some("public")
            || (HasKey(ev) && ev.world.action == Some("authenticated") && PrincipalOf(ev) != "anonymous")
            || (IsPolicyCall(ev) && out.asked == Some(QueryFor(cfg, ev)) && ev.world.pdp.Decided?
                && SaysAllow(ev.world.pdp.results, ev.world.action.value))
            || (cfg.failureMode == "fail_open" && out.response.status == "degraded")
  {
    if IsPolicyCall(ev) {
      DecideOnMiss(cfg, s, ev);
      AllowedAfterMiss(cfg, s.(cache := AfterRead(cfg, s, ev)), ev);
    }
  }

  // ---------------------------------------------------------------- callers without a principal

  /** The call is by a caller without a principal, past the public check. */
  predicate IsAnonymous(ev: Event) {
    HasKey(ev) && PrincipalOf(ev) == "anonymous"
  }

  const LOOKALIKE := "anonymous:"

  /** A principal whose id starts like the key text of a caller without one. */
  predicate IsLookalike(ev: Event) {
    IsPolicyCall(ev) && LOOKALIKE <= PrincipalOf(ev)
  }

  /** Only such a principal's policy calls can share a key text with a caller without a principal. */
  lemma AnonymousTextIsLookalikes(a: Event, b: Event)
    requires IsPolicyCall(a) && IsAnonymous(b) && TextOf(a) == TextOf(b)
    ensures IsLookalike(a)
  {
    FirstColonOrLater("anonymous", TailOf(b), PrincipalOf(a), TailOf(a));
  }

  /**
   Without a valid bearer token naming a principal, nothing but a public action is ever allowed, in any
   run and in either failure mode, whatever services, paths and methods hold - as long as no principal's
   id starts with "anonymous:".
   */
  lemma AnonymousOnlyPublic(cfg: Config, start: int, evs: seq<Event>, i: int)
    requires GoodHash(cfg) && forall ev <- evs :: !IsLookalike(ev)
    requires 0 <= i < |evs| && OutcomeAt(cfg, start, evs, i).response.allowed
    requires HasKey(evs[i]) ==> PrincipalOf(evs[i]) == "anonymous"
    ensures evs[i].world.action == Some("public")
  {
    var s := After(cfg, start, evs[..i]);
    if IsHit(cfg, s, evs[i]) {
      var j := HitProvenance(cfg, start, evs, i);
      AnonymousTextIsLookalikes(evs[j], evs[i]);
      assert false;
    } else {
      AllowedOnMiss(cfg, s, evs[i]);
    }
  }

  /** A caller without a principal is answered from the allowed call of a principal "anonymous:x". */
  lemma LookalikeIsShared(cfg: Config, start: int, a: Event, b: Event, x: string)
    requires IsPolicyCall(a) && PrincipalOf(a) == LOOKALIKE + x
    requires a.world.pdp.Decided? && AllowsIn(a) && !a.world.writeFails
    requires IsAnonymous(b) && b.req.service == x + (":" + ServiceName(a.req))
    requires b.req.path == a.req.path && b.req.verb == a.req.verb
    requires !b.world.readFails && b.world.getAt <= a.world.setAt + cfg.cacheTTL
    ensures OutcomeAt(cfg, start, [a, b], 1).response.allowed
  {
    LookalikeText(x, ServiceName(a.req), a.req.path, a.req.verb);
    HitOnFirst(cfg, start, a, b);
  }

  lemma LookalikeText(x: string, service: string, path: string, verb: string)
    ensures KeyText(LOOKALIKE + x, service, path, verb) == KeyText("anonymous", x + (":" + service), path, verb)
  {
  }

  /** The second call of a run, sharing the first one's key, is a hit exactly while the decision lives. */
  lemma HitOnFirst(cfg: Config, start: int, a: Event, b: Event)
    requires IsPolicyCall(a) && a.world.pdp.Decided? && !a.world.writeFails
    requires HasKey(b) && KeyOf(cfg, b) == KeyOf(cfg, a) && !b.world.readFails
    ensures IsHit(cfg, After(cfg, start, [a]), b) <==> b.world.getAt <= a.world.setAt + LifeOf(cfg, a)
    ensures b.world.getAt <= a.world.setAt + LifeOf(cfg, a) ==>
              OutcomeAt(cfg, start, [a, b], 1).response.allowed == AllowsIn(a)
  {
    assert [a, b][..1] == [a];
    FirstIsStored(cfg, start, a);
  }

  /** In some run whose only principal is p, a caller without one is allowed on an action that is not public. */
  ghost predicate AnonymousServed(cfg: Config, start: int, p: string) {
    exists evs, i :: ServedAt(cfg, start, p, evs, i)
  }

  ghost predicate ServedAt(cfg: Config, start: int, p: string, evs: seq<Event>, i: int) {
    && (forall ev <- evs :: IsPolicyCall(ev) ==> PrincipalOf(ev) == p)
    && 0 <= i < |evs| && IsAnonymous(evs[i]) && OutcomeAt(cfg, start, evs, i).response.allowed
  }

  /** A call by this user, if there is a token, that the PDP allows. */
  function SampleCall(token: string, user: string, service: string): Event {
    Event(Request(token, service, "", "/", "GET", ""),
          World(Some("read"), Success(Claims("", user, [], None, [])),
                Decided([map["read" := "EFFECT_ALLOW"]]), 0, 0, 0, 0, false, false, {}))
  }

  lemma SampleCalls(user: string, service: string)
    requires user != "" && user != "anonymous"
    ensures IsPolicyCall(SampleCall("Bearer t", user, service)) && AllowsIn(SampleCall("Bearer t", user, service))
    ensures PrincipalOf(SampleCall("Bearer t", user, service)) == user
    ensures IsAnonymous(SampleCall("", user, service))
  {
    assert LowerAll("Bearer t"[..6]) == "bearer";
  }

  /**
   The exact condition: a principal's calls can let a caller without one through to an action that is
   not public if and only if its id starts with "anonymous:".
   */
  lemma AnonymousServedIffLookalike(cfg: Config, start: int, p: string)
    requires GoodHash(cfg) && cfg.cacheTTL >= 0
    ensures AnonymousServed(cfg, start, p) <==> LOOKALIKE <= p
  {
    if LOOKALIKE <= p {
      var x := p[10..];
      var a, b := SampleCall("Bearer t", p, "s"), SampleCall("", p, x + (":" + "s"));
      SampleCalls(p, "s");
      SampleCalls(p, x + (":" + "s"));
      assert p == LOOKALIKE + x;
      LookalikeIsShared(cfg, start, a, b, x);
      assert ServedAt(cfg, start, p, [a, b], 1);
    }
    if evs, i :| ServedAt(cfg, start, p, evs, i) {
      if !(LOOKALIKE <= p) {
        assert forall ev <- evs :: !IsLookalike(ev);
        AnonymousOnlyPublic(cfg, start, evs, i);
      }
    }
  }

  // ---------------------------------------------------------------- failure modes in lockstep

  /** The same response except for how a PDP outage is reported. */
  predicate SameResponse(open: Response, closed: Response) {
    open == closed
    || (&& open.status == "degraded" && open.allowed
        && (closed.status == "circuit_breaker_open" || closed.status == "error") && !closed.allowed
        && open.action == closed.action && open.principalID == closed.principalID)
  }

  /** The same effects and the same response. */
  predicate SameButForOutages(open: Outcome, closed: Outcome) {
    open.state == closed.state && open.asked == closed.asked && SameResponse(open.response, closed.response)
  }

  function FailOpen(cfg: Config): Config {
    cfg.(failureMode := "fail_open")
  }

  function FailClosed(cfg: Config): Config {
    cfg.(failureMode := "fail_closed")
  }

  lemma ConsultLockstep(cfg: Config, s: State, w: World, key: string, q: Query)
    ensures SameButForOutages(Consult(FailOpen(cfg), s, w, key, q), Consult(FailClosed(cfg), s, w, key, q))
  {
  }

  lemma EarlyLockstep(cfg: Config, s: State, ev: Event)
    requires !IsPolicyCall(ev) || IsHit(cfg, s, ev)
    ensures Decide(FailOpen(cfg), s, ev.req, ev.world) == Decide(FailClosed(cfg), s, ev.req, ev.world)
  {
  }

  lemma DecideLockstep(cfg: Config, s: State, ev: Event)
    ensures SameButForOutages(Decide(FailOpen(cfg), s, ev.req, ev.world), Decide(FailClosed(cfg), s, ev.req, ev.world))
  {
    if !IsPolicyCall(ev) || IsHit(cfg, s, ev) {
      EarlyLockstep(cfg, s, ev);
    } else {
      var missed := s.(cache := AfterRead(cfg, s, ev));
      DecideOnMiss(FailOpen(cfg), s, ev);
      DecideOnMiss(FailClosed(cfg), s, ev);
      ConsultLockstep(cfg, missed, ev.world, KeyOf(cfg, ev), QueryFor(cfg, ev));
    }
  }

  /** The failure mode never influences the cache or the breaker. */
  lemma {:induction false} ModeKeepsState(cfg: Config, start: int, evs: seq<Event>)
    ensures After(FailOpen(cfg), start, evs) == After(FailClosed(cfg), start, evs)
  {
    if evs == [] {
    } else {
      var init, ev := evs[..|evs| - 1], evs[|evs| - 1];
      ModeKeepsState(cfg, start, init);
      DecideLockstep(cfg, After(FailOpen(cfg), start, init), ev);
    }
  }

  /**
   Two services differing only in failure mode stay in lockstep: same states, same PDP queries, and
   the same responses except where one degrades and the other reports the breaker or an error.
   */
  lemma Lockstep(cfg: Config, start: int, evs: seq<Event>, i: int)
    requires 0 <= i < |evs|
    ensures var open := OutcomeAt(FailOpen(cfg), start, evs, i);
            var closed := OutcomeAt(FailClosed(cfg), start, evs, i);
            SameButForOutages(open, closed) && (closed.response.allowed ==> open.response.allowed)
  {
    ModeKeepsState(cfg, start, evs[..i]);
    DecideLockstep(cfg, After(FailOpen(cfg), start, evs[..i]), evs[i]);
  }

  // ---------------------------------------------------------------- no recovery through Authorize

  /** Serially, requests alone never leave the breaker half-open. */
  lemma {:induction false} NeverHalfOpen(cfg: Config, start: int, evs: seq<Event>)
    ensures After(cfg, start, evs).breaker.state != B.HalfOpen
  {
    if evs == [] {
    } else {
      NeverHalfOpen(cfg, start, evs[..|evs| - 1]);
    }
  }

  /**
   Once open, the breaker of a serial run stays exactly as it is and the PDP is never asked again,
   however much time passes: Authorize's own guard keeps every call away from the recovery probe.
   */
  lemma {:induction false} OpenIsForever(cfg: Config, start: int, evs: seq<Event>, i: int, j: int)
    requires cfg.breakerEnabled && 0 <= i <= j < |evs|
    requires After(cfg, start, evs[..i]).breaker.state == B.Open
    ensures After(cfg, start, evs[..j]).breaker == After(cfg, start, evs[..i]).breaker
    ensures OutcomeAt(cfg, start, evs, j).asked.None?
    ensures IsPolicyCall(evs[j]) && !IsHit(cfg, After(cfg, start, evs[..j]), evs[j]) ==>
              OutcomeAt(cfg, start, evs, j).response
              == OnBreakerOpen(cfg, evs[j].world.action.value, PrincipalOf(evs[j]))
    decreases j - i
  {
    if i == j {
    } else {
      OpenIsForever(cfg, start, evs, i, j - 1);
      assert evs[..j][..j - 1] == evs[..j - 1];
      OpenStep(cfg, After(cfg, start, evs[..j - 1]), evs[j - 1]);
    }
    OpenStep(cfg, After(cfg, start, evs[..j]), evs[j]);
  }

  lemma OpenStep(cfg: Config, s: State, ev: Event)
    requires cfg.breakerEnabled && s.breaker.state == B.Open
    ensures var out := Decide(cfg, s, ev.req, ev.world);
            && out.state.breaker == s.breaker && out.asked.None?
            && (IsPolicyCall(ev) && !IsHit(cfg, s, ev) ==>
                  out.response == OnBreakerOpen(cfg, ev.world.action.value, PrincipalOf(ev)))
  {
  }

  // ---------------------------------------------------------------- the cache is transparent

  /** The same events with every cache read failing: the service without its cache. */
  function WithoutReads(evs: seq<Event>): (r: seq<Event>)
    ensures |r| == |evs|
    ensures forall i | 0 <= i < |evs| :: r[i] == Event(evs[i].req, evs[i].world.(readFails := true))
  {
    seq(|evs|, i requires 0 <= i < |evs| => Event(evs[i].req, evs[i].world.(readFails := true)))
  }

  /** The PDP is a function of the query. */
  ghost predicate PdpIs(cfg: Config, evs: seq<Event>, pdp: Query -> seq<map<string, string>>) {
    forall i | 0 <= i < |evs| && HasKey(evs[i]) :: evs[i].world.pdp == Decided(pdp(QueryFor(cfg, evs[i])))
  }

  /** Calls that share a cache key ask the same question. */
  ghost predicate KeysDetermineQueries(cfg: Config, evs: seq<Event>) {
    forall i, j | 0 <= i < |evs| && 0 <= j < |evs| && HasKey(evs[i]) && HasKey(evs[j])
                  && KeyOf(cfg, evs[i]) == KeyOf(cfg, evs[j]) ::
      QueryFor(cfg, evs[i]) == QueryFor(cfg, evs[j])
  }

  /** It is enough that they share what the key leaves out: action, roles, raw service and scope. */
  lemma SharingSuffices(cfg: Config, evs: seq<Event>)
    requires GoodHash(cfg) && forall ev <- evs :: ColonFreeEvent(ev)
    requires forall i, j | 0 <= i < |evs| && 0 <= j < |evs| && HasKey(evs[i]) && HasKey(evs[j])
                           && KeyOf(cfg, evs[i]) == KeyOf(cfg, evs[j]) ::
               && evs[i].world.action == evs[j].world.action
               && QueryFor(cfg, evs[i]).roles == QueryFor(cfg, evs[j]).roles
               && evs[i].req.service == evs[j].req.service
               && EffectiveScope(cfg, evs[i].req) == EffectiveScope(cfg, evs[j].req)
    ensures KeysDetermineQueries(cfg, evs)
  {
    forall i, j | 0 <= i < |evs| && 0 <= j < |evs| && HasKey(evs[i]) && HasKey(evs[j])
                  && KeyOf(cfg, evs[i]) == KeyOf(cfg, evs[j])
      ensures QueryFor(cfg, evs[i]) == QueryFor(cfg, evs[j])
    {
      var a, b := evs[i], evs[j];
      assert ColonFreeEvent(a) && ColonFreeEvent(b);
      KeyTextUnambiguous(PrincipalOf(a), ServiceName(a.req), a.req.path, a.req.verb,
                         PrincipalOf(b), ServiceName(b.req), b.req.path, b.req.verb);
    }
  }

  /** If the PDP never fails, the breaker never trips. */
  lemma {:induction false} StaysClosed(cfg: Config, start: int, evs: seq<Event>)
    requires forall i | 0 <= i < |evs| && HasKey(evs[i]) :: evs[i].world.pdp.Decided?
    ensures After(cfg, start, evs).breaker.state == B.Closed
  {
    if evs == [] {
    } else {
      StaysClosed(cfg, start, evs[..|evs| - 1]);
    }
  }

  /** What a policy call answers when nothing is cached for it and the PDP is up. */
  lemma PolicyMiss(cfg: Config, s: State, ev: Event)
    requires IsPolicyCall(ev) && ev.world.pdp.Decided? && s.breaker.state == B.Closed
    requires !IsHit(cfg, s, ev)
    ensures Decide(cfg, s, ev.req, ev.world).response
         == FromPdp(ev.world.pdp.results, ev.world.action.value, PrincipalOf(ev))
  {
  }

  /**
   Cache transparency: with a PDP that is a function of its query, and calls sharing a cache key
   asking the same query, every call of every run gets the same Allowed, Status and Action with the
   cache as without it, whatever the cache evicts and whenever its commands fail.
   */
  lemma Transparent(cfg: Config, start: int, evs: seq<Event>, pdp: Query -> seq<map<string, string>>, i: int)
    requires 0 <= i < |evs| && PdpIs(cfg, evs, pdp) && KeysDetermineQueries(cfg, evs)
    ensures var with := OutcomeAt(cfg, start, evs, i).response;
            var without := OutcomeAt(cfg, start, WithoutReads(evs), i).response;
            with.allowed == without.allowed && with.status == without.status && with.action == without.action
  {
    var bare := WithoutReads(evs);
    var ev := evs[i];
    StaysClosed(cfg, start, evs[..i]);
    StaysClosed(cfg, start, bare[..i]);
    var s := After(cfg, start, evs[..i]);
    if IsHit(cfg, s, ev) {
      var j := EntryProvenance(cfg, start, evs[..i], KeyOf(cfg, ev));
      assert evs[..i][j] == evs[j];
      assert QueryFor(cfg, evs[j]) == QueryFor(cfg, ev);
      PolicyMiss(cfg, After(cfg, start, bare[..i]), bare[i]);
    } else if IsPolicyCall(ev) {
      PolicyMiss(cfg, s, ev);
      PolicyMiss(cfg, After(cfg, start, bare[..i]), bare[i]);
    }
  }

  /**
   Two policy calls sharing a key on which the PDP decides differently are told apart without the
   cache and confused with it, while the first decision lives.
   */
  lemma SharedKeyConfuses(cfg: Config, start: int, a: Event, b: Event)
    requires IsPolicyCall(a) && IsPolicyCall(b) && KeyOf(cfg, a) == KeyOf(cfg, b)
    requires a.world.pdp.Decided? && b.world.pdp.Decided? && !a.world.writeFails && !b.world.readFails
    requires AllowsIn(a) != AllowsIn(b)
    requires b.world.getAt <= a.world.setAt + if AllowsIn(a) then cfg.cacheTTL else cfg.cacheFailedTTL
    ensures OutcomeAt(cfg, start, [a, b], 1).response.allowed
         != OutcomeAt(cfg, start, WithoutReads([a, b]), 1).response.allowed
  {
    var evs, bare := [a, b], WithoutReads([a, b]);
    assert evs[..1] == [a] && bare[..1] == [bare[0]];
    FirstIsStored(cfg, start, a);
    StaysClosed(cfg, start, bare[..1]);
    PolicyMiss(cfg, After(cfg, start, bare[..1]), bare[1]);
  }

  /** The first call of a run stores what it is answered. */
  lemma FirstIsStored(cfg: Config, start: int, a: Event)
    requires IsPolicyCall(a) && a.world.pdp.Decided? && !a.world.writeFails
    ensures var s, resp := After(cfg, start, [a]), FromPdp(a.world.pdp.results, a.world.action.value, PrincipalOf(a));
            KeyOf(cfg, a) in s.cache && s.cache[KeyOf(cfg, a)] == EntryOf(cfg, resp, a.world.setAt)
  {
    assert [a][..0] == [];
    PolicyMiss(cfg, After(cfg, start, []), a);
    assert After(cfg, start, [a]) == Decide(cfg, After(cfg, start, []), a.req, a.world).state;
  }

  /** The PDP's answer to this call allows it. */
  predicate AllowsIn(ev: Event)
    requires ev.world.action.Some? && ev.world.pdp.Decided?
  {
    SaysAllow(ev.world.pdp.results, ev.world.action.value)
  }

  /** A call whose PDP answer is taken from a function of the query. */
  function AnsweredBy(cfg: Config, ev: Event, pdp: Query -> seq<map<string, string>>): (r: Event)
    requires HasKey(ev)
    ensures HasKey(r) && KeyOf(cfg, r) == KeyOf(cfg, ev) && QueryFor(cfg, r) == QueryFor(cfg, ev)
  {
    Event(ev.req, ev.world.(pdp := Decided(pdp(QueryFor(cfg, ev)))))
  }

  /** With this PDP, the second of two calls gets the same decision with the cache as without it. */
  ghost predicate Unconfused(cfg: Config, start: int, a: Event, b: Event, pdp: Query -> seq<map<string, string>>)
    requires HasKey(a) && HasKey(b)
  {
    var evs := [AnsweredBy(cfg, a, pdp), AnsweredBy(cfg, b, pdp)];
    var with := OutcomeAt(cfg, start, evs, 1).response;
    var without := OutcomeAt(cfg, start, WithoutReads(evs), 1).response;
    with.allowed == without.allowed && with.status == without.status && with.action == without.action
  }

  /** A PDP that allows one query only. */
  function AllowingOnly(q: Query): Query -> seq<map<string, string>> {
    x => if x == q then [map[q.action := "EFFECT_ALLOW"]] else []
  }

  lemma SameQueryIsUnconfused(cfg: Config, start: int, a: Event, b: Event, pdp: Query -> seq<map<string, string>>)
    requires HasKey(a) && HasKey(b) && QueryFor(cfg, a) == QueryFor(cfg, b)
    ensures Unconfused(cfg, start, a, b, pdp)
  {
    Transparent(cfg, start, [AnsweredBy(cfg, a, pdp), AnsweredBy(cfg, b, pdp)], pdp, 1);
  }

  lemma OtherQueryIsConfused(cfg: Config, start: int, a: Event, b: Event)
    requires IsPolicyCall(a) && IsPolicyCall(b) && KeyOf(cfg, a) == KeyOf(cfg, b)
    requires !a.world.writeFails && !b.world.readFails
    requires b.world.getAt <= a.world.setAt + cfg.cacheTTL && QueryFor(cfg, a) != QueryFor(cfg, b)
    ensures !Unconfused(cfg, start, a, b, AllowingOnly(QueryFor(cfg, a)))
  {
    var pdp := AllowingOnly(QueryFor(cfg, a));
    SharedKeyConfuses(cfg, start, AnsweredBy(cfg, a, pdp), AnsweredBy(cfg, b, pdp));
  }

  /**
   The exact condition for two policy calls that share a key, the second reading what the first stored
   while it lives: no PDP has them confused if and only if they ask the same query.
   */
  lemma UnconfusedIffSameQuery(cfg: Config, start: int, a: Event, b: Event)
    requires IsPolicyCall(a) && IsPolicyCall(b) && KeyOf(cfg, a) == KeyOf(cfg, b)
    requires !a.world.writeFails && !b.world.readFails
    requires b.world.getAt <= a.world.setAt + cfg.cacheTTL
    ensures (forall pdp: Query -> seq<map<string, string>> :: Unconfused(cfg, start, a, b, pdp))
       <==> QueryFor(cfg, a) == QueryFor(cfg, b)
  {
    if QueryFor(cfg, a) == QueryFor(cfg, b) {
      forall pdp: Query -> seq<map<string, string>> ensures Unconfused(cfg, start, a, b, pdp) {
        SameQueryIsUnconfused(cfg, start, a, b, pdp);
      }
    } else {
      OtherQueryIsConfused(cfg, start, a, b);
    }
  }

  /** Requests that differ only in scope share a key but not a query. */
  lemma ScopeIsNotInTheKey(cfg: Config, ev: Event, scope: string)
    requires HasKey(ev) && scope != "" && scope != EffectiveScope(cfg, ev.req)
    ensures var other := Event(ev.req.(scope := scope), ev.world);
            HasKey(other) && KeyOf(cfg, other) == KeyOf(cfg, ev) && QueryFor(cfg, other) != QueryFor(cfg, ev)
  {
  }

  /** A service derived from the host shares its key with the same service named outright. */
  lemma HostAliasesService(cfg: Config, ev: Event)
    requires HasKey(ev) && ev.req.service == ""
    ensures var other := Event(ev.req.(service := DetermineService(ev.req.host)), ev.world);
            HasKey(other) && KeyOf(cfg, other) == KeyOf(cfg, ev) && QueryFor(cfg, other) != QueryFor(cfg, ev)
  {
  }
}
