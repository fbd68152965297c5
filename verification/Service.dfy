/**
 The decision service: one Authorize call over the decision cache, the circuit breaker and the policy
 decision point (PDP).  What the outside world answers during a call - the mapping lookup, token
 parsing, the PDP, the clock, a failing cache backend - is the call's World.
 */
module Service {
  import opened Wrappers
  import B = Breaker
  import C = MemoryCache
  import R = RedisCache

  datatype Config = Config(
    failureMode: string,
    breakerEnabled: bool,
    cacheTTL: int,
    cacheFailedTTL: int,
    defaultPolicyScope: string,
    defaultResourceKind: string,
    failureThreshold: int,
    recoveryTime: int,
    redisConfigured: bool,         // a Redis URL, or Sentinel hosts and a master name
    hash: string -> string)        // SHA-256 in hexadecimal

  const HALF_OPEN_MAX_REQUESTS := 3
  const MAX_MEMORY_SIZE := 10000

  function BreakerConfig(cfg: Config): B.Config {
    B.Config(cfg.failureThreshold, cfg.recoveryTime, HALF_OPEN_MAX_REQUESTS)
  }

  datatype Request = Request(
    authHeader: string, service: string, scope: string, path: string, verb: string, host: string)

  datatype Response = Response(
    allowed: bool, status: string, action: string, principalID: string, cache: string, reason: string)

  datatype Claims = Claims(
    sub: string, preferredUsername: string,
    roles: seq<string>, realmRoles: Option<seq<string>>, groups: seq<string>)

  /** The resource and principal the PDP is asked about. */
  datatype Query = Query(
    principal: string, roles: seq<string>, kind: string, scope: string,
    path: string, verb: string, service: string, action: string)

  /** A PDP answer: an error, or one map from action to effect per resource. */
  datatype PdpAnswer = PdpError(message: string) | Decided(results: seq<map<string, string>>)

  datatype World = World(
    action: Option<string>,        // the mapping client's answer
    claims: Result<Claims>,        // the token parser's answer, when it is asked
    pdp: PdpAnswer,                // the PDP's answer, when it is asked
    getAt: int, checkAt: int, doneAt: int, setAt: int,
    readFails: bool, writeFails: bool,
    lost: set<string>)             // entries the cache drops when this call writes to it

  datatype State = State(cache: C.Data, breaker: B.Status)

  // ---------------------------------------------------------------- principals

  function Lower(c: char): char {
    if 'A' <= c <= 'Z' then (c as int + 32) as char else c
  }

  function LowerAll(s: string): string {
    seq(|s|, i requires 0 <= i < |s| => Lower(s[i]))
  }

  function ExtractBearerToken(authHeader: string): Option<string> {
    if |authHeader| >= 7 && LowerAll(authHeader[..6]) == "bearer" && authHeader[6] == ' '
    then Some(authHeader[7..]) else None
  }

  /** The values of a list in order of first appearance. */
  function Distinct(s: seq<string>): seq<string> {
    if s == [] then []
    else
      var d := Distinct(s[..|s| - 1]);
      var x := s[|s| - 1];
      if x in d then d else d + [x]
  }

  /** x occurs in s before any y does. */
  ghost predicate Precedes(s: seq<string>, x: string, y: string) {
    exists p | 0 <= p < |s| :: s[p] == x && y !in s[..p + 1]
  }

  lemma PrecedesLonger(s: seq<string>, x: string, y: string, z: string)
    requires Precedes(s, x, y)
    ensures Precedes(s + [z], x, y)
  {
    var p :| 0 <= p < |s| && s[p] == x && y !in s[..p + 1];
    assert (s + [z])[..p + 1] == s[..p + 1] && (s + [z])[p] == x;
  }

  /** The same values, none twice, in the order of their first appearance. */
  lemma {:induction false} DistinctIsASet(s: seq<string>)
    ensures forall x :: x in Distinct(s) <==> x in s
    ensures forall i, j | 0 <= i < j < |Distinct(s)| ::
              Distinct(s)[i] != Distinct(s)[j] && Precedes(s, Distinct(s)[i], Distinct(s)[j])
  {
    if s == [] {
    } else {
      var init, z := s[..|s| - 1], s[|s| - 1];
      var d := Distinct(init);
      DistinctIsASet(init);
      assert s == init + [z];
      forall i, j | 0 <= i < j < |Distinct(s)| ensures Precedes(s, Distinct(s)[i], Distinct(s)[j]) {
        if j < |d| {
          PrecedesLonger(init, d[i], d[j], z);
        } else {
          assert d[i] in init && z !in init;
          var p :| 0 <= p < |init| && init[p] == d[i];
          assert s[..p + 1] == init[..p + 1];
        }
      }
    }
  }

  lemma DistinctSnoc(s: seq<string>, x: string)
    ensures Distinct(s + [x]) == if x in Distinct(s) then Distinct(s) else Distinct(s) + [x]
  {
  }

  function AllRoles(c: Claims): seq<string> {
    c.roles + (if c.realmRoles.Some? then c.realmRoles.value else []) + c.groups
  }

  ghost predicate SameValues(seen: set<string>, roles: seq<string>) {
    forall r :: r in seen <==> r in roles
  }

  /** The distinct values of one list and of the first i of another. */
  function DistinctUpTo(before: seq<string>, values: seq<string>, i: nat): seq<string>
    requires i <= |values|
  {
    if i == 0 then Distinct(before)
    else
      var d := DistinctUpTo(before, values, i - 1);
      if values[i - 1] in d then d else d + [values[i - 1]]
  }

  lemma {:induction false} DistinctUpToMeaning(before: seq<string>, values: seq<string>, i: nat)
    requires i <= |values|
    ensures DistinctUpTo(before, values, i) == Distinct(before + values[..i])
  {
    if i == 0 {
      assert before + values[..0] == before;
    } else {
      DistinctUpToMeaning(before, values, i - 1);
      DistinctSnoc(before + values[..i - 1], values[i - 1]);
      assert before + values[..i] == before + values[..i - 1] + [values[i - 1]];
    }
  }

  lemma SeenOneMore(seen: set<string>, roles: seq<string>, x: string)
    requires SameValues(seen, roles)
    ensures SameValues(seen + {x}, roles + [x])
  {
  }

  method AppendUnique(ghost before: seq<string>, roles: seq<string>, seen: set<string>, values: seq<string>)
    returns (roles': seq<string>, seen': set<string>)
    requires roles == Distinct(before) && SameValues(seen, roles)
    ensures roles' == Distinct(before + values) && SameValues(seen', roles')
  {
    roles', seen' := roles, seen;
    for i := 0 to |values|
      invariant roles' == DistinctUpTo(before, values, i) && SameValues(seen', roles')
    {
      if values[i] in seen' {
        continue;
      }
      SeenOneMore(seen', roles', values[i]);
      seen' := seen' + {values[i]};
      roles' := roles' + [values[i]];
    }
    DistinctUpToMeaning(before, values, |values|);
    assert values[..|values|] == values;
  }

  method GetRoles(c: Claims) returns (roles: seq<string>)
    ensures roles == Distinct(AllRoles(c))
  {
    var seen: set<string> := {};
    roles := [];
    roles, seen := AppendUnique([], roles, seen, c.roles);
    assert [] + c.roles == c.roles;
    if c.realmRoles.Some? {
      roles, seen := AppendUnique(c.roles, roles, seen, c.realmRoles.value);
    } else {
      assert c.roles + [] == c.roles;
    }
    roles, seen := AppendUnique(
      c.roles + (if c.realmRoles.Some? then c.realmRoles.value else []), roles, seen, c.groups);
  }

  function PrincipalID(c: Claims): string {
    var user := if c.preferredUsername != "" then c.preferredUsername else c.sub;
    if user == "" then "anonymous" else user
  }

  /** The caller's id and roles, or the token error. */
  function ExtractPrincipal(authHeader: string, claims: Result<Claims>): Result<(string, seq<string>)> {
    if ExtractBearerToken(authHeader).None? then Success(("anonymous", []))
    else
      match claims
      case Failure(e) => Failure("JWT validation failed: " + e)
      case Success(c) =>
        var roles := Distinct(AllRoles(c));
        Success((PrincipalID(c),
                 if roles == [] && PrincipalID(c) != "anonymous" then ["authenticated"] else roles))
  }

  // ---------------------------------------------------------------- keys and queries

  function DetermineService(host: string): string {
    if "go-api" <= host then "go"
    else if "rmi-api" <= host then "rmi"
    else if "admin-api" <= host then "admin"
    else "go"
  }

  function ServiceName(req: Request): string {
    if req.service == "" then DetermineService(req.host) else req.service
  }

  function KeyText(principal: string, service: string, path: string, verb: string): string {
    principal + (":" + (service + (":" + (path + (":" + verb)))))
  }

  function CacheKey(cfg: Config, principal: string, req: Request): string {
    cfg.hash(KeyText(principal, ServiceName(req), req.path, req.verb))
  }

  function EffectiveScope(cfg: Config, req: Request): string {
    if req.scope != "" then req.scope
    else if req.service != "" then req.service
    else cfg.defaultPolicyScope
  }

  function QueryOf(cfg: Config, principal: string, roles: seq<string>, action: string, req: Request): Query {
    Query(principal, roles, if cfg.defaultResourceKind == "" then "generic" else cfg.defaultResourceKind,
          EffectiveScope(cfg, req), req.path, req.verb, req.service, action)
  }

  // ---------------------------------------------------------------- responses

  function GetDecision(results: seq<map<string, string>>, action: string): string {
    if results == [] || action !in results[0] then "" else results[0][action]
  }

  predicate IsAllowed(results: seq<map<string, string>>, action: string) {
    if results == [] || action !in results[0] then false else results[0][action] == "EFFECT_ALLOW"
  }

  function FromPdp(results: seq<map<string, string>>, action: string, principal: string): Response {
    var allowed := IsAllowed(results, action);
    Response(allowed, if allowed then "allowed" else "denied", action, principal, "miss",
             if !allowed && GetDecision(results, action) != "" then "policy_denied" else "")
  }

  function Join(parts: seq<string>): string {
    if parts == [] then "" else if |parts| == 1 then parts[0] else parts[0] + ", " + Join(parts[1..])
  }

  function FromCache(d: C.Decision): Response {
    Response(d.success, if d.success then "allowed" else "denied", d.action, "", "hit", Join(d.errorCodes))
  }

  function ToCache(resp: Response, setAt: int): C.Decision {
    C.Decision(resp.allowed, resp.action, [resp.status], setAt)
  }

  function EntryOf(cfg: Config, resp: Response, setAt: int): C.Entry {
    C.Entry(ToCache(resp, setAt), setAt + if resp.allowed then cfg.cacheTTL else cfg.cacheFailedTTL)
  }

  /** A decision read back from the cache answers as the PDP's own response did. */
  lemma CacheRoundTrip(results: seq<map<string, string>>, action: string, principal: string, setAt: int)
    ensures var resp := FromPdp(results, action, principal);
            FromCache(ToCache(resp, setAt)) == resp.(principalID := "", cache := "hit", reason := resp.status)
  {
  }

  function OnBreakerOpen(cfg: Config, action: string, principal: string): Response {
    if cfg.failureMode == "fail_open" then
      Response(true, "degraded", action, principal, "miss", "circuit breaker open, fail-open mode")
    else
      Response(false, "circuit_breaker_open", action, principal, "miss", "circuit breaker open, fail-closed mode")
  }

  function OnError(cfg: Config, error: string, action: string, principal: string): Response {
    if cfg.failureMode == "fail_open" then
      Response(true, "degraded", action, principal, "miss", "authorization error: " + error)
    else
      Response(false, "error", action, principal, "miss", "authorization error: " + error)
  }

  // ---------------------------------------------------------------- one call

  /** A call's effect: the new state, the response, and the query if the PDP was asked. */
  datatype Outcome = Outcome(state: State, response: Response, asked: Option<Query>)

  function Decide(cfg: Config, s: State, req: Request, w: World): Outcome {
    match w.action
    case None =>
      Outcome(s, Response(false, "no_action_mapping", "", "unknown", "miss",
                          "no action mapping found for endpoint"), None)
    case Some(action) =>
      if action == "public" then
        Outcome(s, Response(true, "allowed", action, "anonymous", "miss", "public endpoint"), None)
      else
        match ExtractPrincipal(req.authHeader, w.claims)
        case Failure(e) => Outcome(s, Response(false, "invalid_token", "", "", "miss", e), None)
        case Success((principal, roles)) => Identified(cfg, s, req, w, action, principal, roles)
  }

  /** The rest of a call once the principal is known. */
  function Identified(cfg: Config, s: State, req: Request, w: World,
                      action: string, principal: string, roles: seq<string>): Outcome {
    var key := CacheKey(cfg, principal, req);
    var hit := if w.readFails then None else C.Lookup(s.cache, key, w.getAt);
    if hit.Some? then Outcome(s, FromCache(hit.value), None)
    else
      var s1 := if w.readFails then s else s.(cache := s.cache - {key});
      if action == "authenticated" then
        Outcome(s1, if principal == "anonymous"
                    then Response(false, "denied", action, principal, "miss", "authentication required")
                    else Response(true, "allowed", action, principal, "miss", "valid JWT token"), None)
      else if principal == "anonymous" then
        Outcome(s1, Response(false, "denied", action, principal, "miss", "authentication required"), None)
      else if cfg.breakerEnabled && s.breaker.state == B.Open then
        Outcome(s1, OnBreakerOpen(cfg, action, principal), None)
      else
        Consult(cfg, s1, w, key, QueryOf(cfg, principal, roles, action, req))
  }

  /** Asking the PDP, through the breaker when it is enabled, and caching what it decides. */
  function Consult(cfg: Config, s: State, w: World, key: string, q: Query): Outcome {
    var (breaker, verdict) :=
      if cfg.breakerEnabled then
        B.Executed(BreakerConfig(cfg), s.breaker, B.Call(w.checkAt, w.pdp.PdpError?, w.doneAt))
      else (s.breaker, if w.pdp.PdpError? then B.FnFailed else B.FnSucceeded);
    match verdict
    case Rejected => Outcome(s, OnError(cfg, "circuit breaker is open", q.action, q.principal), None)
    case FnFailed =>
      Outcome(s.(breaker := breaker), OnError(cfg, w.pdp.message, q.action, q.principal), Some(q))
    case FnSucceeded =>
      var resp := FromPdp(w.pdp.results, q.action, q.principal);
      Outcome(State(Cached(cfg, s.cache, w, key, resp), breaker), resp, Some(q))
  }

  /** The cache after storing a response, whatever the backend drops to make room. */
  function Cached(cfg: Config, cache: C.Data, w: World, key: string, resp: Response): C.Data {
    var kept := cache - w.lost;
    if w.writeFails then kept else kept[key := EntryOf(cfg, resp, w.setAt)]
  }

  // ---------------------------------------------------------------- the object

  /** The cache a service is built over. */
  datatype Backend = InMemory(memory: C.MemoryCache) | InRedis(redis: R.RedisCache)

  class Service {
    const config: Config
    const cache: Backend
    const breaker: B.Breaker

    function CacheObject(): object {
      match cache
      case InMemory(m) => m
      case InRedis(r) => r
    }

    ghost predicate Valid()
      reads this, CacheObject(), breaker
    {
      && (cache.InMemory? ==> cache.memory.Valid())
      && breaker.config == BreakerConfig(config)
    }

    function Entries(): C.Data
      reads this, CacheObject()
    {
      match cache
      case InMemory(m) => m.data
      case InRedis(r) => r.data
    }

    function Value(): State
      reads this, CacheObject(), breaker
    {
      State(Entries(), breaker.Value())
    }

    /** What a call meets: only Redis fails, and what the in-memory cache drops it chooses itself. */
    function Met(w: World, lost: set<string>): World {
      if cache.InRedis? then w else w.(readFails := false, writeFails := false, lost := lost)
    }

    constructor (config: Config, now: int)
      ensures Valid() && fresh(CacheObject()) && fresh(breaker)
      ensures this.config == config && Value() == State(map[], B.New(now))
      ensures cache.InRedis? <==> config.redisConfigured
      ensures cache.InMemory? ==> cache.memory.maxMemorySize == MAX_MEMORY_SIZE
      ensures breaker.config.halfOpenMaxRequests == 3
    {
      this.config := config;
      if config.redisConfigured {
        var redis := new R.RedisCache();
        cache := InRedis(redis);
      } else {
        var memory := new C.MemoryCache(MAX_MEMORY_SIZE);
        cache := InMemory(memory);
      }
      this.breaker := new B.Breaker(BreakerConfig(config), now);
    }

    method CacheGet(key: string, w: World) returns (cached: Option<C.Decision>)
      requires Valid()
      modifies CacheObject()
      ensures Valid()
      ensures var fails := cache.InRedis? && w.readFails;
              && cached == (if fails then None else C.Lookup(old(Entries()), key, w.getAt))
              && Entries() == if fails || cached.Some? then old(Entries()) else old(Entries()) - {key}
    {
      match cache {
        case InMemory(memory) => cached := memory.Get(key, w.getAt);
        case InRedis(redis) => cached := redis.Get(key, w.getAt, w.readFails);
      }
    }

    method Authorize(req: Request, w: World) returns (resp: Response, ghost lost: set<string>)
      requires Valid()
      modifies CacheObject(), breaker
      ensures Valid()
      ensures var out := Decide(config, old(Value()), req, Met(w, lost));
              resp == out.response && Value() == out.state
    {
      lost := {};
      if w.action.None? {
        resp := Response(false, "no_action_mapping", "", "unknown", "miss", "no action mapping found for endpoint");
        return;
      }
      var action := w.action.value;
      if action == "public" {
        resp := Response(true, "allowed", action, "anonymous", "miss", "public endpoint");
        return;
      }
      var who := ExtractPrincipal(req.authHeader, w.claims);
      if who.Failure? {
        resp := Response(false, "invalid_token", "", "", "miss", who.error);
        return;
      }
      var (principal, roles) := who.value;
      resp, lost := AuthorizeIdentified(req, w, action, principal, roles);
    }

    method AuthorizeIdentified(req: Request, w: World, action: string, principal: string, roles: seq<string>)
      returns (resp: Response, ghost lost: set<string>)
      requires Valid()
      modifies CacheObject(), breaker
      ensures Valid()
      ensures var out := Identified(config, old(Value()), req, Met(w, lost), action, principal, roles);
              resp == out.response && Value() == out.state
    {
      lost := {};
      var key := CacheKey(config, principal, req);
      var cached := CacheGet(key, w);
      if cached.Some? {
        resp := FromCache(cached.value);
        return;
      }
      if action == "authenticated" {
        if principal == "anonymous" {
          resp := Response(false, "denied", action, principal, "miss", "authentication required");
        } else {
          resp := Response(true, "allowed", action, principal, "miss", "valid JWT token");
        }
        return;
      }
      if principal == "anonymous" {
        resp := Response(false, "denied", action, principal, "miss", "authentication required");
        return;
      }
      var open := breaker.IsOpen();
      if config.breakerEnabled && open {
        resp := OnBreakerOpen(config, action, principal);
        return;
      }
      resp, lost := ConsultPdp(w, key, QueryOf(config, principal, roles, action, req));
    }

    method ConsultPdp(w: World, key: string, q: Query) returns (resp: Response, ghost lost: set<string>)
      requires Valid()
      modifies CacheObject(), breaker
      ensures Valid()
      ensures var out := Consult(config, old(Value()), Met(w, lost), key, q);
              resp == out.response && Value() == out.state
    {
      lost := {};
      var verdict := if w.pdp.PdpError? then B.FnFailed else B.FnSucceeded;
      if config.breakerEnabled {
        verdict := breaker.Execute(B.Call(w.checkAt, w.pdp.PdpError?, w.doneAt));
      }
      match verdict {
        case Rejected => resp := OnError(config, "circuit breaker is open", q.action, q.principal);
        case FnFailed => resp := OnError(config, w.pdp.message, q.action, q.principal);
        case FnSucceeded =>
          resp := FromPdp(w.pdp.results, q.action, q.principal);
          lost := CacheAuthResult(key, resp, w);
      }
    }

    method CacheAuthResult(key: string, resp: Response, w: World) returns (ghost lost: set<string>)
      requires Valid()
      modifies CacheObject()
      ensures Valid()
      ensures Entries() == Cached(config, old(Entries()), Met(w, lost), key, resp)
    {
      var ttl := config.cacheTTL;
      if !resp.allowed {
        ttl := config.cacheFailedTTL;
      }
      lost := {};
      match cache {
        case InMemory(memory) =>
          ghost var before := memory.data;
          ghost var order := memory.Set(key, ToCache(resp, w.setAt), ttl, w.setAt);
          lost := Dropped(memory.maxMemorySize, before, order, key, EntryOf(config, resp, w.setAt));
        case InRedis(redis) =>
          redis.Set(key, ToCache(resp, w.setAt), ttl, w.setAt, w.lost, w.writeFails);
      }
    }
  }

  /** What a Set of the in-memory cache drops. */
  lemma Dropped(max: int, data: C.Data, order: seq<string>, key: string, entry: C.Entry) returns (lost: set<string>)
    requires C.IsOrder(order, data)
    ensures C.AfterSet(max, data, order, key, entry) == (data - lost)[key := entry]
  {
    var oldest := C.Scan(order, data);
    lost := if |data| >= max && oldest != "" then {oldest} else {};
    assert data - {} == data;
  }
}
