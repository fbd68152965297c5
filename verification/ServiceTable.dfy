/**
 What one call of the decision service comes to, as a table over its inputs: who the caller is, when it is
 allowed, with what status, and what the PDP is asked.
 */
module ServiceTable {
  import opened Wrappers
  import opened Service
  import opened ServiceRuns
  import B = Breaker
  import C = MemoryCache

  // ---------------------------------------------------------------- who the caller is

  /** The header is "bearer", in any case, a space, and a token. */
  predicate IsBearer(authHeader: string) {
    && |authHeader| >= 7 && authHeader[6] == ' '
    && forall i | 0 <= i < 6 :: authHeader[i] == "bearer"[i] || authHeader[i] == "BEARER"[i]
  }

  /** A token is used exactly when the header carries one. */
  lemma BearerExactly(authHeader: string)
    ensures ExtractBearerToken(authHeader).Some? <==> IsBearer(authHeader)
    ensures IsBearer(authHeader) ==> authHeader == authHeader[..7] + ExtractBearerToken(authHeader).value
  {
    if |authHeader| >= 7 {
      var scheme := authHeader[..6];
      assert forall i | 0 <= i < 6 :: LowerAll(scheme)[i] == Lower(authHeader[i]);
      assert IsBearer(authHeader) && authHeader[6] == ' ' ==> LowerAll(scheme) == "bearer";
      assert LowerAll(scheme) == "bearer" ==> forall i | 0 <= i < 6 :: Lower(authHeader[i]) == "bearer"[i];
    }
  }

  /**
   The caller of a call past the public check: turned away for a bad token, without a principal when it
   brings no token or one that names nobody, and otherwise the preferred user name or else the subject.
   */
  lemma CallerIs(ev: Event)
    requires ev.world.action.Some? && ev.world.action.value != "public"
    ensures HasKey(ev) <==> !IsBearer(ev.req.authHeader) || ev.world.claims.Success?
    ensures !IsBearer(ev.req.authHeader) ==> PrincipalOf(ev) == "anonymous"
    ensures IsBearer(ev.req.authHeader) && ev.world.claims.Success? ==>
              var c := ev.world.claims.value;
              && (c.preferredUsername != "" ==> PrincipalOf(ev) == c.preferredUsername)
              && (c.preferredUsername == "" && c.sub != "" ==> PrincipalOf(ev) == c.sub)
              && (c.preferredUsername == "" && c.sub == "" ==> PrincipalOf(ev) == "anonymous")
  {
    BearerExactly(ev.req.authHeader);
  }

  /** The roles a claim gives: the direct ones, those of the realm, and the groups. */
  predicate HasRole(c: Claims, role: string) {
    role in c.roles || (c.realmRoles.Some? && role in c.realmRoles.value) || role in c.groups
  }

  /** What the PDP is told of a token's roles: each once, and "authenticated" if there are none. */
  lemma RolesAre(cfg: Config, ev: Event)
    requires IsPolicyCall(ev) && IsBearer(ev.req.authHeader) && ev.world.claims.Success?
    ensures var c, roles := ev.world.claims.value, QueryFor(cfg, ev).roles;
            && ((exists role :: HasRole(c, role)) ==> forall role :: role in roles <==> HasRole(c, role))
            && ((forall role :: !HasRole(c, role)) ==> roles == ["authenticated"])
            && forall i, j | 0 <= i < j < |roles| :: roles[i] != roles[j]
  {
    var c := ev.world.claims.value;
    BearerExactly(ev.req.authHeader);
    DistinctIsASet(AllRoles(c));
    assert forall role :: role in AllRoles(c) <==> HasRole(c, role);
    if Distinct(AllRoles(c)) != [] {
      assert Distinct(AllRoles(c))[0] in AllRoles(c);
    }
  }

  /** In this order: a direct role before any other, and one of the realm before any that is only a group. */
  lemma RolesInOrder(c: Claims, i: nat, j: nat)
    requires i < |Distinct(AllRoles(c))| && j < |Distinct(AllRoles(c))|
    requires var x, y := Distinct(AllRoles(c))[i], Distinct(AllRoles(c))[j];
             || (x in c.roles && y !in c.roles)
             || (c.realmRoles.Some? && x in c.realmRoles.value && y !in c.roles && y !in c.realmRoles.value)
    ensures i < j
  {
    var x, y := Distinct(AllRoles(c))[i], Distinct(AllRoles(c))[j];
    var head := if x in c.roles && y !in c.roles then c.roles else c.roles + c.realmRoles.value;
    assert head <= AllRoles(c) && x in head;
    DistinctIsASet(AllRoles(c));
    InHeadFirst(head, AllRoles(c), x, y);
  }

  /** What occurs only after the head of a list does not precede what occurs in it. */
  lemma InHeadFirst(head: seq<string>, s: seq<string>, x: string, y: string)
    requires head <= s && x in head && y !in head
    ensures !Precedes(s, y, x)
  {
    var q :| 0 <= q < |head| && head[q] == x;
    assert forall p | 0 <= p < |head| :: s[p] == head[p] && head[p] != y;
    forall p | 0 <= p < |s| && s[p] == y ensures x in s[..p + 1] {
      assert s[..p + 1][q] == x;
    }
  }

  // ---------------------------------------------------------------- what is asked, and under which service

  /** The service a host stands for. */
  lemma ServiceOfHost(req: Request)
    requires req.service == ""
    ensures "rmi-api" <= req.host ==> ServiceName(req) == "rmi"
    ensures "admin-api" <= req.host ==> ServiceName(req) == "admin"
    ensures !("rmi-api" <= req.host) && !("admin-api" <= req.host) ==> ServiceName(req) == "go"
  {
    assert "rmi-api" <= req.host ==> req.host[0] == 'r';
    assert "admin-api" <= req.host ==> req.host[0] == 'a';
    assert "go-api" <= req.host ==> req.host[0] == 'g';
  }

  /**
   The PDP is asked about the caller, the action and the resource of the call, in the first scope given:
   the call's own, its service, the configured default.
   */
  lemma AskedExactly(cfg: Config, s: State, ev: Event)
    requires Decide(cfg, s, ev.req, ev.world).asked.Some?
    ensures IsPolicyCall(ev) && !IsHit(cfg, s, ev) && !Refused(cfg, s, ev)
    ensures var q := Decide(cfg, s, ev.req, ev.world).asked.value;
            && q.principal == PrincipalOf(ev) && ev.world.action == Some(q.action)
            && q.path == ev.req.path && q.verb == ev.req.verb && q.service == ev.req.service
            && (q.kind == if cfg.defaultResourceKind != "" then cfg.defaultResourceKind else "generic")
            && (ev.req.scope != "" ==> q.scope == ev.req.scope)
            && (ev.req.scope == "" && ev.req.service != "" ==> q.scope == ev.req.service)
            && (ev.req.scope == "" && ev.req.service == "" ==> q.scope == cfg.defaultPolicyScope)
  {
    if IsPolicyCall(ev) && !IsHit(cfg, s, ev) { DecideOnMiss(cfg, s, ev); }
  }

  // ---------------------------------------------------------------- what it answers

  /** The breaker keeps the call from the PDP, at the guard or at its own check. */
  predicate Refused(cfg: Config, s: State, ev: Event) {
    && cfg.breakerEnabled
    && (s.breaker.state == B.Open || !B.Admits(BreakerConfig(cfg), s.breaker, ev.world.checkAt))
  }

  /** What a policy call that misses the cache is allowed on. */
  predicate PdpAllows(cfg: Config, s: State, ev: Event)
    requires ev.world.action.Some?
  {
    if Refused(cfg, s, ev) || ev.world.pdp.PdpError? then cfg.failureMode == "fail_open"
    else SaysAllow(ev.world.pdp.results, ev.world.action.value)
  }

  /** And the status it is given. */
  function PdpStatus(cfg: Config, s: State, ev: Event): string
    requires ev.world.action.Some?
  {
    if Refused(cfg, s, ev) || ev.world.pdp.PdpError? then
      if cfg.failureMode == "fail_open" then "degraded"
      else if cfg.breakerEnabled && s.breaker.state == B.Open then "circuit_breaker_open"
      else "error"
    else if SaysAllow(ev.world.pdp.results, ev.world.action.value) then "allowed" else "denied"
  }

  lemma MissTable(cfg: Config, s: State, ev: Event)
    requires IsPolicyCall(ev)
    ensures var resp := AfterMiss(cfg, s, ev).response;
            && resp.allowed == PdpAllows(cfg, s, ev) && resp.status == PdpStatus(cfg, s, ev) && resp.cache == "miss"
            && Some(resp.action) == ev.world.action && resp.principalID == PrincipalOf(ev)
  {
  }

  /**
   When a call is allowed, exactly: on a public action; on a live cached decision that allows; on the
   "authenticated" action with a principal; and otherwise, with a principal, when the PDP's answer gives the
   action EFFECT_ALLOW - or, if it cannot be asked or fails, in fail_open mode.
   */
  lemma AllowedExactly(cfg: Config, s: State, ev: Event)
    ensures Decide(cfg, s, ev.req, ev.world).response.allowed <==>
      || ev.world.action == Some("public")
      || (HasKey(ev) && IsHit(cfg, s, ev) && s.cache[KeyOf(cfg, ev)].result.success)
      || (HasKey(ev) && !IsHit(cfg, s, ev) && ev.world.action == Some("authenticated")
          && PrincipalOf(ev) != "anonymous")
      || (IsPolicyCall(ev) && !IsHit(cfg, s, ev) && PdpAllows(cfg, s, ev))
  {
    if IsPolicyCall(ev) && !IsHit(cfg, s, ev) {
      var missed := s.(cache := AfterRead(cfg, s, ev));
      DecideOnMiss(cfg, s, ev);
      MissTable(cfg, missed, ev);
    }
  }

  /** And the status every call is given. */
  lemma StatusExactly(cfg: Config, s: State, ev: Event)
    ensures Decide(cfg, s, ev.req, ev.world).response.status ==
      if ev.world.action.None? then "no_action_mapping"
      else if ev.world.action.value == "public" then "allowed"
      else if !HasKey(ev) then "invalid_token"
      else if IsHit(cfg, s, ev) then (if s.cache[KeyOf(cfg, ev)].result.success then "allowed" else "denied")
      else if PrincipalOf(ev) == "anonymous" then "denied"
      else if ev.world.action.value == "authenticated" then "allowed"
      else PdpStatus(cfg, s, ev)
  {
    if IsPolicyCall(ev) && !IsHit(cfg, s, ev) {
      var missed := s.(cache := AfterRead(cfg, s, ev));
      DecideOnMiss(cfg, s, ev);
      MissTable(cfg, missed, ev);
    }
  }

  /** Whom and what the response names, and whether it says it comes from the cache. */
  lemma NamesExactly(cfg: Config, s: State, ev: Event)
    ensures var resp := Decide(cfg, s, ev.req, ev.world).response;
            && (resp.cache == if HasKey(ev) && IsHit(cfg, s, ev) then "hit" else "miss")
            && (resp.principalID ==
                if ev.world.action.None? then "unknown"
                else if ev.world.action.value == "public" then "anonymous"
                else if !HasKey(ev) || IsHit(cfg, s, ev) then ""
                else PrincipalOf(ev))
            && (resp.action ==
                if ev.world.action.None? then ""
                else if ev.world.action.value == "public" then "public"
                else if !HasKey(ev) then ""
                else if IsHit(cfg, s, ev) then s.cache[KeyOf(cfg, ev)].result.action
                else ev.world.action.value)
  {
    if IsPolicyCall(ev) && !IsHit(cfg, s, ev) {
      var missed := s.(cache := AfterRead(cfg, s, ev));
      DecideOnMiss(cfg, s, ev);
      MissTable(cfg, missed, ev);
    }
  }

  /** The reason given for a PDP's denial names the policy exactly when the PDP gave the action an effect. */
  lemma DenialReason(cfg: Config, s: State, ev: Event)
    requires IsPolicyCall(ev) && !IsHit(cfg, s, ev) && !Refused(cfg, s, ev) && ev.world.pdp.Decided?
    requires !SaysAllow(ev.world.pdp.results, ev.world.action.value)
    ensures var rs, resp := ev.world.pdp.results, Decide(cfg, s, ev.req, ev.world).response;
            resp.reason == if |rs| > 0 && ev.world.action.value in rs[0] && rs[0][ev.world.action.value] != ""
                           then "policy_denied" else ""
  {
    DecideOnMiss(cfg, s, ev);
  }

  /**
   What is kept of a response: its verdict, action and status, dated when it was stored, for the lifetime of its
   verdict - the entries whose eviction MemoryCache.EvictsOldestIffOneTTL is about.
   */
  lemma EntryKeeps(cfg: Config, resp: Response, setAt: int)
    ensures var e := EntryOf(cfg, resp, setAt);
            && e.result == C.Decision(resp.allowed, resp.action, [resp.status], setAt)
            && e.expiresAt - e.result.timestamp == if resp.allowed then cfg.cacheTTL else cfg.cacheFailedTTL
  {
  }
}
