/** What the limiter answers and charges, in numbers a configuration holds. */
module LimiterMeaning {

  import opened Prelude
  import opened Address
  import opened RemoteIp
  import TokenBuckets
  import opened AuthErrors
  import opened RateLimiters
  import opened Middleware

  type Level = TokenBuckets.Level

  // ---------------------------------------------------------------------------
  // A bucket at one instant
  // ---------------------------------------------------------------------------

  /** The tokens a bucket holds at `now`: what it held and what time has added, up to its capacity. */
  ghost function TokensAt(b: Level, now: real): real {
    var waited := if b.lastRefill <= now then now - b.lastRefill else 0.0;
    var tokens := b.tokens + waited * b.refillRate;
    if tokens <= b.capacity as real then tokens else b.capacity as real
  }

  function AtOnce(now: real, n: nat): seq<real> {
    seq(n, i => now)
  }

  lemma TokensAtIs(b: Level, now: real)
    ensures b.Refilled(now).tokens == TokensAt(b, now)
  {
  }

  lemma {:induction false} CallsAtOnce(b: Level, now: real, n: nat)
    requires b.InRange() && b.lastRefill == now
    ensures TokenBuckets.Admitted(b, AtOnce(now, n)) == if n <= b.tokens.Floor then n else b.tokens.Floor
    decreases n
  {
    if n > 0 {
      NothingAccrues(b, now);
      var c := b.AfterAcquire(now);
      assert AtOnce(now, n)[1..] == AtOnce(now, n - 1);
      assert AtOnce(now, n)[0] == now;
      CallsAtOnce(c, now, n - 1);
    }
  }

  lemma NothingAccrues(b: Level, now: real)
    requires b.InRange() && b.lastRefill == now
    ensures b.Refilled(now) == b
    ensures b.AfterAcquire(now).InRange() && b.AfterAcquire(now).lastRefill == now
    ensures b.AfterAcquire(now).tokens == if b.tokens >= 1.0 then b.tokens - 1.0 else b.tokens
  {
    assert (now - now) * b.refillRate == 0.0;
  }

  /** Of any number of calls at one instant, as many are served as the bucket holds whole tokens. */
  lemma InstantIsServed(b: Level, now: real, n: nat)
    requires b.InRange()
    ensures TokenBuckets.Admitted(b, AtOnce(now, n)) ==
            if n <= TokensAt(b, now).Floor then n else TokensAt(b, now).Floor
  {
    TokensAtIs(b, now);
    TokenBuckets.RefillStaysInRange(b, now);
    if n > 0 {
      TokenBuckets.SameAfterRefill(b, AtOnce(now, n));
    }
    CallsAtOnce(b.Refilled(now), now, n);
  }

  /** A new bucket serves its burst at once, and no more. */
  lemma BurstIsServed(burst: nat, perMinute: nat, now: real, n: nat)
    ensures TokenBuckets.Admitted(TokenBuckets.Full(burst, perMinute, now), AtOnce(now, n)) ==
            if n <= burst then n else burst
  {
    InstantIsServed(TokenBuckets.Full(burst, perMinute, now), now, n);
  }

  /** A bucket found empty serves, after whole minutes, its rate for each of them, up to its capacity. */
  lemma MinutesRefill(b: Level, perMinute: nat, minutes: nat, n: nat)
    requires b.InRange() && b.tokens == 0.0
    requires b.refillRate == perMinute as real / 60.0
    ensures var earned := if minutes * perMinute <= b.capacity then minutes * perMinute else b.capacity;
            TokenBuckets.Admitted(b, AtOnce(b.lastRefill + 60.0 * minutes as real, n)) ==
            if n <= earned then n else earned
  {
    var now := b.lastRefill + 60.0 * minutes as real;
    MinutesEarn(perMinute, minutes);
    assert TokensAt(b, now) == if minutes * perMinute <= b.capacity then (minutes * perMinute) as real
           else b.capacity as real;
    InstantIsServed(b, now, n);
  }

  lemma MinutesEarn(perMinute: nat, minutes: nat)
    ensures (60.0 * minutes as real) * (perMinute as real / 60.0) == (minutes * perMinute) as real
  {
    assert (60.0 * minutes as real) * (perMinute as real / 60.0) == minutes as real * perMinute as real;
    ProductOfWholes(minutes, perMinute);
  }

  lemma {:induction false} ProductOfWholes(m: nat, n: nat)
    ensures m as real * n as real == (m * n) as real
  {
    if m > 0 {
      ProductOfWholes(m - 1, n);
      assert m as real * n as real == (m - 1) as real * n as real + n as real;
      assert m * n == (m - 1) * n + n;
    }
  }

  /** Without a rate the advice is the longest there is. */
  lemma NoRateNeverAdvises(b: Level)
    requires b.tokens < 1.0 && b.refillRate == 0.0
    ensures b.RetryAfter() == 0xFFFF_FFFF_FFFF_FFFF
  {
  }

  // ---------------------------------------------------------------------------
  // Checks
  // ---------------------------------------------------------------------------

  /** A new bucket of a configured burst and rate a minute. */
  ghost predicate IsNew(b: Level, burst: nat, perMinute: nat, now: real) {
    b == TokenBuckets.Level(burst, perMinute as real / 60.0, burst as real, now)
  }

  /** The bucket a key is charged on: its own, or a new one. */
  ghost predicate IsChargedOn<K>(levels: map<K, Level>, key: K, burst: nat, perMinute: nat, now: real, b: Level) {
    if key in levels then b == levels[key] else IsNew(b, burst, perMinute, now)
  }

  /** An answer from a bucket: with a token, what is left in whole tokens; without, how long to wait. */
  ghost predicate Answers(verdict: Verdict, b: Level, now: real, perMinute: nat, kind: LimitType) {
    if TokensAt(b, now) >= 1.0 then verdict == Ok(Info(perMinute, (TokensAt(b, now) - 1.0).Floor, 60, kind))
    else
      && verdict.Err? && verdict.error.limit == perMinute && verdict.error.remaining == 0
      && verdict.error.limitType == kind && verdict.error.retryAfter == b.Refilled(now).RetryAfter()
  }

  /** What the bucket is left as. */
  ghost predicate IsCharged(b: Level, now: real, after: Level) {
    && after.capacity == b.capacity && after.refillRate == b.refillRate && after.lastRefill == now
    && after.tokens == TokensAt(b, now) - if TokensAt(b, now) >= 1.0 then 1.0 else 0.0
  }

  /** A limiter that is switched off lets everything through and counts nothing. */
  lemma SwitchedOffAllowsAll(config: Config, s: State, b: ClientBucket, tenant: string, now: real)
    requires !config.enabled
    ensures IpVerdict(config, s, b, now) == TenantVerdict(config, s, tenant, now) ==
            Ok(Info(0xFFFF_FFFF, 0xFFFF_FFFF, 0, Unlimited))
    ensures AfterIpCheck(config, s, b, now) == AfterTenantCheck(config, s, tenant, now) == s
    ensures AfterAuthFailure(config, s, b, now) == AfterAuthSuccess(config, s, b) == s
    ensures Peek(config, s, b) == Some(Info(0xFFFF_FFFF, 0xFFFF_FFFF, 0, Unlimited))
  {
  }

  /** A banned client is told the whole seconds left of its ban, and is charged nothing. */
  lemma BannedIsToldHowLong(config: Config, s: State, b: ClientBucket, now: real, until: real)
    requires config.enabled && b in s.failures && s.failures[b].banUntil == Some(until) && now < until
    ensures IpVerdict(config, s, b, now) == Err(Exceeded(config.perIpRequests, 0, (until - now).Floor, IpBanned))
    ensures AfterIpCheck(config, s, b, now) == s
  {
  }

  ghost predicate NotBanned(s: State, b: ClientBucket, now: real) {
    b in s.failures && s.failures[b].banUntil.Some? ==> s.failures[b].banUntil.value <= now
  }

  /** Any other client takes a token from its own bucket of its own configuration; nothing else changes. */
  lemma ClientIsCharged(config: Config, s: State, b: ClientBucket, now: real) returns (level: Level)
    requires config.enabled && NotBanned(s, b, now)
    ensures IsChargedOn(s.ip, b, config.perIpBurst, config.perIpRequests, now, level)
    ensures Answers(IpVerdict(config, s, b, now), level, now, config.perIpRequests, PerIp)
    ensures var after := AfterIpCheck(config, s, b, now);
            && b in after.ip && IsCharged(level, now, after.ip[b])
            && after.ip == s.ip[b := after.ip[b]] && after.tenants == s.tenants && after.failures == s.failures
  {
    level := IpLevel(config, s, b, now);
  }

  /** And so does a tenant. */
  lemma TenantIsCharged(config: Config, s: State, tenant: string, now: real) returns (level: Level)
    requires config.enabled
    ensures IsChargedOn(s.tenants, tenant, config.perTenantBurst, config.perTenantRequests, now, level)
    ensures Answers(TenantVerdict(config, s, tenant, now), level, now, config.perTenantRequests, PerTenant)
    ensures var after := AfterTenantCheck(config, s, tenant, now);
            && tenant in after.tenants && IsCharged(level, now, after.tenants[tenant])
            && after.tenants == s.tenants[tenant := after.tenants[tenant]]
            && after.ip == s.ip && after.failures == s.failures
  {
    level := TenantLevel(config, s, tenant, now);
  }

  /** A first request under a burst of at least one: the rest of the burst is left. */
  lemma FirstRequestIsServed(config: Config, s: State, b: ClientBucket, now: real)
    requires config.enabled && NotBanned(s, b, now) && b !in s.ip && config.perIpBurst >= 1
    ensures IpVerdict(config, s, b, now) == Ok(Info(config.perIpRequests, config.perIpBurst - 1, 60, PerIp))
  {
    var level := ClientIsCharged(config, s, b, now);
    assert (now - now) * level.refillRate == 0.0;
    assert (config.perIpBurst as real - 1.0).Floor == config.perIpBurst - 1;
  }

  /** The allowance shown is what the client's bucket was left with. */
  lemma PeekShowsWhatIsLeft(config: Config, s: State, b: ClientBucket)
    requires config.enabled
    ensures Peek(config, s, b) ==
            if b in s.ip then Some(Info(config.perIpRequests, s.ip[b].tokens.Floor, 60, PerIp)) else None
  {
  }

  // ---------------------------------------------------------------------------
  // One request
  // ---------------------------------------------------------------------------

  /** The errors that count against a client; a missing credential and every fault of the server do not. */
  predicate CountsAgainst(e: AuthError) {
    e in {InvalidCredentials, InvalidToken, MalformedToken, TokenExpired, ExpiredCredentials, ApiKeyNotFound,
          ApiKeyDisabled}
  }

  lemma CountsAgainstIff(e: AuthError)
    ensures e.CredentialWasRejected() <==> CountsAgainst(e)
  {
  }

  /** The request is refused before its credential is looked at: its client is banned, or out of tokens. */
  ghost predicate TurnedAway(config: Config, s: State, r: Request) {
    && config.enabled && r.ip.Some?
    && var b := BucketOf(r.ip.value);
       !NotBanned(s, b, r.at)
       || exists level :: IsChargedOn(s.ip, b, config.perIpBurst, config.perIpRequests, r.at, level)
                          && TokensAt(level, r.at) < 1.0
  }

  lemma TurnedAwayIff(config: Config, s: State, r: Request)
    ensures Limited(config, s, r) <==> TurnedAway(config, s, r)
  {
    if config.enabled && r.ip.Some? {
      var b := BucketOf(r.ip.value);
      if NotBanned(s, b, r.at) {
        var level := ClientIsCharged(config, s, b, r.at);
        assert Limited(config, s, r) <==> TokensAt(level, r.at) < 1.0;
        forall other | IsChargedOn(s.ip, b, config.perIpBurst, config.perIpRequests, r.at, other)
          ensures other == level
        {
        }
      } else {
        BannedIsToldHowLong(config, s, b, r.at, s.failures[b].banUntil.value);
      }
    }
  }

  /** A request turned away is answered from its client's bucket or ban, and counts against nothing else. */
  lemma TurnedAwayAnswer(config: Config, s: State, r: Request)
    requires TurnedAway(config, s, r)
    ensures var b := BucketOf(r.ip.value);
            && Respond(config, s, r).TooMany? && Err(Respond(config, s, r).exceeded) == IpVerdict(config, s, b, r.at)
            && Next(config, s, r) == AfterIpCheck(config, s, b, r.at)
    ensures Next(config, s, r).failures == s.failures && Next(config, s, r).tenants == s.tenants
  {
    TurnedAwayIff(config, s, r);
  }

  /** A refused credential is answered with its error, and counts against the client when it is of that kind. */
  lemma RefusedAnswer(config: Config, s: State, r: Request)
    requires config.enabled && !TurnedAway(config, s, r) && r.credential.Refused?
    ensures Respond(config, s, r) == Unauthorized(r.credential.error)
    ensures Next(config, s, r).tenants == s.tenants
    ensures r.ip.None? || !CountsAgainst(r.credential.error) ==> Next(config, s, r).failures == s.failures
    ensures r.ip.Some? && CountsAgainst(r.credential.error) ==>
              var b := BucketOf(r.ip.value);
              Next(config, s, r).failures == s.failures[b := AfterFailure(config, s.FailuresOf(b), r.at)]
  {
    TurnedAwayIff(config, s, r);
    CountsAgainstIff(r.credential.error);
  }

  /**
   * An accepted credential clears its client's record. If it has expired it is refused all the same, and otherwise
   * its tenant is charged and the request is served exactly when the tenant has a token.
   */
  lemma AcceptedAnswer(config: Config, s: State, r: Request) returns (level: Level)
    requires config.enabled && !TurnedAway(config, s, r) && r.credential.Accepted?
    ensures Next(config, s, r).failures == if r.ip.Some? then s.failures - {BucketOf(r.ip.value)} else s.failures
    ensures r.credential.expired ==>
              Respond(config, s, r) == Unauthorized(TokenExpired) && Next(config, s, r).tenants == s.tenants
    ensures !r.credential.expired ==>
              var tenant, after := r.credential.tenant, Next(config, s, r).tenants;
              && IsChargedOn(s.tenants, tenant, config.perTenantBurst, config.perTenantRequests, r.at, level)
              && tenant in after && IsCharged(level, r.at, after[tenant]) && after == s.tenants[tenant := after[tenant]]
              && (Respond(config, s, r).Served? <==> TokensAt(level, r.at) >= 1.0)
              && (!Respond(config, s, r).Served? ==>
                    Respond(config, s, r).TooMany? && Respond(config, s, r).exceeded.limitType == PerTenant)
              && (Respond(config, s, r).Served? ==>
                    Respond(config, s, r).info ==
                    if r.ip.Some? then Peek(config, Next(config, s, r), BucketOf(r.ip.value)) else None)
  {
    TurnedAwayIff(config, s, r);
    var before := AfterOutcome(config, AfterLimit(config, s, r), r);
    level := TenantIsCharged(config, before, r.credential.tenant, r.at);
  }
}
