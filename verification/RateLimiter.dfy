/** Per-client and per-tenant limits, and the count of rejected credentials. */
module RateLimiters {

  import opened Prelude
  import opened Address
  import opened RemoteIp
  import opened TokenBuckets

  const U32_MAX: nat := 0xFFFF_FFFF

  datatype Config = Config(
    enabled: bool,
    perIpRequests: nat, perIpBurst: nat,
    perTenantRequests: nat, perTenantBurst: nat,
    authFailLimit: nat, authFailBan: real)

  datatype LimitType = Unlimited | IpBanned | PerIp | PerTenant

  datatype Info = Info(limit: nat, remaining: int, resetSecs: nat, limitType: LimitType)

  datatype Exceeded = Exceeded(limit: nat, remaining: int, retryAfter: int, limitType: LimitType)

  type Verdict = Result<Info, Exceeded>

  const UNLIMITED_INFO := Info(U32_MAX, U32_MAX, 0, Unlimited)

  // ---------------------------------------------------------------------------
  // Rejected credentials
  // ---------------------------------------------------------------------------

  /** How long failures count together, from the first of them. */
  const FAILURE_WINDOW := 3600.0

  datatype FailureEntry = FailureEntry(failures: nat, firstFailure: real, banUntil: Option<real>)
  {
    predicate IsBanned(now: real) {
      banUntil.Some? && now < banUntil.value
    }

    function BanRemaining(now: real): Option<int> {
      if IsBanned(now) then Some((banUntil.value - now).Floor) else None
    }
  }

  /** What recording one rejected credential makes of a client's entry. */
  function AfterFailure(config: Config, entry: Option<FailureEntry>, now: real): FailureEntry {
    var blank := FailureEntry(0, now, None);
    var current :=
      match entry
      case None => blank
      case Some(e) => if now - e.firstFailure > FAILURE_WINDOW then blank else e;
    var counted := current.(failures := if current.failures < U32_MAX then current.failures + 1 else U32_MAX);
    if counted.failures >= config.authFailLimit then counted.(banUntil := Some(now + config.authFailBan)) else counted
  }

  // ---------------------------------------------------------------------------
  // The limiter as a value
  // ---------------------------------------------------------------------------

  datatype State = State(
    ip: map<ClientBucket, Level>, tenants: map<string, Level>,
    failures: map<ClientBucket, FailureEntry>)
  {
    predicate Banned(b: ClientBucket, now: real) {
      b in failures && failures[b].IsBanned(now)
    }

    function FailuresOf(b: ClientBucket): Option<FailureEntry> {
      if b in failures then Some(failures[b]) else None
    }
  }

  /** The bucket of a key; one that is not there yet is full. */
  function LevelOf<K>(levels: map<K, Level>, key: K, capacity: nat, perMinute: nat, now: real): Level {
    if key in levels then levels[key] else Full(capacity, perMinute, now)
  }

  /** Taking one token: what remains, or how long to wait. */
  function Taken(level: Level, now: real): Result<int, int> {
    var after := level.AfterAcquire(now);
    if level.Admits(now) then Ok(after.tokens.Floor) else Err(after.RetryAfter())
  }

  function VerdictOf(limit: nat, taken: Result<int, int>, kind: LimitType): Verdict {
    match taken
    case Ok(remaining) => Ok(Info(limit, remaining, 60, kind))
    case Err(wait) => Err(Exceeded(limit, 0, wait, kind))
  }

  function IpLevel(config: Config, s: State, b: ClientBucket, now: real): Level {
    LevelOf(s.ip, b, config.perIpBurst, config.perIpRequests, now)
  }

  function TenantLevel(config: Config, s: State, tenant: string, now: real): Level {
    LevelOf(s.tenants, tenant, config.perTenantBurst, config.perTenantRequests, now)
  }

  function IpVerdict(config: Config, s: State, b: ClientBucket, now: real): Verdict {
    if !config.enabled then Ok(UNLIMITED_INFO)
    else if s.Banned(b, now) then
      Err(Exceeded(config.perIpRequests, 0, s.failures[b].BanRemaining(now).GetOr(60), IpBanned))
    else VerdictOf(config.perIpRequests, Taken(IpLevel(config, s, b, now), now), PerIp)
  }

  function AfterIpCheck(config: Config, s: State, b: ClientBucket, now: real): State {
    if !config.enabled || s.Banned(b, now) then s
    else s.(ip := s.ip[b := IpLevel(config, s, b, now).AfterAcquire(now)])
  }

  function TenantVerdict(config: Config, s: State, tenant: string, now: real): Verdict {
    if !config.enabled then Ok(UNLIMITED_INFO)
    else VerdictOf(config.perTenantRequests, Taken(TenantLevel(config, s, tenant, now), now), PerTenant)
  }

  function AfterTenantCheck(config: Config, s: State, tenant: string, now: real): State {
    if !config.enabled then s
    else s.(tenants := s.tenants[tenant := TenantLevel(config, s, tenant, now).AfterAcquire(now)])
  }

  function AfterAuthFailure(config: Config, s: State, b: ClientBucket, now: real): State {
    if !config.enabled then s
    else s.(failures := s.failures[b := AfterFailure(config, s.FailuresOf(b), now)])
  }

  function AfterAuthSuccess(config: Config, s: State, b: ClientBucket): State {
    if !config.enabled then s else s.(failures := s.failures - {b})
  }

  function Peek(config: Config, s: State, b: ClientBucket): Option<Info> {
    if !config.enabled then Some(UNLIMITED_INFO)
    else if b in s.ip then Some(Info(config.perIpRequests, s.ip[b].tokens.Floor, 60, PerIp))
    else None
  }

  // ---------------------------------------------------------------------------
  // The limiter in place
  // ---------------------------------------------------------------------------

  /** One token bucket object per key, made full on first use. */
  class BucketTable<K(==)> {
    var buckets: map<K, TokenBucket>

    ghost predicate Valid()
      reads this
    {
      forall k, l :: k in buckets && l in buckets && k != l ==> buckets[k] != buckets[l]
    }

    ghost function Contents(): map<K, Level>
      reads this, buckets.Values
    {
      map k | k in buckets :: buckets[k].Contents()
    }

    constructor ()
      ensures Valid() && Contents() == map[] && buckets == map[]
    {
      buckets := map[];
    }

    method Take(key: K, capacity: nat, perMinute: nat, now: real) returns (taken: Result<int, int>)
      requires Valid()
      modifies this, buckets.Values
      ensures Valid() && fresh(buckets.Values - old(buckets.Values))
      ensures var level := LevelOf(old(Contents()), key, capacity, perMinute, now);
              taken == Taken(level, now) && Contents() == old(Contents())[key := level.AfterAcquire(now)]
    {
      if key !in buckets {
        var full := new TokenBucket(capacity, perMinute, now);
        buckets := buckets[key := full];
      }
      var bucket := buckets[key];
      var ok := bucket.TryAcquire(now);
      if ok {
        var n := bucket.Remaining();
        taken := Ok(n);
      } else {
        var n := bucket.RetryAfter();
        taken := Err(n);
      }
    }
  }

  class RateLimiter {
    const config: Config
    const ipLimiters: BucketTable<ClientBucket>
    const tenantLimiters: BucketTable<string>
    var authFailures: map<ClientBucket, FailureEntry>

    ghost function Footprint(): set<object>
      reads this, ipLimiters, tenantLimiters
    {
      {this, ipLimiters, tenantLimiters} + ipLimiters.buckets.Values + tenantLimiters.buckets.Values
    }

    ghost predicate Valid()
      reads this, ipLimiters, tenantLimiters
    {
      && ipLimiters.Valid() && tenantLimiters.Valid()
      && ipLimiters.buckets.Values !! tenantLimiters.buckets.Values
    }

    ghost function Contents(): State
      reads this, ipLimiters, tenantLimiters, ipLimiters.buckets.Values, tenantLimiters.buckets.Values
    {
      State(ipLimiters.Contents(), tenantLimiters.Contents(), authFailures)
    }

    constructor (config: Config)
      ensures Valid() && fresh(Footprint()) && this.config == config
      ensures Contents() == State(map[], map[], map[])
    {
      this.config := config;
      ipLimiters := new BucketTable<ClientBucket>();
      tenantLimiters := new BucketTable<string>();
      authFailures := map[];
    }

    method IsIpBanned(ip: Ip, now: real) returns (banned: bool)
      ensures banned == Contents().Banned(BucketOf(ip), now)
    {
      var b := BucketOf(ip);
      banned := b in authFailures && authFailures[b].IsBanned(now);
    }

    method IpBanRemaining(ip: Ip, now: real) returns (seconds: Option<int>)
      ensures var b := BucketOf(ip);
              seconds == if b in Contents().failures then Contents().failures[b].BanRemaining(now) else None
    {
      var b := BucketOf(ip);
      seconds := if b in authFailures then authFailures[b].BanRemaining(now) else None;
    }

    method RecordAuthFailure(ip: Ip, now: real)
      requires Valid()
      modifies this
      ensures Valid() && Footprint() == old(Footprint())
      ensures Contents() == AfterAuthFailure(config, old(Contents()), BucketOf(ip), now)
    {
      if config.enabled {
        var b := BucketOf(ip);
        var entry := if b in authFailures then authFailures[b] else FailureEntry(0, now, None);
        if now - entry.firstFailure > FAILURE_WINDOW {
          entry := FailureEntry(0, now, None);
        }
        entry := entry.(failures := if entry.failures < U32_MAX then entry.failures + 1 else U32_MAX);
        if entry.failures >= config.authFailLimit {
          entry := entry.(banUntil := Some(now + config.authFailBan));
        }
        authFailures := authFailures[b := entry];
      }
    }

    method RecordAuthSuccess(ip: Ip)
      requires Valid()
      modifies this
      ensures Valid() && Footprint() == old(Footprint())
      ensures Contents() == AfterAuthSuccess(config, old(Contents()), BucketOf(ip))
    {
      if config.enabled {
        authFailures := authFailures - {BucketOf(ip)};
      }
    }

    method CheckIpLimit(ip: Ip, now: real) returns (verdict: Verdict)
      requires Valid()
      modifies Footprint()
      ensures Valid() && fresh(Footprint() - old(Footprint()))
      ensures verdict == IpVerdict(config, old(Contents()), BucketOf(ip), now)
      ensures Contents() == AfterIpCheck(config, old(Contents()), BucketOf(ip), now)
    {
      if !config.enabled {
        return Ok(UNLIMITED_INFO);
      }
      var banned := IsIpBanned(ip, now);
      if banned {
        var remaining := IpBanRemaining(ip, now);
        return Err(Exceeded(config.perIpRequests, 0, remaining.GetOr(60), IpBanned));
      }
      var taken := ipLimiters.Take(BucketOf(ip), config.perIpBurst, config.perIpRequests, now);
      verdict := VerdictOf(config.perIpRequests, taken, PerIp);
    }

    method CheckTenantLimit(tenant: string, now: real) returns (verdict: Verdict)
      requires Valid()
      modifies Footprint()
      ensures Valid() && fresh(Footprint() - old(Footprint()))
      ensures verdict == TenantVerdict(config, old(Contents()), tenant, now)
      ensures Contents() == AfterTenantCheck(config, old(Contents()), tenant, now)
    {
      if !config.enabled {
        return Ok(UNLIMITED_INFO);
      }
      var taken := tenantLimiters.Take(tenant, config.perTenantBurst, config.perTenantRequests, now);
      verdict := VerdictOf(config.perTenantRequests, taken, PerTenant);
    }

    method PeekIpLimit(ip: Ip) returns (info: Option<Info>)
      requires Valid()
      ensures info == Peek(config, Contents(), BucketOf(ip))
    {
      if !config.enabled {
        return Some(UNLIMITED_INFO);
      }
      var b := BucketOf(ip);
      if b in ipLimiters.buckets {
        var remaining := ipLimiters.buckets[b].Remaining();
        info := Some(Info(config.perIpRequests, remaining, 60, PerIp));
      } else {
        info := None;
      }
    }
  }
}
