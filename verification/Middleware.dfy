/** The order in which a request meets the limiter and the authenticator. */
module Middleware {

  import opened Prelude
  import opened Address
  import opened RemoteIp
  import opened RateLimiters
  import opened AuthErrors

  /** What the authenticator answers when it is asked. */
  datatype Credential = Accepted(tenant: string, expired: bool) | Refused(error: AuthError)

  datatype Request = Request(at: real, ip: Option<Ip>, credential: Credential)
  {
    predicate From(b: ClientBucket) {
      ip.Some? && BucketOf(ip.value) == b
    }
  }

  datatype Response = TooMany(exceeded: Exceeded) | Unauthorized(error: AuthError) | Served(info: Option<Info>)

  // ---------------------------------------------------------------------------
  // One request
  // ---------------------------------------------------------------------------

  predicate Limited(config: Config, s: State, r: Request) {
    r.ip.Some? && IpVerdict(config, s, BucketOf(r.ip.value), r.at).Err?
  }

  function AfterLimit(config: Config, s: State, r: Request): State {
    if r.ip.Some? then AfterIpCheck(config, s, BucketOf(r.ip.value), r.at) else s
  }

  function AfterOutcome(config: Config, s: State, r: Request): State {
    if r.ip.None? then s
    else if r.credential.Accepted? then AfterAuthSuccess(config, s, BucketOf(r.ip.value))
    else if r.credential.error.CredentialWasRejected() then AfterAuthFailure(config, s, BucketOf(r.ip.value), r.at)
    else s
  }

  function AfterTenant(config: Config, s: State, r: Request): State {
    if r.credential.Accepted? && !r.credential.expired
    then AfterTenantCheck(config, s, r.credential.tenant, r.at)
    else s
  }

  /** The limiter after one request. */
  function Next(config: Config, s: State, r: Request): State {
    if Limited(config, s, r) then AfterLimit(config, s, r)
    else AfterTenant(config, AfterOutcome(config, AfterLimit(config, s, r), r), r)
  }

  function Respond(config: Config, s: State, r: Request): Response {
    if Limited(config, s, r) then TooMany(IpVerdict(config, s, BucketOf(r.ip.value), r.at).error)
    else
      match r.credential
      case Refused(e) => Unauthorized(e)
      case Accepted(tenant, expired) =>
        if expired then Unauthorized(TokenExpired)
        else
          match TenantVerdict(config, AfterOutcome(config, AfterLimit(config, s, r), r), tenant, r.at)
          case Err(e) => TooMany(e)
          case Ok(_) =>
            Served(if r.ip.Some? then Peek(config, Next(config, s, r), BucketOf(r.ip.value)) else None)
  }

  method Handle(limiter: RateLimiter, r: Request) returns (response: Response)
    requires limiter.Valid()
    modifies limiter.Footprint()
    ensures limiter.Valid() && fresh(limiter.Footprint() - old(limiter.Footprint()))
    ensures response == Respond(limiter.config, old(limiter.Contents()), r)
    ensures limiter.Contents() == Next(limiter.config, old(limiter.Contents()), r)
  {
    if r.ip.Some? {
      var verdict := limiter.CheckIpLimit(r.ip.value, r.at);
      if verdict.Err? {
        return TooMany(verdict.error);
      }
    }
    match r.credential
    case Accepted(tenant, expired) =>
      if r.ip.Some? {
        limiter.RecordAuthSuccess(r.ip.value);
      }
      if expired {
        return Unauthorized(TokenExpired);
      }
      var verdict := limiter.CheckTenantLimit(tenant, r.at);
      if verdict.Err? {
        return TooMany(verdict.error);
      }
      if r.ip.Some? {
        var info := limiter.PeekIpLimit(r.ip.value);
        return Served(info);
      }
      return Served(None);
    case Refused(e) =>
      if e.CredentialWasRejected() && r.ip.Some? {
        limiter.RecordAuthFailure(r.ip.value, r.at);
      }
      return Unauthorized(e);
  }

  // ---------------------------------------------------------------------------
  // Runs
  // ---------------------------------------------------------------------------

  /** The limiter after a run of requests from any number of clients. */
  function After(config: Config, s: State, run: seq<Request>): State {
    if run == [] then s else Next(config, After(config, s, run[..|run| - 1]), run[|run| - 1])
  }

  /** The answer to the request at `i`. */
  function ResponseAt(config: Config, s: State, run: seq<Request>, i: nat): Response
    requires i < |run|
  {
    Respond(config, After(config, s, run[..i]), run[i])
  }

  /** A client that is banned until `deadline` is refused, unexamined, until then; nobody else's requests matter. */
  lemma {:induction false} BanHolds(config: Config, s: State, run: seq<Request>, b: ClientBucket, deadline: real)
    requires config.enabled
    requires b in s.failures && s.failures[b].banUntil == Some(deadline)
    requires forall i :: 0 <= i < |run| ==> run[i].at < deadline
    ensures After(config, s, run).FailuresOf(b) == s.FailuresOf(b)
    ensures forall i :: 0 <= i < |run| && run[i].From(b) ==>
              var response := ResponseAt(config, s, run, i);
              response.TooMany? && response.exceeded.limitType == IpBanned
    decreases |run|
  {
    if run != [] {
      var n := |run| - 1;
      var earlier := run[..n];
      BanHolds(config, s, earlier, b, deadline);
      BannedStep(config, After(config, s, earlier), run[n], b, deadline);
      forall i | 0 <= i < |run| && run[i].From(b)
        ensures ResponseAt(config, s, run, i).TooMany? && ResponseAt(config, s, run, i).exceeded.limitType == IpBanned
      {
        if i < n {
          assert earlier[..i] == run[..i] && earlier[i] == run[i];
          assert ResponseAt(config, s, earlier, i).TooMany?;
        }
      }
    }
  }

  lemma BannedStep(config: Config, s: State, r: Request, b: ClientBucket, deadline: real)
    requires config.enabled
    requires b in s.failures && s.failures[b].banUntil == Some(deadline) && r.at < deadline
    ensures Next(config, s, r).FailuresOf(b) == s.FailuresOf(b)
    ensures r.From(b) ==> Respond(config, s, r).TooMany? && Respond(config, s, r).exceeded.limitType == IpBanned
  {
  }
}
