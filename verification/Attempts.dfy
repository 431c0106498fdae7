/** How often one client can reach the authenticator, and one tenant a handler, over whole runs of requests. */
module Attempts {

  import opened Prelude
  import opened Address
  import TokenBuckets
  import opened RateLimiters
  import opened Middleware

  type Level = TokenBuckets.Level

  /**
   * One metered bucket of the limiter: which requests it is charged for, which of those pass, what it holds, and what
   * it holds when it is first charged.
   */
  datatype Meter = Meter(
    charged: (State, Request) -> bool, passed: (State, Request) -> bool,
    held: State -> Option<Level>, capacity: nat, perMinute: nat)
  {
    function LevelAt(s: State, at: real): Level {
      held(s).GetOr(TokenBuckets.Full(capacity, perMinute, at))
    }
  }

  /** Each client's own bucket; a request passes when its credential is examined. */
  function ClientMeter(config: Config, b: ClientBucket): Meter {
    Meter((s: State, r: Request) => r.From(b) && !s.Banned(b, r.at),
          (s: State, r: Request) => r.From(b) && !Limited(config, s, r),
          (s: State) => if b in s.ip then Some(s.ip[b]) else None,
          config.perIpBurst, config.perIpRequests)
  }

  predicate Admissible(config: Config, s: State, r: Request, tenant: string) {
    !Limited(config, s, r) && r.credential.Accepted? && !r.credential.expired && r.credential.tenant == tenant
  }

  /** Each tenant's own bucket; a request passes when it is served. */
  function TenantMeter(config: Config, tenant: string): Meter {
    Meter((s: State, r: Request) => Admissible(config, s, r, tenant),
          (s: State, r: Request) => Admissible(config, s, r, tenant) && Respond(config, s, r).Served?,
          (s: State) => if tenant in s.tenants then Some(s.tenants[tenant]) else None,
          config.perTenantBurst, config.perTenantRequests)
  }

  /** One request charges a meter as its bucket says, and leaves it alone when it does not charge it. */
  ghost predicate StepMeters(config: Config, m: Meter, s: State, r: Request) {
    if m.charged(s, r) then
      && (m.passed(s, r) <==> m.LevelAt(s, r.at).Admits(r.at))
      && m.held(Next(config, s, r)) == Some(m.LevelAt(s, r.at).AfterAcquire(r.at))
    else !m.passed(s, r) && m.held(Next(config, s, r)) == m.held(s)
  }

  ghost predicate Meters(config: Config, m: Meter) {
    forall s, r :: StepMeters(config, m, s, r)
  }

  lemma ClientStep(config: Config, b: ClientBucket, s: State, r: Request)
    requires config.enabled
    ensures StepMeters(config, ClientMeter(config, b), s, r)
  {
  }

  lemma TenantStep(config: Config, tenant: string, s: State, r: Request)
    requires config.enabled
    ensures StepMeters(config, TenantMeter(config, tenant), s, r)
  {
  }

  // ---------------------------------------------------------------------------
  // A run is its charges
  // ---------------------------------------------------------------------------

  /** The times at which a run charges a meter. */
  function Charges(config: Config, m: Meter, s: State, run: seq<Request>): seq<real> {
    if run == [] then []
    else
      var earlier, r := run[..|run| - 1], run[|run| - 1];
      Charges(config, m, s, earlier) + (if m.charged(Middleware.After(config, s, earlier), r) then [r.at] else [])
  }

  /** How many requests of a run pass a meter. */
  function Passed(config: Config, m: Meter, s: State, run: seq<Request>): nat {
    if run == [] then 0
    else
      var earlier, r := run[..|run| - 1], run[|run| - 1];
      Passed(config, m, s, earlier) + (if m.passed(Middleware.After(config, s, earlier), r) then 1 else 0)
  }

  lemma OneMoreCharge(level: Level, times: seq<real>, now: real)
    ensures TokenBuckets.After(level, times + [now]) == TokenBuckets.After(level, times).AfterAcquire(now)
    ensures TokenBuckets.Admitted(level, times + [now]) ==
            TokenBuckets.Admitted(level, times) + if TokenBuckets.After(level, times).Admits(now) then 1 else 0
  {
    TokenBuckets.FoldConcat(TokenBuckets.ADMITS, TokenBuckets.ACQUIRE, level, times, [now]);
    assert [now][1..] == [];
  }

  lemma FirstCharge(level: Level, now: real)
    ensures TokenBuckets.After(level, [now]) == level.AfterAcquire(now)
    ensures TokenBuckets.Admitted(level, [now]) == if level.Admits(now) then 1 else 0
  {
    OneMoreCharge(level, [], now);
    assert [] + [now] == [now];
  }

  /** The charges alone explain how many requests passed and what the bucket holds now. */
  ghost predicate Explains(m: Meter, s: State, charges: seq<real>, passed: nat, after: State) {
    if charges == [] then passed == 0 && m.held(after) == m.held(s)
    else
      var level := m.LevelAt(s, charges[0]);
      && passed == TokenBuckets.Admitted(level, charges)
      && m.held(after) == Some(TokenBuckets.After(level, charges))
  }

  lemma StepExplains(config: Config, m: Meter, s: State, charges: seq<real>, passed: nat, before: State, r: Request)
    requires StepMeters(config, m, before, r) && m.charged(before, r)
    requires Explains(m, s, charges, passed, before)
    ensures Explains(m, s, charges + [r.at], passed + (if m.passed(before, r) then 1 else 0), Next(config, before, r))
  {
    if charges == [] {
      assert charges + [r.at] == [r.at];
      FirstCharge(m.LevelAt(s, r.at), r.at);
    } else {
      assert (charges + [r.at])[0] == charges[0];
      OneMoreCharge(m.LevelAt(s, charges[0]), charges, r.at);
    }
  }

  /** Whatever else is in a run, what passes a meter and what it holds is what its own charges make of it. */
  lemma {:induction false} RunIsItsCharges(config: Config, m: Meter, s: State, run: seq<Request>)
    requires Meters(config, m)
    ensures Explains(m, s, Charges(config, m, s, run), Passed(config, m, s, run), Middleware.After(config, s, run))
    decreases |run|
  {
    if run != [] {
      var earlier, r := run[..|run| - 1], run[|run| - 1];
      var before := Middleware.After(config, s, earlier);
      RunIsItsCharges(config, m, s, earlier);
      assert StepMeters(config, m, before, r);
      if m.charged(before, r) {
        StepExplains(config, m, s, Charges(config, m, s, earlier), Passed(config, m, s, earlier), before, r);
      } else {
        assert Charges(config, m, s, run) == Charges(config, m, s, earlier);
      }
    }
  }

  // ---------------------------------------------------------------------------
  // The bound
  // ---------------------------------------------------------------------------

  ghost predicate OrderedRun(run: seq<Request>) {
    forall i, j :: 0 <= i <= j < |run| ==> run[i].at <= run[j].at
  }

  ghost predicate Within(times: seq<real>, from: real, to: real) {
    && (forall i :: 0 <= i < |times| ==> from <= times[i] <= to)
    && forall i, j :: 0 <= i < j < |times| ==> times[i] <= times[j]
  }

  lemma {:induction false} ChargesAreOrdered(config: Config, m: Meter, s: State, run: seq<Request>, from: real,
                                             to: real)
    requires OrderedRun(run) && from <= to
    requires forall i :: 0 <= i < |run| ==> from <= run[i].at <= to
    ensures Within(Charges(config, m, s, run), from, to)
    decreases |run|
  {
    if run != [] {
      var n := |run| - 1;
      ChargesAreOrdered(config, m, s, run[..n], from, run[n].at);
    }
  }

  ghost predicate IsConfigured(m: Meter, level: Level) {
    level.InRange() && level.capacity == m.capacity && level.refillRate == m.perMinute as real / 60.0
  }

  /** A limiter whose bucket is one of this configuration. */
  ghost predicate Sound(m: Meter, s: State) {
    m.held(s).Some? ==> IsConfigured(m, m.held(s).value)
  }

  /** A full burst and what the rate adds from one time to another. */
  function Allowance(m: Meter, from: real, to: real): real {
    m.capacity as real + TokenBuckets.Accrued(m.perMinute as real / 60.0, from, to)
  }

  lemma AllowanceIsNotNegative(m: Meter, from: real, to: real)
    requires from <= to
    ensures 0.0 <= Allowance(m, from, to)
  {
    TokenBuckets.AccrualIsNotNegative(m.perMinute as real / 60.0, from, to);
  }

  lemma ChargesAreBounded(level: Level, charges: seq<real>, from: real, to: real)
    requires level.InRange() && charges != [] && Within(charges, from, to)
    ensures TokenBuckets.Admitted(level, charges) as real <=
            level.capacity as real + TokenBuckets.Accrued(level.refillRate, from, to)
  {
    var first, last := charges[0], charges[|charges| - 1];
    TokenBuckets.AdmissionIsBounded(level, charges);
    TokenBuckets.AccrualGrows(level.refillRate, first, last, from, to);
  }

  lemma StartIsSound(m: Meter, s: State, at: real)
    requires Sound(m, s)
    ensures IsConfigured(m, m.LevelAt(s, at))
  {
  }

  lemma StartIsBounded(m: Meter, s: State, charges: seq<real>, from: real, to: real)
    requires Sound(m, s) && charges != [] && Within(charges, from, to)
    ensures TokenBuckets.Admitted(m.LevelAt(s, charges[0]), charges) as real <= Allowance(m, from, to)
  {
    StartIsSound(m, s, charges[0]);
    ChargesAreBounded(m.LevelAt(s, charges[0]), charges, from, to);
  }

  lemma ExplainedIsBounded(m: Meter, s: State, charges: seq<real>, passed: nat, after: State, from: real, to: real)
    requires Sound(m, s) && Within(charges, from, to) && from <= to
    requires Explains(m, s, charges, passed, after)
    ensures passed as real <= Allowance(m, from, to)
  {
    if charges == [] {
      AllowanceIsNotNegative(m, from, to);
    } else {
      StartIsBounded(m, s, charges, from, to);
    }
  }

  lemma PassedIsBounded(config: Config, m: Meter, s: State, run: seq<Request>)
    requires Meters(config, m) && Sound(m, s) && OrderedRun(run) && run != []
    ensures Passed(config, m, s, run) as real <= Allowance(m, run[0].at, run[|run| - 1].at)
  {
    var from, to := run[0].at, run[|run| - 1].at;
    RunIsItsCharges(config, m, s, run);
    assert forall i :: 0 <= i < |run| ==> from <= run[i].at <= to;
    ChargesAreOrdered(config, m, s, run, from, to);
    ExplainedIsBounded(m, s, Charges(config, m, s, run), Passed(config, m, s, run),
                       Middleware.After(config, s, run), from, to);
  }

  /** In any stretch of requests, one client has at most its allowance of credentials examined. */
  lemma ExaminedIsBounded(config: Config, s: State, run: seq<Request>, b: ClientBucket)
    requires config.enabled && Sound(ClientMeter(config, b), s) && OrderedRun(run) && run != []
    ensures var m := ClientMeter(config, b);
            Passed(config, m, s, run) as real <= Allowance(m, run[0].at, run[|run| - 1].at)
  {
    var m := ClientMeter(config, b);
    forall s, r ensures StepMeters(config, m, s, r) {
      ClientStep(config, b, s, r);
    }
    PassedIsBounded(config, m, s, run);
  }

  /** In any stretch of requests, one tenant has at most its allowance of requests served, from whatever addresses. */
  lemma ServedIsBounded(config: Config, s: State, run: seq<Request>, tenant: string)
    requires config.enabled && Sound(TenantMeter(config, tenant), s) && OrderedRun(run) && run != []
    ensures var m := TenantMeter(config, tenant);
            Passed(config, m, s, run) as real <= Allowance(m, run[0].at, run[|run| - 1].at)
  {
    var m := TenantMeter(config, tenant);
    forall s, r ensures StepMeters(config, m, s, r) {
      TenantStep(config, tenant, s, r);
    }
    PassedIsBounded(config, m, s, run);
  }

  /** Every run keeps a bucket one of its configuration, so the bounds hold for every stretch of every run. */
  lemma {:induction false} RunsKeepSoundness(config: Config, m: Meter, s: State, run: seq<Request>)
    requires Meters(config, m) && Sound(m, s)
    ensures Sound(m, Middleware.After(config, s, run))
    decreases |run|
  {
    if run != [] {
      var before := Middleware.After(config, s, run[..|run| - 1]);
      var r := run[|run| - 1];
      RunsKeepSoundness(config, m, s, run[..|run| - 1]);
      assert StepMeters(config, m, before, r);
      StartIsSound(m, before, r.at);
      TokenBuckets.RefillStaysInRange(m.LevelAt(before, r.at), r.at);
    }
  }
}
