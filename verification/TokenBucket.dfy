/** The token bucket behind every rate limit. Times are seconds as reals. */
module TokenBuckets {

  const U64_MAX := 0xFFFF_FFFF_FFFF_FFFF

  function Min(x: real, y: real): real {
    if x <= y then x else y
  }

  /** The least whole number at or above `x`. */
  function Ceil(x: real): (n: int)
    ensures n as real - 1.0 < x <= n as real
  {
    -(-x).Floor
  }

  /** What a bucket holds. */
  datatype Level = Level(capacity: nat, refillRate: real, tokens: real, lastRefill: real)
  {
    predicate InRange() {
      0.0 <= tokens <= capacity as real && 0.0 <= refillRate
    }

    /** Time that ran backwards counts as no time, as `Instant::duration_since` has it. */
    function Refilled(now: real): Level {
      var elapsed := if lastRefill <= now then now - lastRefill else 0.0;
      this.(tokens := Min(tokens + elapsed * refillRate, capacity as real), lastRefill := now)
    }

    /** Whether a request at `now` gets a token. */
    predicate Admits(now: real) {
      Refilled(now).tokens >= 1.0
    }

    function AfterAcquire(now: real): Level {
      var r := Refilled(now);
      if r.tokens >= 1.0 then r.(tokens := r.tokens - 1.0) else r
    }

    function RetryAfter(): int {
      if tokens >= 1.0 then 0
      else if refillRate == 0.0 then U64_MAX
      else Ceil((1.0 - tokens) / refillRate)
    }
  }

  function Full(capacity: nat, perMinute: nat, now: real): Level {
    Level(capacity, perMinute as real / 60.0, capacity as real, now)
  }

  class TokenBucket {
    var capacity: nat
    var tokens: real
    var refillRate: real
    var lastRefill: real

    ghost function Contents(): Level
      reads this
    {
      Level(capacity, refillRate, tokens, lastRefill)
    }

    constructor (capacity: nat, perMinute: nat, now: real)
      ensures Contents() == Full(capacity, perMinute, now)
    {
      this.capacity := capacity;
      tokens := capacity as real;
      refillRate := perMinute as real / 60.0;
      lastRefill := now;
    }

    method Refill(now: real)
      modifies this
      ensures Contents() == old(Contents()).Refilled(now)
    {
      var elapsed := if lastRefill <= now then now - lastRefill else 0.0;
      tokens := Min(tokens + elapsed * refillRate, capacity as real);
      lastRefill := now;
    }

    method TryAcquire(now: real) returns (ok: bool)
      modifies this
      ensures ok == old(Contents()).Admits(now)
      ensures Contents() == old(Contents()).AfterAcquire(now)
    {
      Refill(now);
      if tokens >= 1.0 {
        tokens := tokens - 1.0;
        return true;
      } else {
        return false;
      }
    }

    method Remaining() returns (n: int)
      ensures n == Contents().tokens.Floor
    {
      n := tokens.Floor;
    }

    method RetryAfter() returns (seconds: int)
      ensures seconds == Contents().RetryAfter()
    {
      if tokens >= 1.0 {
        seconds := 0;
      } else {
        var needed := 1.0 - tokens;
        seconds := if refillRate == 0.0 then U64_MAX else Ceil(needed / refillRate);
      }
    }
  }

  // ---------------------------------------------------------------------------
  // Runs
  // ---------------------------------------------------------------------------

  function Fold<S, E>(next: (S, E) -> S, s: S, events: seq<E>): S
    decreases |events|
  {
    if events == [] then s else Fold(next, next(s, events[0]), events[1..])
  }

  function Count<S, E>(ok: (S, E) -> bool, next: (S, E) -> S, s: S, events: seq<E>): nat
    decreases |events|
  {
    if events == [] then 0
    else (if ok(s, events[0]) then 1 else 0) + Count(ok, next, next(s, events[0]), events[1..])
  }

  lemma {:induction false} FoldConcat<S, E>(ok: (S, E) -> bool, next: (S, E) -> S, s: S, p: seq<E>, q: seq<E>)
    ensures Fold(next, s, p + q) == Fold(next, Fold(next, s, p), q)
    ensures Count(ok, next, s, p + q) == Count(ok, next, s, p) + Count(ok, next, Fold(next, s, p), q)
    decreases |p|
  {
    if p == [] {
      assert p + q == q;
    } else {
      FoldConcat(ok, next, next(s, p[0]), p[1..], q);
      assert (p + q)[1..] == p[1..] + q;
    }
  }

  const ACQUIRE: (Level, real) -> Level := (b: Level, now: real) => b.AfterAcquire(now)
  const ADMITS: (Level, real) -> bool := (b: Level, now: real) => b.Admits(now)

  /** The bucket after calls at these times. */
  function After(b: Level, times: seq<real>): Level {
    Fold(ACQUIRE, b, times)
  }

  /** How many of the calls get a token. */
  function Admitted(b: Level, times: seq<real>): nat {
    Count(ADMITS, ACQUIRE, b, times)
  }

  ghost predicate Ordered(from: real, times: seq<real>) {
    && (forall i :: 0 <= i < |times| ==> from <= times[i])
    && forall i, j :: 0 <= i < j < |times| ==> times[i] <= times[j]
  }

  lemma RefillStaysInRange(b: Level, now: real)
    requires b.InRange()
    ensures b.Refilled(now).InRange()
  {
    var elapsed := if b.lastRefill <= now then now - b.lastRefill else 0.0;
    ProductIsNonNegative(elapsed, b.refillRate);
  }

  lemma ProductIsNonNegative(x: real, y: real)
    requires 0.0 <= x && 0.0 <= y
    ensures 0.0 <= x * y
  {
  }

  /** What `from..to` adds, before the capacity cuts it off. */
  function Accrued(rate: real, from: real, to: real): real {
    (to - from) * rate
  }

  lemma AccrualIsNotNegative(rate: real, from: real, to: real)
    requires 0.0 <= rate && from <= to
    ensures 0.0 <= Accrued(rate, from, to)
  {
    ProductIsNonNegative(to - from, rate);
  }

  /** A wider stretch adds no less. */
  lemma AccrualGrows(rate: real, from: real, to: real, earlier: real, later: real)
    requires 0.0 <= rate && earlier <= from <= to <= later
    ensures Accrued(rate, from, to) <= Accrued(rate, earlier, later)
  {
    AccrualAdds(rate, earlier, from, to);
    AccrualAdds(rate, earlier, to, later);
    AccrualIsNotNegative(rate, earlier, from);
    AccrualIsNotNegative(rate, to, later);
  }

  /** One call: tokens given out and kept never exceed what was there plus what time added. */
  lemma AcquireSpendsWhatTimeAdds(b: Level, now: real)
    requires b.InRange() && b.lastRefill <= now
    ensures (if b.Admits(now) then 1.0 else 0.0) + b.AfterAcquire(now).tokens <=
            b.tokens + Accrued(b.refillRate, b.lastRefill, now)
  {
  }

  lemma AccrualAdds(rate: real, x: real, y: real, z: real)
    ensures Accrued(rate, x, y) + Accrued(rate, y, z) == Accrued(rate, x, z)
  {
  }

  lemma OrderedTail(from: real, times: seq<real>)
    requires Ordered(from, times) && times != []
    ensures Ordered(times[0], times[1..])
  {
  }

  /**
   * What a run can spend, for any step that keeps the bucket in range and spends at most what `gain` adds.
   */
  lemma {:induction false} RunSpendsWhatItGains(ok: (Level, real) -> bool, next: (Level, real) -> Level,
                                                gain: (real, real) -> real, b: Level, times: seq<real>, end: real)
    requires b.InRange() && Ordered(b.lastRefill, times)
    requires forall i :: 0 <= i < |times| ==> times[i] <= end
    requires forall c: Level, t ::
               c.InRange() && c.refillRate == b.refillRate && c.capacity == b.capacity && c.lastRefill <= t ==>
               StepKeeps(c, next(c, t), t) && StepSpends(ok(c, t), c, next(c, t), gain(c.lastRefill, t))
    requires forall x, y, z :: gain(x, y) + gain(y, z) == gain(x, z)
    requires forall x, y :: x <= y ==> 0.0 <= gain(x, y)
    requires b.lastRefill <= end
    ensures StepKeeps(b, Fold(next, b, times), Fold(next, b, times).lastRefill)
    ensures Count(ok, next, b, times) as real + Fold(next, b, times).tokens <= b.tokens + gain(b.lastRefill, end)
    decreases |times|
  {
    if times != [] {
      var c := next(b, times[0]);
      OrderedTail(b.lastRefill, times);
      assert StepKeeps(b, c, times[0]);
      assert StepSpends(ok(b, times[0]), b, c, gain(b.lastRefill, times[0]));
      RunSpendsWhatItGains(ok, next, gain, c, times[1..], end);
      assert gain(b.lastRefill, times[0]) + gain(times[0], end) == gain(b.lastRefill, end);
    }
  }

  ghost predicate StepKeeps(b: Level, c: Level, now: real) {
    c.InRange() && c.refillRate == b.refillRate && c.capacity == b.capacity && c.lastRefill == now
  }

  ghost predicate StepSpends(ok: bool, b: Level, c: Level, gained: real) {
    (if ok then 1.0 else 0.0) + c.tokens <= b.tokens + gained
  }

  lemma RunSpendsWhatTimeAdds(b: Level, times: seq<real>, end: real)
    requires b.InRange() && Ordered(b.lastRefill, times) && b.lastRefill <= end
    requires forall i :: 0 <= i < |times| ==> times[i] <= end
    ensures Admitted(b, times) as real + After(b, times).tokens <= b.tokens + Accrued(b.refillRate, b.lastRefill, end)
    ensures After(b, times).InRange()
  {
    var gain := (x: real, y: real) => Accrued(b.refillRate, x, y);
    forall c: Level, t | c.InRange() && c.refillRate == b.refillRate && c.capacity == b.capacity && c.lastRefill <= t
      ensures StepKeeps(c, ACQUIRE(c, t), t) && StepSpends(ADMITS(c, t), c, ACQUIRE(c, t), gain(c.lastRefill, t))
    {
      RefillStaysInRange(c, t);
      AcquireSpendsWhatTimeAdds(c, t);
    }
    forall x, y, z
      ensures gain(x, y) + gain(y, z) == gain(x, z)
    {
      AccrualAdds(b.refillRate, x, y, z);
    }
    forall x, y | x <= y
      ensures 0.0 <= gain(x, y)
    {
      AccrualIsNotNegative(b.refillRate, x, y);
    }
    RunSpendsWhatItGains(ADMITS, ACQUIRE, gain, b, times, end);
  }

  /** At every point of every run the tokens lie between none and the capacity. */
  lemma {:induction false} TokensStayInRange(b: Level, times: seq<real>)
    requires b.InRange()
    ensures After(b, times).InRange()
    ensures After(b, times).capacity == b.capacity && After(b, times).refillRate == b.refillRate
    decreases |times|
  {
    if times != [] {
      RefillStaysInRange(b, times[0]);
      TokensStayInRange(b.AfterAcquire(times[0]), times[1..]);
    }
  }

  /** Whatever came before, the calls of one stretch of time get at most the capacity plus what that time adds. */
  lemma AdmissionIsBounded(b: Level, times: seq<real>)
    requires b.InRange() && times != [] && Ordered(times[0], times)
    ensures Admitted(b, times) as real <= b.capacity as real + Accrued(b.refillRate, times[0], times[|times| - 1])
  {
    var start := b.Refilled(times[0]);
    RefillStaysInRange(b, times[0]);
    SameAfterRefill(b, times);
    RunSpendsWhatTimeAdds(start, times, times[|times| - 1]);
  }

  lemma SameAfterRefill(b: Level, times: seq<real>)
    requires b.InRange() && times != []
    ensures Admitted(b, times) == Admitted(b.Refilled(times[0]), times)
  {
    RefillTwice(b, times[0]);
    assert b.Refilled(times[0]).AfterAcquire(times[0]) == b.AfterAcquire(times[0]);
  }

  lemma RefillTwice(b: Level, now: real)
    requires b.InRange()
    ensures b.Refilled(now).Refilled(now) == b.Refilled(now)
  {
    var r := b.Refilled(now);
    RefillStaysInRange(b, now);
    assert (now - now) * r.refillRate == 0.0;
  }

  lemma OrderedSlice(start: real, times: seq<real>, i: nat, j: nat)
    requires Ordered(start, times) && i < j <= |times|
    ensures Ordered(times[i], times[i..j])
  {
  }

  /** The bound for any stretch `i..j` of any run. */
  lemma AnyWindowIsBounded(b: Level, times: seq<real>, i: nat, j: nat)
    requires b.InRange() && Ordered(b.lastRefill, times) && i < j <= |times|
    ensures (Admitted(b, times[..j]) - Admitted(b, times[..i])) as real <=
            b.capacity as real + Accrued(b.refillRate, times[i], times[j - 1])
  {
    AdmittedInWindow(b, times, i, j);
    OrderedSlice(b.lastRefill, times, i, j);
    LaterWindowIsBounded(b, times[..i], times[i..j]);
  }

  lemma AdmittedInWindow(b: Level, times: seq<real>, i: nat, j: nat)
    requires i <= j <= |times|
    ensures Admitted(b, times[..j]) == Admitted(b, times[..i]) + Admitted(After(b, times[..i]), times[i..j])
  {
    assert times[..j] == times[..i] + times[i..j];
    FoldConcat(ADMITS, ACQUIRE, b, times[..i], times[i..j]);
  }

  lemma LaterWindowIsBounded(b: Level, before: seq<real>, window: seq<real>)
    requires b.InRange() && window != [] && Ordered(window[0], window)
    ensures Admitted(After(b, before), window) as real <=
            b.capacity as real + Accrued(b.refillRate, window[0], window[|window| - 1])
  {
    TokensStayInRange(b, before);
    AdmissionIsBounded(After(b, before), window);
  }

  // ---------------------------------------------------------------------------
  // The advice a refused caller gets
  // ---------------------------------------------------------------------------

  lemma QuotientAtMost(needed: real, rate: real, m: nat)
    requires 0.0 < rate
    ensures needed / rate <= m as real <==> needed <= m as real * rate
  {
    var q := needed / rate;
    assert q * rate == needed;
    if q <= m as real {
      Scale(q, m as real, rate);
    } else {
      ScaleStrict(m as real, q, rate);
    }
  }

  lemma Scale(x: real, y: real, rate: real)
    requires x <= y && 0.0 < rate
    ensures x * rate <= y * rate
  {
    ProductIsNonNegative(y - x, rate);
  }

  lemma ScaleStrict(x: real, y: real, rate: real)
    requires x < y && 0.0 < rate
    ensures x * rate < y * rate
  {
  }

  lemma CeilAtMost(x: real, m: int)
    ensures Ceil(x) <= m <==> x <= m as real
  {
  }

  /**
   * After a refusal, `RetryAfter` is the least whole number of seconds to wait: an undisturbed call succeeds
   * after that many and after none fewer. A bucket of no capacity or no rate never admits again.
   */
  lemma RetryAfterIsLeast(b: Level, now: real, wait: nat)
    requires b.InRange() && !b.Admits(now)
    ensures var refused := b.AfterAcquire(now);
            refused.Admits(now + wait as real) <==>
            b.capacity >= 1 && b.refillRate > 0.0 && refused.RetryAfter() <= wait
  {
    var refused := b.AfterAcquire(now);
    assert refused == b.Refilled(now);
    RefillStaysInRange(b, now);
    var elapsed := now + wait as real - refused.lastRefill;
    assert elapsed == wait as real;
    if b.refillRate > 0.0 {
      QuotientAtMost(1.0 - refused.tokens, b.refillRate, wait);
      CeilAtMost((1.0 - refused.tokens) / b.refillRate, wait);
    } else {
      assert elapsed * refused.refillRate == 0.0;
    }
  }
}
