/** When rejected credentials ban a client, over whole runs. */
module Bans {

  import opened Prelude
  import opened Address
  import opened RateLimiters
  import opened Middleware

  /** What the limiter records about one client. */
  datatype Event = Failed(at: real) | Succeeded(at: real)

  function Record(config: Config, entry: Option<FailureEntry>, e: Event): Option<FailureEntry> {
    if e.Failed? then Some(AfterFailure(config, entry, e.at)) else None
  }

  function Track(config: Config, entry: Option<FailureEntry>, events: seq<Event>): Option<FailureEntry> {
    if events == [] then entry
    else Record(config, Track(config, entry, events[..|events| - 1]), events[|events| - 1])
  }

  ghost predicate Ordered(events: seq<Event>) {
    forall i, j :: 0 <= i <= j < |events| ==> events[i].at <= events[j].at
  }

  // ---------------------------------------------------------------------------
  // A run of requests is a list of events for each client
  // ---------------------------------------------------------------------------

  /** What a request adds to a client's record, given the limiter it meets. */
  function EventOf(config: Config, s: State, r: Request, b: ClientBucket): seq<Event> {
    if !r.From(b) || Limited(config, s, r) then []
    else if r.credential.Accepted? then [Succeeded(r.at)]
    else if r.credential.error.CredentialWasRejected() then [Failed(r.at)]
    else []
  }

  function Events(config: Config, s: State, run: seq<Request>, b: ClientBucket): seq<Event> {
    if run == [] then []
    else
      var earlier := run[..|run| - 1];
      Events(config, s, earlier, b) + EventOf(config, Middleware.After(config, s, earlier), run[|run| - 1], b)
  }

  lemma StepRecords(config: Config, s: State, r: Request, b: ClientBucket)
    requires config.enabled
    ensures var e := EventOf(config, s, r, b);
            Next(config, s, r).FailuresOf(b) ==
            if e == [] then s.FailuresOf(b) else Record(config, s.FailuresOf(b), e[0])
  {
  }

  /** A client's entry is what its own recorded events make of it, whoever else calls in between. */
  lemma {:induction false} RunRecords(config: Config, s: State, run: seq<Request>, b: ClientBucket)
    requires config.enabled
    ensures Middleware.After(config, s, run).FailuresOf(b) == Track(config, s.FailuresOf(b), Events(config, s, run, b))
    decreases |run|
  {
    if run != [] {
      var earlier := run[..|run| - 1];
      var before := Middleware.After(config, s, earlier);
      RunRecords(config, s, earlier, b);
      StepRecords(config, before, run[|run| - 1], b);
      var e := EventOf(config, before, run[|run| - 1], b);
      if e != [] {
        assert |e| == 1;
        assert (Events(config, s, earlier, b) + e)[..|Events(config, s, earlier, b)|] == Events(config, s, earlier, b);
      } else {
        assert Events(config, s, earlier, b) + e == Events(config, s, earlier, b);
      }
    }
  }

  // ---------------------------------------------------------------------------
  // The window an entry counts
  // ---------------------------------------------------------------------------

  /**
   * `start` begins the current window: only failures since, all within the window's length of it, and it begins the
   * list, follows a success, or comes more than that length after the start of the window before.
   */
  ghost predicate IsWindow(events: seq<Event>, start: nat)
    decreases |events|, 1
  {
    && start < |events|
    && (forall i :: start <= i < |events| ==> events[i].Failed? && events[i].at - events[start].at <= FAILURE_WINDOW)
    && Opens(events, start)
  }

  ghost predicate Opens(events: seq<Event>, start: nat)
    requires start < |events|
    decreases |events|, 0
  {
    || start == 0 || events[start - 1].Succeeded?
    || exists w: nat :: IsWindow(events[..start], w) && events[start].at - events[w].at > FAILURE_WINDOW
  }

  function EntryOfWindow(config: Config, events: seq<Event>, start: nat): FailureEntry
    requires start < |events|
  {
    var count := if |events| - start < U32_MAX then |events| - start else U32_MAX;
    FailureEntry(count, events[start].at,
                 if count >= config.authFailLimit then Some(events[|events| - 1].at + config.authFailBan) else None)
  }

  lemma OpenFirstWindow(events: seq<Event>)
    requires events != [] && events[|events| - 1].Failed?
    requires |events| == 1 || events[|events| - 2].Succeeded?
    ensures IsWindow(events, |events| - 1)
  {
  }

  lemma OpenLaterWindow(events: seq<Event>, n: nat, w: nat)
    requires |events| == n + 1 && events[n].Failed?
    requires IsWindow(events[..n], w) && events[n].at - events[w].at > FAILURE_WINDOW
    ensures IsWindow(events, n)
  {
    assert exists v: nat :: IsWindow(events[..n], v) && events[n].at - events[v].at > FAILURE_WINDOW;
  }

  lemma SameOpening(earlier: seq<Event>, events: seq<Event>, start: nat)
    requires start < |earlier| <= |events| && earlier == events[..|earlier|]
    ensures Opens(earlier, start) == Opens(events, start)
  {
    assert earlier[..start] == events[..start];
    assert earlier[start] == events[start];
    assert start > 0 ==> earlier[start - 1] == events[start - 1];
    assert forall w: nat :: w < start ==> earlier[w] == events[w];
  }

  lemma ExtendWindow(events: seq<Event>, start: nat)
    requires events != [] && IsWindow(events[..|events| - 1], start)
    requires events[|events| - 1].Failed? && events[|events| - 1].at - events[start].at <= FAILURE_WINDOW
    ensures IsWindow(events, start)
  {
    var earlier := events[..|events| - 1];
    assert earlier[..start] == events[..start];
    SameOpening(earlier, events, start);
    forall i | start <= i < |events|
      ensures events[i].Failed? && events[i].at - events[start].at <= FAILURE_WINDOW
    {
      if i < |events| - 1 {
        assert events[i] == earlier[i];
      }
    }
  }

  lemma ExtendEntry(config: Config, events: seq<Event>, start: nat)
    requires events != [] && start < |events| - 1
    requires events[|events| - 1].Failed? && events[|events| - 1].at - events[start].at <= FAILURE_WINDOW
    ensures AfterFailure(config, Some(EntryOfWindow(config, events[..|events| - 1], start)), events[|events| - 1].at) ==
            EntryOfWindow(config, events, start)
  {
  }

  /** The entry always describes exactly the current window: its failures, its first, and the ban they earned. */
  lemma {:induction false} EntryIsItsWindow(config: Config, events: seq<Event>) returns (start: nat)
    requires config.authFailLimit <= U32_MAX
    requires events != [] && events[|events| - 1].Failed?
    ensures IsWindow(events, start)
    ensures Track(config, None, events) == Some(EntryOfWindow(config, events, start))
    decreases |events|
  {
    var n := |events| - 1;
    var earlier := events[..n];
    if n == 0 || events[n - 1].Succeeded? {
      start := n;
      assert Track(config, None, earlier) == None;
      OpenFirstWindow(events);
    } else {
      start := EntryIsItsWindow(config, earlier);
      if events[n].at - events[start].at > FAILURE_WINDOW {
        OpenLaterWindow(events, n, start);
        start := n;
      } else {
        ExtendWindow(events, start);
        ExtendEntry(config, events, start);
      }
    }
    assert IsWindow(events, start);
  }

  lemma ShorterWindow(events: seq<Event>, start: nat, n: nat)
    requires IsWindow(events, start) && start < n <= |events|
    ensures IsWindow(events[..n], start)
  {
    var earlier := events[..n];
    SameOpening(earlier, events, start);
    forall i | start <= i < n
      ensures earlier[i].Failed? && earlier[i].at - earlier[start].at <= FAILURE_WINDOW
    {
      assert earlier[i] == events[i];
    }
  }

  /** A list of events has at most one current window. */
  lemma {:induction false} WindowIsUnique(events: seq<Event>, a: nat, b: nat)
    requires IsWindow(events, a) && IsWindow(events, b)
    ensures a == b
    decreases |events|, if a <= b then 0 else 1
  {
    if b < a {
      WindowIsUnique(events, b, a);
    } else if a < b {
      assert events[b - 1].Failed?;
      assert Opens(events, b);
      var w: nat :| IsWindow(events[..b], w) && events[b].at - events[w].at > FAILURE_WINDOW;
      ShorterWindow(events, a, b);
      WindowIsUnique(events[..b], a, w);
      assert false;
    }
  }

  /** After a failure there is a current window; it is where a ban is decided. */
  lemma EntryOfTheWindow(config: Config, events: seq<Event>, start: nat)
    requires config.authFailLimit <= U32_MAX && IsWindow(events, start)
    ensures Track(config, None, events) == Some(EntryOfWindow(config, events, start))
  {
    assert events[|events| - 1].Failed?;
    var other := EntryIsItsWindow(config, events);
    WindowIsUnique(events, start, other);
  }

  /** With this current window, the client is banned exactly while it holds the limit and the ban has not run out. */
  lemma BannedIffWindowIsFull(config: Config, events: seq<Event>, start: nat, now: real)
    requires 1 <= config.authFailLimit <= U32_MAX && IsWindow(events, start)
    ensures Track(config, None, events).Some?
    ensures Track(config, None, events).value.IsBanned(now) <==>
            |events| - start >= config.authFailLimit && now < events[|events| - 1].at + config.authFailBan
  {
    EntryOfTheWindow(config, events, start);
  }

  /** A current window that holds the limit, with a ban that has not run out. */
  ghost predicate FullWindow(config: Config, events: seq<Event>, start: nat, now: real) {
    && IsWindow(events, start) && |events| - start >= config.authFailLimit
    && now < events[|events| - 1].at + config.authFailBan
  }

  /** Whatever was recorded, a client is banned exactly when there is a current window that is full and still counts. */
  lemma BannedIff(config: Config, events: seq<Event>, now: real)
    requires 1 <= config.authFailLimit <= U32_MAX
    ensures var entry := Track(config, None, events);
            (entry.Some? && entry.value.IsBanned(now)) <==> exists start :: FullWindow(config, events, start, now)
  {
    if events != [] && events[|events| - 1].Failed? {
      var start := EntryIsItsWindow(config, events);
      BannedIffWindowIsFull(config, events, start, now);
      assert FullWindow(config, events, start, now) <==> Track(config, None, events).value.IsBanned(now);
      forall other: nat | FullWindow(config, events, other, now) ensures other == start {
        WindowIsUnique(events, start, other);
      }
    } else if events != [] {
      assert Track(config, None, events) == None;
    }
  }

  // ---------------------------------------------------------------------------
  // Enough failures always ban
  // ---------------------------------------------------------------------------

  /** A window already open counts on while no failure falls outside it. */
  lemma {:induction false} CountsOn(config: Config, entry: FailureEntry, events: seq<Event>)
    requires config.authFailLimit <= U32_MAX
    requires events != []
    requires forall i :: 0 <= i < |events| ==> events[i].Failed? && events[i].at - entry.firstFailure <= FAILURE_WINDOW
    ensures var after := Track(config, Some(entry), events);
            && after.Some? && after.value.firstFailure == entry.firstFailure
            && (after.value.failures >= entry.failures + |events| || after.value.failures == U32_MAX)
            && (after.value.failures >= config.authFailLimit ==>
                  after.value.banUntil == Some(events[|events| - 1].at + config.authFailBan))
    decreases |events|
  {
    var n := |events| - 1;
    if n > 0 {
      CountsOn(config, entry, events[..n]);
    }
  }

  /** The first failure of a new window followed by enough others inside it bans the client from the last. */
  lemma FreshWindowBans(config: Config, entry: Option<FailureEntry>, events: seq<Event>)
    requires config.authFailLimit <= U32_MAX
    requires events != [] && |events| >= config.authFailLimit
    requires forall i :: 0 <= i < |events| ==> events[i].Failed? && events[i].at - events[0].at <= FAILURE_WINDOW
    requires entry.Some? ==> events[0].at - entry.value.firstFailure > FAILURE_WINDOW
    ensures var after := Track(config, entry, events);
            after.Some? && after.value.banUntil == Some(events[|events| - 1].at + config.authFailBan)
  {
    var first := Record(config, entry, events[0]);
    TrackConcat(config, entry, [events[0]], events[1..]);
    assert [events[0]] + events[1..] == events;
    assert [events[0]][..0] == [];
    assert Track(config, entry, [events[0]]) == first;
    assert first.value.firstFailure == events[0].at;
    if |events| > 1 {
      CountsOn(config, first.value, events[1..]);
    }
  }

  lemma {:induction false} TrackConcat(config: Config, entry: Option<FailureEntry>, p: seq<Event>, q: seq<Event>)
    ensures Track(config, entry, p + q) == Track(config, Track(config, entry, p), q)
    decreases |q|
  {
    if q == [] {
      assert p + q == p;
    } else {
      var n := |q| - 1;
      TrackConcat(config, entry, p, q[..n]);
      assert (p + q)[..|p + q| - 1] == p + q[..n];
    }
  }

  /** The first event that opens a new window, or `|events|` when all fall in the one already open. */
  function Opening(entry: Option<FailureEntry>, events: seq<Event>): (i: nat)
    ensures i <= |events|
    ensures i < |events| ==> entry.None? || events[i].at - entry.value.firstFailure > FAILURE_WINDOW
    ensures forall k :: 0 <= k < i ==> entry.Some? && events[k].at - entry.value.firstFailure <= FAILURE_WINDOW
  {
    if events == [] || entry.None? || events[0].at - entry.value.firstFailure > FAILURE_WINDOW then 0
    else 1 + Opening(entry, events[1..])
  }

  ghost predicate AllFailed(events: seq<Event>) {
    forall i :: 0 <= i < |events| ==> events[i].Failed?
  }

  /** How many failures close together always ban. */
  function FailuresThatBan(config: Config): nat {
    if config.authFailLimit <= 1 then 1 else 2 * config.authFailLimit - 2
  }

  /** Failures that ban when all of them fall in a window that already holds one. */
  function FailuresInOpenWindow(config: Config): (k: nat)
    ensures 1 <= k && k + 1 >= config.authFailLimit
  {
    if config.authFailLimit <= 1 then 1 else config.authFailLimit - 1
  }

  lemma EntriesHoldAFailure(config: Config, events: seq<Event>)
    ensures var entry := Track(config, None, events); entry.Some? ==> entry.value.failures >= 1
  {
  }

  /** The window already open holds one failure and takes enough others: the last of them bans. */
  lemma OpenWindowBans(config: Config, entry: FailureEntry, events: seq<Event>, k: nat)
    requires 1 <= config.authFailLimit <= U32_MAX
    requires AllFailed(events) && k == FailuresInOpenWindow(config) <= |events| && entry.failures >= 1
    requires forall i :: 0 <= i < k ==> events[i].at - entry.firstFailure <= FAILURE_WINDOW
    ensures var after := Track(config, Some(entry), events[..k]);
            after.Some? && after.value.banUntil == Some(events[k - 1].at + config.authFailBan)
  {
    CountsOn(config, entry, events[..k]);
    assert events[..k][k - 1] == events[k - 1];
  }

  /** Failures that stay in the open window keep its start. */
  lemma OpenWindowStays(config: Config, entry: Option<FailureEntry>, events: seq<Event>, i: nat)
    requires config.authFailLimit <= U32_MAX
    requires AllFailed(events) && i == Opening(entry, events) < |events|
    ensures var at := Track(config, entry, events[..i]);
            at.Some? ==> events[i].at - at.value.firstFailure > FAILURE_WINDOW
  {
    if i > 0 {
      CountsOn(config, entry.value, events[..i]);
    }
  }

  lemma NewWindowBans(config: Config, entry: Option<FailureEntry>, events: seq<Event>, i: nat, k: nat)
    requires 1 <= config.authFailLimit <= U32_MAX && k == i + config.authFailLimit <= |events|
    requires Ordered(events) && AllFailed(events)
    requires events[|events| - 1].at - events[0].at <= FAILURE_WINDOW
    requires i == Opening(entry, events)
    ensures var after := Track(config, entry, events[..k]);
            after.Some? && after.value.banUntil == Some(events[k - 1].at + config.authFailBan)
  {
    OpenWindowStays(config, entry, events, i);
    assert events[..k] == events[..i] + events[i..k];
    TrackConcat(config, entry, events[..i], events[i..k]);
    SliceBans(config, Track(config, entry, events[..i]), events, i, k);
  }

  lemma SliceBans(config: Config, entry: Option<FailureEntry>, events: seq<Event>, i: nat, k: nat)
    requires 1 <= config.authFailLimit <= U32_MAX && k == i + config.authFailLimit <= |events|
    requires Ordered(events) && AllFailed(events)
    requires events[|events| - 1].at - events[0].at <= FAILURE_WINDOW
    requires entry.Some? ==> events[i].at - entry.value.firstFailure > FAILURE_WINDOW
    ensures var after := Track(config, entry, events[i..k]);
            after.Some? && after.value.banUntil == Some(events[k - 1].at + config.authFailBan)
  {
    SliceStaysClose(events, i, k);
    FreshWindowBans(config, entry, events[i..k]);
  }

  lemma SliceStaysClose(events: seq<Event>, i: nat, k: nat)
    requires Ordered(events) && AllFailed(events) && i < k <= |events|
    requires events[|events| - 1].at - events[0].at <= FAILURE_WINDOW
    ensures forall j :: 0 <= j < k - i ==>
              events[i..k][j].Failed? && events[i..k][j].at - events[i..k][0].at <= FAILURE_WINDOW
  {
    assert events[0].at <= events[i].at;
    forall j | 0 <= j < k - i
      ensures events[i..k][j].Failed? && events[i..k][j].at - events[i..k][0].at <= FAILURE_WINDOW
    {
      assert events[i + j].at <= events[|events| - 1].at;
    }
  }

  /**
   * Whatever a client's record was, among `2 * limit - 2` failures within one window's length and no success between,
   * one bans it. From three on the limit itself can miss, because a window may end in the middle of them.
   */
  lemma EnoughFailuresBan(config: Config, record: seq<Event>, events: seq<Event>) returns (k: nat)
    requires 1 <= config.authFailLimit <= U32_MAX
    requires Ordered(events) && AllFailed(events) && |events| == FailuresThatBan(config)
    requires events[|events| - 1].at - events[0].at <= FAILURE_WINDOW
    ensures 1 <= k <= |events|
    ensures var after := Track(config, None, record + events[..k]);
            after.Some? && after.value.banUntil == Some(events[k - 1].at + config.authFailBan)
  {
    var entry := Track(config, None, record);
    EntriesHoldAFailure(config, record);
    var i := Opening(entry, events);
    k := FailuresInOpenWindow(config);
    if k <= i {
      OpenWindowBans(config, entry.value, events, k);
    } else {
      k := i + config.authFailLimit;
      NewWindowBans(config, entry, events, i, k);
    }
    TrackConcat(config, None, record, events[..k]);
  }

  function Repeat(at: real, n: nat): seq<Event> {
    seq(n, i => Failed(at))
  }

  /** Failures short of the limit are counted, and that is all. */
  lemma {:induction false} RepeatCounts(config: Config, entry: FailureEntry, at: real, n: nat)
    requires entry.failures + n < config.authFailLimit <= U32_MAX && at - entry.firstFailure <= FAILURE_WINDOW
    ensures Track(config, Some(entry), Repeat(at, n)) == Some(entry.(failures := entry.failures + n))
    decreases n
  {
    if n > 0 {
      RepeatCounts(config, entry, at, n - 1);
      assert Repeat(at, n)[..n - 1] == Repeat(at, n - 1);
    }
  }

  /** One failure opens a window, and others short of the limit are counted in it. */
  lemma OpensAndCounts(config: Config, entry: Option<FailureEntry>, first: real, at: real, n: nat)
    requires n + 1 < config.authFailLimit <= U32_MAX && at - first <= FAILURE_WINDOW
    requires entry.Some? ==> first - entry.value.firstFailure > FAILURE_WINDOW
    ensures Track(config, entry, [Failed(first)] + Repeat(at, n)) == Some(FailureEntry(n + 1, first, None))
  {
    TrackConcat(config, entry, [Failed(first)], Repeat(at, n));
    assert [Failed(first)][..0] == [];
    assert Track(config, entry, [Failed(first)]) == Some(FailureEntry(1, first, None));
    RepeatCounts(config, FailureEntry(1, first, None), at, n);
  }

  /** A failure, and an hour on `limit - 2` more in its window and `limit - 1` past it. */
  function Straddling(limit: nat): seq<Event>
    requires limit >= 2
  {
    [Failed(0.0)] + Repeat(3599.0, limit - 2) + ([Failed(3601.0)] + Repeat(3601.0, limit - 2))
  }

  /**
   * One failure fewer need not ban, at any limit: the last `2 * limit - 3` failures of this record fall within two
   * seconds, and nowhere along it is there a ban.
   */
  lemma StraddlingFailuresDoNotBan(config: Config, k: nat)
    requires 2 <= config.authFailLimit <= U32_MAX && k <= |Straddling(config.authFailLimit)|
    ensures var events := Straddling(config.authFailLimit);
            && Ordered(events) && AllFailed(events) && |events[1..]| == FailuresThatBan(config) - 1
            && events[|events| - 1].at - events[1].at <= 2.0
            && var entry := Track(config, None, events[..k]);
               entry.Some? ==> entry.value.banUntil == None
  {
    StraddlingShape(config.authFailLimit);
    StraddlingIsNotBanned(config, k);
  }

  lemma StraddlingShape(limit: nat)
    requires limit >= 2
    ensures var events := Straddling(limit);
            && |events| == 2 * limit - 2 && Ordered(events) && AllFailed(events)
            && events[|events| - 1].at - events[1].at <= 2.0
  {
  }

  lemma StraddlingIsNotBanned(config: Config, k: nat)
    requires 2 <= config.authFailLimit <= U32_MAX && k <= |Straddling(config.authFailLimit)|
    ensures var entry := Track(config, None, Straddling(config.authFailLimit)[..k]);
            entry.Some? ==> entry.value.banUntil == None
  {
    var n := config.authFailLimit - 2;
    var before := [Failed(0.0)] + Repeat(3599.0, n);
    var events := Straddling(config.authFailLimit);
    if 1 <= k <= n + 1 {
      assert events[..k] == [Failed(0.0)] + Repeat(3599.0, k - 1);
      OpensAndCounts(config, None, 0.0, 3599.0, k - 1);
    } else if k > n + 1 {
      assert events[..k] == before + ([Failed(3601.0)] + Repeat(3601.0, k - n - 2));
      OpensAndCounts(config, None, 0.0, 3599.0, n);
      TrackConcat(config, None, before, [Failed(3601.0)] + Repeat(3601.0, k - n - 2));
      OpensAndCounts(config, Track(config, None, before), 3601.0, 3601.0, k - n - 2);
    }
  }

  // ---------------------------------------------------------------------------
  // Over runs of requests
  // ---------------------------------------------------------------------------

  /**
   * From an empty limiter: while a client's current window is full, every later request of that client before the
   * deadline is refused as banned, whatever anybody else sends.
   */
  lemma FullWindowLocksOut(config: Config, run: seq<Request>, later: seq<Request>, b: ClientBucket, start: nat)
    requires config.enabled && 1 <= config.authFailLimit <= U32_MAX
    requires var events := Events(config, State(map[], map[], map[]), run, b);
             && IsWindow(events, start) && |events| - start >= config.authFailLimit
             && forall i :: 0 <= i < |later| ==> later[i].at < events[|events| - 1].at + config.authFailBan
    ensures var s := Middleware.After(config, State(map[], map[], map[]), run);
            forall i :: 0 <= i < |later| && later[i].From(b) ==>
              var response := ResponseAt(config, s, later, i);
              response.TooMany? && response.exceeded.limitType == IpBanned
  {
    var empty := State(map[], map[], map[]);
    var events := Events(config, empty, run, b);
    RunRecords(config, empty, run, b);
    EntryOfTheWindow(config, events, start);
    BanHolds(config, Middleware.After(config, empty, run), later, b, events[|events| - 1].at + config.authFailBan);
  }

  /** A client refused as banned has earned it: its record ends in a full window of failures. */
  lemma BannedHasFailed(config: Config, run: seq<Request>, b: ClientBucket, now: real) returns (start: nat)
    requires config.enabled && 1 <= config.authFailLimit <= U32_MAX
    requires Middleware.After(config, State(map[], map[], map[]), run).Banned(b, now)
    ensures var events := Events(config, State(map[], map[], map[]), run, b);
            && IsWindow(events, start) && |events| - start >= config.authFailLimit
            && now < events[|events| - 1].at + config.authFailBan
  {
    var empty := State(map[], map[], map[]);
    RunRecords(config, empty, run, b);
    var events := Events(config, empty, run, b);
    BannedIff(config, events, now);
    start :| FullWindow(config, events, start, now);
  }
}
