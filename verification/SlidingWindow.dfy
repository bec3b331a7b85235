/**
 The Redis-backed sliding-window limiter of the gateway: gateway/src/rateLimiter.ts.
 One object is the state of one limiter key. Time is a non-decreasing count of milliseconds.
 */
module SlidingWindow {
  import opened Prelude

  /** One request as the limiter saw it: when it was recorded and whether it was let through. */
  datatype Entry = Entry(time: int, admitted: bool)

  function Times(h: seq<Entry>): seq<int> {
    seq(|h|, i requires 0 <= i < |h| => h[i].time)
  }

  /** How many of the timestamps lie in (lo, hi]. */
  function CountIn(ts: seq<int>, lo: int, hi: int): nat {
    if ts == [] then 0
    else CountIn(ts[..|ts| - 1], lo, hi) + if lo < ts[|ts| - 1] <= hi then 1 else 0
  }

  /** How many admitted requests lie in (lo, hi]. */
  function AdmittedIn(h: seq<Entry>, lo: int, hi: int): nat {
    if h == [] then 0
    else AdmittedIn(h[..|h| - 1], lo, hi)
         + if h[|h| - 1].admitted && lo < h[|h| - 1].time <= hi then 1 else 0
  }

  /** What ZREMRANGEBYSCORE key -inf lo leaves of the scores. */
  function Live(ts: seq<int>, lo: int): seq<int> {
    if ts == [] then []
    else if ts[|ts| - 1] > lo then Live(ts[..|ts| - 1], lo) + [ts[|ts| - 1]]
    else Live(ts[..|ts| - 1], lo)
  }

  predicate InOrder(h: seq<Entry>) {
    |h| <= 1 || (InOrder(h[..|h| - 1]) && h[|h| - 2].time <= h[|h| - 1].time)
  }

  predicate NoneAfter(h: seq<Entry>, clock: int) { h == [] || h[|h| - 1].time <= clock }

  /** The naive limiter: each request is admitted exactly when, itself included, at most `max` requests
      of the whole history fall in the window that ends with it. */
  predicate Naive(h: seq<Entry>, windowMs: int, max: int) {
    h == [] ||
    (var last := h[|h| - 1];
     && Naive(h[..|h| - 1], windowMs, max)
     && (last.admitted <==> CountIn(Times(h), last.time - windowMs, last.time) <= max))
  }

  // ---------------------------------------------------------------- the store

  /** What the middleware sends: the three headers, and Retry-After when the status is 429. */
  datatype Response = Response(limit: int, remaining: int, reset: int, retryAfter: Option<int>)

  function ExpireSeconds(windowMs: int): int { CeilSeconds(windowMs) + 1 }

  /** The log is that of the naive limiter, up to the present. */
  ghost predicate Agrees(h: seq<Entry>, windowMs: int, max: int, clock: int) {
    && InOrder(h)
    && NoneAfter(h, clock)
    && Naive(h, windowMs, max)
  }

  /** The sorted set holds the requests after a horizon that no later window reaches back beyond; its
      TTL outlives the window of its last request. */
  ghost predicate Pruned(scores: seq<int>, deadline: Option<int>, h: seq<Entry>, windowMs: int,
                         clock: int, horizon: int)
  {
    && scores == Live(Times(h), horizon)
    && horizon <= clock - windowMs
    && (deadline.None? ==> scores == [])
    && (deadline.Some? ==>
          h != [] && deadline.value == h[|h| - 1].time + 1000 * ExpireSeconds(windowMs))
  }

  class LimiterKey {
    const windowMs: int
    const max: int
    /** The scores of the sorted set, in order, and the time at which its TTL runs out. */
    var scores: seq<int>
    var deadline: Option<int>
    ghost var history: seq<Entry>
    ghost var clock: int
    ghost var horizon: int

    ghost predicate Valid()
      reads this
    {
      && windowMs >= 1
      && Agrees(history, windowMs, max, clock)
      && Pruned(scores, deadline, history, windowMs, clock, horizon)
    }

    constructor (windowMs: int, max: int)
      requires windowMs >= 1
      ensures Valid() && history == [] && this.windowMs == windowMs && this.max == max
    {
      this.windowMs, this.max := windowMs, max;
      scores, deadline, history, clock, horizon := [], None, [], 0, -windowMs;
    }

    /** Redis drops the key once its TTL has run out; it may do so at any moment from then on. No live
        entry is lost. */
    method ExpireKey(now: int)
      requires Valid() && clock <= now && deadline.Some? && deadline.value <= now
      modifies this
      ensures Valid() && history == old(history) && clock == now
      ensures scores == [] && deadline == None
      ensures CountIn(Times(history), now - windowMs, now) == 0
    {
      scores, deadline := [], None;
      clock, horizon := now, now - windowMs;
      OrderedBelow(history, horizon);
      NoneLive(Times(history), horizon, now);
    }

    /** Prunes, adds, counts and renews the TTL. The count is that of the naive limiter on the full
        history. */
    method IncrementSlidingWindow(now: int) returns (count: nat)
      requires Valid() && clock <= now
      modifies this
      ensures Valid() && clock == now
      ensures history == old(history) + [Entry(now, count <= max)]
      ensures count == CountIn(Times(history), now - windowMs, now)
      ensures deadline.Some? && now + windowMs + 1000 <= deadline.value < now + windowMs + 2000
    {
      if deadline.Some? && deadline.value <= now { ExpireKey(now); }
      count := RunPipeline(now);
    }

    /** The four commands, on a key that has not expired. */
    method RunPipeline(now: int) returns (count: nat)
      requires Valid() && clock <= now
      modifies this
      ensures Valid() && clock == now
      ensures history == old(history) + [Entry(now, count <= max)]
      ensures count == CountIn(Times(history), now - windowMs, now)
      ensures deadline.Some? && now + windowMs + 1000 <= deadline.value < now + windowMs + 2000
    {
      scores := Live(scores, now - windowMs);
      scores := scores + [now];
      count := |scores|;
      ghost var e := Entry(now, count <= max);
      PipelineKeepsInvariant(old(scores), deadline, history, windowMs, max, clock, horizon, scores, e);
      deadline := Some(now + 1000 * ExpireSeconds(windowMs));
      clock, horizon, history := now, now - windowMs, history + [e];
    }

    /** One pass of the middleware. The clock is read three times: for the reset time, for the score
        and for Retry-After; other requests may be recorded between the readings. */
    method Handle(before: int, now: int, after: int) returns (r: Response)
      requires Valid() && before <= now <= after && clock <= now
      modifies this
      ensures Valid() && clock == now
      ensures history == old(history) + [Entry(now, r.retryAfter.None?)]
      ensures r.retryAfter.None? <==> CountIn(Times(history), now - windowMs, now) <= max
      ensures r.limit == max
      ensures r.remaining == Max(0, max - CountIn(Times(history), now - windowMs, now))
      ensures r.reset == CeilSeconds(before + windowMs)
      ensures r.retryAfter.Some? ==> r.retryAfter.value == r.reset - FloorSeconds(after)
    {
      var resetAt := CeilSeconds(before + windowMs);
      var count := IncrementSlidingWindow(now);
      var remaining := Max(0, max - count);
      if count > max {
        r := Response(max, remaining, resetAt, Some(resetAt - FloorSeconds(after)));
      } else {
        r := Response(max, remaining, resetAt, None);
      }
    }
  }

  // ---------------------------------------------------------------- pruning loses nothing

  lemma {:induction false} OrderedBelow(h: seq<Entry>, clock: int)
    requires InOrder(h) && NoneAfter(h, clock)
    ensures forall i :: 0 <= i < |h| ==> Times(h)[i] <= clock
  {
    if h != [] {
      OrderedBelow(h[..|h| - 1], clock);
      assert Times(h) == Times(h[..|h| - 1]) + [h[|h| - 1].time];
    }
  }

  lemma {:induction false} LiveLive(ts: seq<int>, a: int, b: int)
    requires a <= b
    ensures Live(Live(ts, a), b) == Live(ts, b)
  {
    if ts != [] {
      var front, last := ts[..|ts| - 1], ts[|ts| - 1];
      LiveLive(front, a, b);
      if last > a {
        var l := Live(front, a) + [last];
        assert l[..|l| - 1] == Live(front, a) && l[|l| - 1] == last;
      }
    }
  }

  lemma {:induction false} LiveCounts(ts: seq<int>, lo: int, hi: int)
    requires forall i :: 0 <= i < |ts| ==> ts[i] <= hi
    ensures |Live(ts, lo)| == CountIn(ts, lo, hi)
  {
    if ts != [] { LiveCounts(ts[..|ts| - 1], lo, hi); }
  }

  lemma {:induction false} NoneLive(ts: seq<int>, lo: int, hi: int)
    requires forall i :: 0 <= i < |ts| ==> ts[i] <= lo
    ensures Live(ts, lo) == [] && CountIn(ts, lo, hi) == 0
  {
    if ts != [] { NoneLive(ts[..|ts| - 1], lo, hi); }
  }

  /** Pruning, adding and counting computes the naive count. */
  lemma CountIsNaive(ts: seq<int>, windowMs: int, now: int, horizon: int, scores: seq<int>)
    requires windowMs >= 1 && horizon <= now - windowMs
    requires forall i :: 0 <= i < |ts| ==> ts[i] <= now
    requires scores == Live(Live(ts, horizon), now - windowMs) + [now]
    ensures scores == Live(ts + [now], now - windowMs)
    ensures |scores| == CountIn(ts + [now], now - windowMs, now)
  {
    LiveLive(ts, horizon, now - windowMs);
    assert (ts + [now])[..|ts|] == ts;
    LiveCounts(ts + [now], now - windowMs, now);
  }

  lemma AgreesExtends(h: seq<Entry>, e: Entry, windowMs: int, max: int)
    requires Agrees(h, windowMs, max, e.time)
    requires e.admitted <==> CountIn(Times(h + [e]), e.time - windowMs, e.time) <= max
    ensures Agrees(h + [e], windowMs, max, e.time)
  {
    assert (h + [e])[..|h|] == h;
  }

  lemma PipelineKeepsInvariant(scores: seq<int>, deadline: Option<int>, h: seq<Entry>, windowMs: int,
                               max: int, clock: int, horizon: int, scores': seq<int>, e: Entry)
    requires windowMs >= 1 && clock <= e.time
    requires Agrees(h, windowMs, max, clock) && Pruned(scores, deadline, h, windowMs, clock, horizon)
    requires scores' == Live(scores, e.time - windowMs) + [e.time] && (e.admitted <==> |scores'| <= max)
    ensures |scores'| == CountIn(Times(h + [e]), e.time - windowMs, e.time)
    ensures Agrees(h + [e], windowMs, max, e.time)
    ensures Pruned(scores', Some(e.time + 1000 * ExpireSeconds(windowMs)), h + [e], windowMs, e.time, e.time - windowMs)
  {
    OrderedBelow(h, e.time);
    CountIsNaive(Times(h), windowMs, e.time, horizon, scores');
    assert Times(h + [e]) == Times(h) + [e.time];
    AgreesExtends(h, e, windowMs, max);
  }

  // ---------------------------------------------------------------- safety of every window

  lemma {:induction false} AdmittedAtMostCount(h: seq<Entry>, lo: int, hi: int)
    ensures AdmittedIn(h, lo, hi) <= CountIn(Times(h), lo, hi)
  {
    if h != [] {
      AdmittedAtMostCount(h[..|h| - 1], lo, hi);
      assert Times(h)[..|h| - 1] == Times(h[..|h| - 1]);
    }
  }

  lemma {:induction false} CountMonotone(ts: seq<int>, lo: int, hi: int, lo': int, hi': int)
    requires lo' <= lo && forall i :: 0 <= i < |ts| && ts[i] <= hi ==> ts[i] <= hi'
    ensures CountIn(ts, lo, hi) <= CountIn(ts, lo', hi')
  {
    if ts != [] { CountMonotone(ts[..|ts| - 1], lo, hi, lo', hi'); }
  }

  /** Although the check is made only when requests arrive, every window of the configured length
      holds at most `max` admitted requests. */
  lemma {:induction false} WindowSafety(h: seq<Entry>, windowMs: int, max: nat, t: int)
    requires InOrder(h) && Naive(h, windowMs, max)
    ensures AdmittedIn(h, t - windowMs, t) <= max
  {
    if h != [] {
      var front, last := h[..|h| - 1], h[|h| - 1];
      if last.admitted && t - windowMs < last.time <= t {
        // The last admitted request of the window counted every request of the window.
        AdmittedAtMostCount(h, t - windowMs, t);
        OrderedBelow(h, last.time);
        CountMonotone(Times(h), t - windowMs, t, last.time - windowMs, last.time);
      } else {
        WindowSafety(front, windowMs, max, t);
      }
    }
  }

  // ---------------------------------------------------------------- Retry-After

  function RetryAfter(windowMs: int, before: int, after: int): int {
    CeilSeconds(before + windowMs) - FloorSeconds(after)
  }

  lemma {:induction false} CountAppend(h: seq<Entry>, e: Entry, lo: int)
    requires lo < e.time
    ensures CountIn(Times(h + [e]), lo, e.time) == CountIn(Times(h), lo, e.time) + 1
  {
    assert Times(h + [e])[..|h|] == Times(h);
  }

  /** The next request on the key is admitted exactly when fewer than `max` requests, denied ones
      included, are still in its window. */
  lemma NextAdmittedIff(h: seq<Entry>, e: Entry, windowMs: int, max: int)
    requires windowMs >= 1 && InOrder(h + [e]) && Naive(h + [e], windowMs, max)
    ensures e.admitted <==> CountIn(Times(h), e.time - windowMs, e.time) < max
  {
    var g := h + [e];
    assert g[..|h|] == h && g[|h|] == e;
    CountAppend(h, e, e.time - windowMs);
  }

  /** A client that was denied and then waits the advertised number of seconds is admitted whenever
      fewer than `max` requests were recorded after the clock was first read for its reset time. */
  lemma RetryAfterSufficient(h: seq<Entry>, e: Entry, windowMs: int, max: int, before: int, after: int)
    requires windowMs >= 1 && h != [] && InOrder(h + [e]) && Naive(h + [e], windowMs, max)
    requires before <= h[|h| - 1].time <= after <= e.time
    requires e.time >= after + 1000 * RetryAfter(windowMs, before, after)
    ensures CountIn(Times(h), before, h[|h| - 1].time) < max ==> e.admitted
  {
    NextAdmittedIff(h, e, windowMs, max);
    assert e.time - windowMs >= before;
    assert (h + [e])[..|h|] == h;
    OrderedBelow(h, h[|h| - 1].time);
    CountMonotone(Times(h), e.time - windowMs, e.time, before, h[|h| - 1].time);
  }

  /** A client that waits exactly as long as advertised is admitted if and only if fewer than `max`
      requests were recorded more than the rounding after that reading. */
  lemma RetryAfterExact(h: seq<Entry>, e: Entry, windowMs: int, max: int, before: int, after: int)
    requires windowMs >= 1 && h != [] && InOrder(h + [e]) && Naive(h + [e], windowMs, max)
    requires before <= h[|h| - 1].time <= after && e.time == after + 1000 * RetryAfter(windowMs, before, after)
    ensures e.admitted <==>
              CountIn(Times(h), before + (-(before + windowMs)) % 1000 + after % 1000, e.time) < max
  {
    NextAdmittedIff(h, e, windowMs, max);
  }

  /** With one clock reading per request nothing is recorded after it, so the advice always suffices. */
  lemma RetryAfterSufficientOneReading(h: seq<Entry>, e: Entry, windowMs: int, max: int)
    requires windowMs >= 1 && max >= 1 && h != [] && InOrder(h + [e]) && Naive(h + [e], windowMs, max)
    requires var t := h[|h| - 1].time; e.time >= t && e.time >= t + 1000 * RetryAfter(windowMs, t, t)
    ensures e.admitted
  {
    var t := h[|h| - 1].time;
    EmptyWindow(Times(h), t);
    RetryAfterSufficient(h, e, windowMs, max, t, t);
  }

  lemma {:induction false} EmptyWindow(ts: seq<int>, t: int)
    ensures CountIn(ts, t, t) == 0
  {
    if ts != [] { EmptyWindow(ts[..|ts| - 1], t); }
  }

  /** With the three readings the code makes, the advice can fall short: limit 1, window of a minute,
      reset time read at 0, the denied request recorded at 500, Retry-After computed at 1000. Waiting
      59 seconds, the client is denied again. */
  lemma RetryAfterTooShort()
    ensures RetryAfter(60000, 0, 1000) == 59
    ensures var h := [Entry(0, true), Entry(500, false), Entry(1000 + 59000, false)];
            InOrder(h) && Naive(h, 60000, 1)
  {
    var h := [Entry(0, true), Entry(500, false), Entry(60000, false)];
    var h2, h1 := h[..2], h[..1];
    assert h2[..1] == h1 && h1[..0] == [];
    assert Times(h1) == [0] && Times(h2) == [0, 500] && Times(h) == [0, 500, 60000];
    assert [0][..0] == [] && [0, 500][..1] == [0] && [0, 500, 60000][..2] == [0, 500];
    assert CountIn([0], -60000, 0) == 1;
    assert CountIn([0], -59500, 500) == 1;
    assert CountIn([0, 500], -59500, 500) == 2;
    assert CountIn([0], 0, 60000) == 0;
    assert CountIn([0, 500], 0, 60000) == 1;
    assert CountIn([0, 500, 60000], 0, 60000) == 2;
    assert Naive(h1, 60000, 1);
    assert Naive(h2, 60000, 1);
  }
}
