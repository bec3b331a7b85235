/**
 The in-memory fixed-window limiter of the auth service: backend/src/auth/rate-limit.middleware.ts,
 with the constants of backend/src/auth/auth.constants.ts. Time is a non-decreasing count of
 milliseconds.
 */
module FixedWindow {
  import opened Prelude

  const WINDOW_MS := 15 * 60 * 1000
  const MAX_REQUESTS := 100
  const AUTH_MAX := 10

  datatype Entry = Entry(count: nat, windowStart: int)

  type Store = map<string, Entry>

  function Lookup(s: Store, key: string): Option<Entry> {
    if key in s then Some(s[key]) else None
  }

  predicate Expired(e: Entry, now: int) { now - e.windowStart > WINDOW_MS }

  /** The entry of a key after one more request. */
  function Touch(e: Option<Entry>, now: int): Entry {
    if e.None? || Expired(e.value, now) then Entry(1, now)
    else Entry(e.value.count + 1, e.value.windowStart)
  }

  function Limit(auth: bool): nat { if auth then AUTH_MAX else MAX_REQUESTS }

  // ---------------------------------------------------------------- the middleware

  /** What the middleware sends: the headers, and retryAfter in the body when the status is 429. */
  datatype Response = Response(limit: int, remaining: int, reset: int, retryAfter: Option<int>)

  class RateLimitMiddleware {
    var store: Store

    constructor ()
      ensures store == map[]
    {
      store := map[];
    }

    /** One request on a key. `auth` says that the path is an auth endpoint. */
    method Use(key: string, auth: bool, now: int) returns (r: Response)
      modifies this
      ensures store == Apply(old(store), Request(key, auth, now))
      ensures r.retryAfter.None? <==> Admits(old(store), Request(key, auth, now))
      ensures r.retryAfter.None? <==> store[key].count <= r.limit
      ensures if key in old(store) && now - old(store)[key].windowStart <= 900000
              then store[key] == Entry(old(store)[key].count + 1, old(store)[key].windowStart)
              else store[key] == Entry(1, now)
      ensures r.limit == if auth then 10 else 100
      ensures r.remaining == if store[key].count <= r.limit then r.limit - store[key].count else 0
      ensures r.reset == CeilSeconds(store[key].windowStart + WINDOW_MS)
      ensures r.retryAfter.Some? ==> r.retryAfter.value == RetryAfter(store[key].windowStart, now)
    {
      var max := Limit(auth);
      var entry := Entry(1, now);
      if key in store && !Expired(store[key], now) {
        entry := Entry(store[key].count + 1, store[key].windowStart);
      } else if key in store {
        store := store - {key};
      }
      store := store[key := entry];
      var remaining := Max(0, max - entry.count);
      var resetAt := CeilSeconds(entry.windowStart + WINDOW_MS);
      if entry.count > max {
        return Response(max, remaining, resetAt, Some(resetAt - FloorSeconds(now)));
      }
      return Response(max, remaining, resetAt, None);
    }

    /** Deletes the expired entries, one at a time, in any order, and no other. */
    method PurgeExpired(now: int)
      modifies this
      ensures store == Apply(old(store), Purge(now))
    {
      var todo := store.Keys;
      while todo != {}
        invariant todo <= store.Keys <= old(store).Keys
        invariant forall k :: k in store ==> store[k] == old(store)[k]
        invariant forall k :: k in store && k !in todo ==> !Expired(store[k], now)
        invariant forall k :: k in old(store) && k !in store ==> Expired(old(store)[k], now)
        decreases todo
      {
        var k :| k in todo;
        todo := todo - {k};
        if Expired(store[k], now) { store := store - {k}; }
      }
    }
  }

  // ---------------------------------------------------------------- runs

  datatype Event =
    | Request(key: string, auth: bool, now: int)
    | Purge(now: int)

  function Apply(s: Store, e: Event): Store {
    match e
    case Request(key, _, now) => s[key := Touch(Lookup(s, key), now)]
    case Purge(now) => map k | k in s && !Expired(s[k], now) :: s[k]
  }

  predicate Admits(s: Store, e: Event)
    requires e.Request?
  {
    Touch(Lookup(s, e.key), e.now).count <= Limit(e.auth)
  }

  function Run(es: seq<Event>): Store {
    if es == [] then map[] else Apply(Run(es[..|es| - 1]), es[|es| - 1])
  }

  /** The decision on each request of a run, in order. */
  function Decisions(es: seq<Event>): seq<bool> {
    if es == [] then []
    else if es[|es| - 1].Purge? then Decisions(es[..|es| - 1])
    else Decisions(es[..|es| - 1]) + [Admits(Run(es[..|es| - 1]), es[|es| - 1])]
  }

  /** The same run without the purges. */
  function Unpurged(es: seq<Event>): seq<Event> {
    if es == [] then []
    else if es[|es| - 1].Purge? then Unpurged(es[..|es| - 1])
    else Unpurged(es[..|es| - 1]) + [es[|es| - 1]]
  }

  predicate InOrder(es: seq<Event>) {
    forall i, j :: 0 <= i < j < |es| ==> es[i].now <= es[j].now
  }

  // ---------------------------------------------------------------- purging is unobservable

  /** What a purged store has lost is only what would have been restarted anyway. */
  predicate Purged(s: Store, full: Store, now: int) {
    && (forall k :: k in s ==> k in full && s[k] == full[k])
    && (forall k :: k in full && k !in s ==> Expired(full[k], now))
  }

  lemma {:induction false} PurgedRun(es: seq<Event>, now: int)
    requires InOrder(es) && (es != [] ==> es[|es| - 1].now <= now)
    ensures Purged(Run(es), Run(Unpurged(es)), now)
  {
    if es != [] {
      var front, last := es[..|es| - 1], es[|es| - 1];
      PurgedRun(front, last.now);
      if last.Request? {
        assert Unpurged(es)[..|Unpurged(front)|] == Unpurged(front);
      }
    }
  }

  /** Whatever the schedule of `purgeExpired`, every decision is that of a store never purged. */
  lemma {:induction false} PurgingUnobservable(es: seq<Event>)
    requires InOrder(es)
    ensures Decisions(es) == Decisions(Unpurged(es))
  {
    if es != [] {
      var front, last := es[..|es| - 1], es[|es| - 1];
      PurgingUnobservable(front);
      if last.Request? {
        PurgedRun(front, last.now);
        assert Unpurged(es)[..|Unpurged(front)|] == Unpurged(front);
      }
    }
  }

  // ---------------------------------------------------------------- the bound

  /** How many requests on `key` with a time in [a, b] were admitted: all of them, or only those on
      auth endpoints. */
  function Admitted(es: seq<Event>, key: string, authOnly: bool, a: int, b: int): nat {
    if es == [] then 0
    else
      var front, last := es[..|es| - 1], es[|es| - 1];
      Admitted(front, key, authOnly, a, b)
      + if Counts(Run(front), last, key, authOnly, a, b) then 1 else 0
  }

  predicate Counts(s: Store, e: Event, key: string, authOnly: bool, a: int, b: int) {
    e.Request? && e.key == key && (authOnly ==> e.auth) && a <= e.now <= b && Admits(s, e)
  }

  lemma OneMore(es: seq<Event>, e: Event, key: string, authOnly: bool, a: int, b: int)
    ensures Run(es + [e]) == Apply(Run(es), e)
    ensures Admitted(es + [e], key, authOnly, a, b)
              == Admitted(es, key, authOnly, a, b) + if Counts(Run(es), e, key, authOnly, a, b) then 1 else 0
  {
    assert (es + [e])[..|es|] == es;
  }

  lemma PurgedDecides(s: Store, full: Store, e: Event)
    requires e.Request? && Purged(s, full, e.now)
    ensures Admits(s, e) == Admits(full, e)
  {
  }

  lemma {:induction false} AdmittedUnpurged(es: seq<Event>, key: string, authOnly: bool, a: int, b: int)
    requires InOrder(es)
    ensures Admitted(es, key, authOnly, a, b) == Admitted(Unpurged(es), key, authOnly, a, b)
  {
    if es != [] {
      var front, last := es[..|es| - 1], es[|es| - 1];
      AdmittedUnpurged(front, key, authOnly, a, b);
      if last.Request? {
        PurgedRun(front, last.now);
        PurgedDecides(Run(front), Run(Unpurged(front)), last);
        OneMore(Unpurged(front), last, key, authOnly, a, b);
      }
    }
  }

  function Min(a: int, b: int): int { if a < b then a else b }

  /** What is known of the admissions in [a, a + WINDOW_MS] from the current entry of the key alone. */
  predicate Bounded(n: nat, e: Option<Entry>, limit: nat, a: int) {
    match e
    case None => n == 0
    case Some(Entry(count, start)) =>
      && count >= 1
      && (start < a ==> n <= Min(count, limit) - 1)
      && (a <= start <= a + WINDOW_MS ==> n <= limit - 1 + Min(count, limit))
      && (a + WINDOW_MS < start ==> n <= 2 * limit - 1)
  }

  lemma BoundedStep(n: nat, s: Store, e: Event, key: string, authOnly: bool, a: int)
    requires e.Request? && Bounded(n, Lookup(s, key), Limit(authOnly), a)
    requires key in s ==> s[key].windowStart <= e.now
    requires e.now < a ==> n == 0
    ensures var n' := n + if Counts(s, e, key, authOnly, a, a + WINDOW_MS) then 1 else 0;
            Bounded(n', Lookup(Apply(s, e), key), Limit(authOnly), a) && (e.now < a ==> n' == 0)
  {
    if e.key != key {
      assert Lookup(Apply(s, e), key) == Lookup(s, key);
    } else {
      assert Lookup(Apply(s, e), key) == Some(Touch(Lookup(s, key), e.now));
    }
  }

  lemma {:induction false} BoundedRun(es: seq<Event>, key: string, authOnly: bool, a: int)
    requires InOrder(es)
    ensures var u := Unpurged(es);
            var n := Admitted(u, key, authOnly, a, a + WINDOW_MS);
            && Bounded(n, Lookup(Run(u), key), Limit(authOnly), a)
            && (es != [] && es[|es| - 1].now < a ==> n == 0)
            && (key in Run(u) ==> es != [] && Run(u)[key].windowStart <= es[|es| - 1].now)
  {
    if es != [] {
      var front, last := es[..|es| - 1], es[|es| - 1];
      BoundedRun(front, key, authOnly, a);
      if last.Request? {
        var u := Unpurged(front);
        BoundedStep(Admitted(u, key, authOnly, a, a + WINDOW_MS), Run(u), last, key, authOnly, a);
        OneMore(u, last, key, authOnly, a, a + WINDOW_MS);
      }
    }
  }

  /** Any closed interval of one window length admits fewer than twice the limit: the window that was
      open at its start spent one admission before the interval began. */
  lemma WindowBound(es: seq<Event>, key: string, authOnly: bool, a: int)
    requires InOrder(es)
    ensures Admitted(es, key, authOnly, a, a + 900000) <= if authOnly then 19 else 199
  {
    AdmittedUnpurged(es, key, authOnly, a, a + WINDOW_MS);
    BoundedRun(es, key, authOnly, a);
  }

  // ---------------------------------------------------------------- the bound is attained

  function Burst(es: seq<Event>, e: Event, n: nat): seq<Event> {
    if n == 0 then es else Burst(es, e, n - 1) + [e]
  }

  lemma OneAdmitted(es: seq<Event>, e: Event, a: int, b: int)
    requires e.Request? && e.key in Run(es) && a <= e.now <= b
    requires !Expired(Run(es)[e.key], e.now) && Run(es)[e.key].count < Limit(e.auth)
    ensures e.key in Run(es + [e])
    ensures Run(es + [e])[e.key] == Entry(Run(es)[e.key].count + 1, Run(es)[e.key].windowStart)
    ensures Admitted(es + [e], e.key, e.auth, a, b) == Admitted(es, e.key, e.auth, a, b) + 1
  {
    OneMore(es, e, e.key, e.auth, a, b);
  }

  /** A burst of `n` requests at one moment, in a window with room for them. */
  lemma {:induction false} BurstAdmitted(es: seq<Event>, e: Event, n: nat, a: int, b: int)
    requires e.Request? && e.key in Run(es) && a <= e.now <= b && !Expired(Run(es)[e.key], e.now)
    requires Run(es)[e.key].count + n <= Limit(e.auth)
    ensures e.key in Run(Burst(es, e, n))
    ensures Run(Burst(es, e, n))[e.key] == Entry(Run(es)[e.key].count + n, Run(es)[e.key].windowStart)
    ensures Admitted(Burst(es, e, n), e.key, e.auth, a, b) == Admitted(es, e.key, e.auth, a, b) + n
  {
    if n > 0 {
      BurstAdmitted(es, e, n - 1, a, b);
      OneAdmitted(Burst(es, e, n - 1), e, a, b);
    }
  }

  lemma {:induction false} BurstInOrder(es: seq<Event>, e: Event, n: nat)
    requires InOrder(es) && forall i :: 0 <= i < |es| ==> es[i].now <= e.now
    ensures InOrder(Burst(es, e, n))
    ensures forall i :: 0 <= i < |Burst(es, e, n)| ==> Burst(es, e, n)[i].now <= e.now
  {
    if n > 0 { BurstInOrder(es, e, n - 1); }
  }

  /** One request at 0, `n` at the end of its window, and `n + 1` one millisecond later. */
  function Saturating(key: string, auth: bool, n: nat): seq<Event> {
    var next := Request(key, auth, WINDOW_MS + 1);
    Burst(Burst([Request(key, auth, 0)], Request(key, auth, WINDOW_MS), n) + [next], next, n)
  }

  lemma FirstBurst(key: string, auth: bool, n: nat)
    requires n < Limit(auth)
    ensures var q := Burst([Request(key, auth, 0)], Request(key, auth, WINDOW_MS), n);
            && key in Run(q) && Run(q)[key].windowStart == 0
            && Admitted(q, key, auth, 1, 1 + WINDOW_MS) == n
            && InOrder(q) && forall i :: 0 <= i < |q| ==> q[i].now <= WINDOW_MS
  {
    var p := [Request(key, auth, 0)];
    assert p[..0] == [];
    assert Run(p) == map[key := Entry(1, 0)];
    BurstAdmitted(p, Request(key, auth, WINDOW_MS), n, 1, 1 + WINDOW_MS);
    BurstInOrder(p, Request(key, auth, WINDOW_MS), n);
  }

  lemma SecondBurst(q: seq<Event>, key: string, auth: bool, n: nat)
    requires n < Limit(auth) && key in Run(q) && Run(q)[key].windowStart == 0
    ensures var next := Request(key, auth, WINDOW_MS + 1);
            Admitted(Burst(q + [next], next, n), key, auth, 1, 1 + WINDOW_MS)
              == Admitted(q, key, auth, 1, 1 + WINDOW_MS) + n + 1
  {
    var next := Request(key, auth, WINDOW_MS + 1);
    OneMore(q, next, key, auth, 1, 1 + WINDOW_MS);
    assert Run(q + [next])[key] == Entry(1, WINDOW_MS + 1);
    BurstAdmitted(q + [next], next, n, 1, 1 + WINDOW_MS);
  }

  lemma SaturatingAdmits(key: string, auth: bool, n: nat)
    requires n + 1 == Limit(auth)
    ensures InOrder(Saturating(key, auth, n))
    ensures Admitted(Saturating(key, auth, n), key, auth, 1, 1 + WINDOW_MS) == 2 * Limit(auth) - 1
  {
    FirstBurst(key, auth, n);
    var q := Burst([Request(key, auth, 0)], Request(key, auth, WINDOW_MS), n);
    SecondBurst(q, key, auth, n);
    var next := Request(key, auth, WINDOW_MS + 1);
    BurstInOrder(q + [next], next, n);
  }

  /** The bound is met: 199 requests, or 19 on auth endpoints, are admitted within [1, 1 + WINDOW_MS]. */
  lemma BoundAttained(key: string, auth: bool) returns (es: seq<Event>)
    ensures InOrder(es) && Admitted(es, key, auth, 1, 1 + 900000) == if auth then 19 else 199
  {
    var n: nat := Limit(auth) - 1;
    SaturatingAdmits(key, auth, n);
    es := Saturating(key, auth, n);
  }

  // ---------------------------------------------------------------- retryAfter

  function RetryAfter(windowStart: int, now: int): int {
    CeilSeconds(windowStart + WINDOW_MS) - FloorSeconds(now)
  }

  /** A client that was denied at `now` and sends its next request exactly the advertised number of
      seconds later is admitted, unless both the window start and `now` fall on whole seconds: the
      window is then still open, because its last millisecond belongs to it. */
  lemma RetryAfterSufficientIff(e: Entry, now: int, auth: bool)
    requires e.windowStart <= now && !Expired(e, now) && e.count >= Limit(auth)
    ensures var retry := now + 1000 * RetryAfter(e.windowStart, now);
            Touch(Some(e), retry).count <= Limit(auth) <==> e.windowStart % 1000 != 0 || now % 1000 != 0
  {
    assert WINDOW_MS == 1000 * 900;
    CeilOfMultiple(e.windowStart, 900);
  }

  lemma CeilOfMultiple(ms: int, k: int)
    ensures CeilSeconds(ms + 1000 * k) == CeilSeconds(ms) + k
    ensures 1000 * CeilSeconds(ms) == ms + (-ms) % 1000
    ensures (-ms) % 1000 == 0 <==> ms % 1000 == 0
  {
    assert -(ms + 1000 * k) == -ms + 1000 * (-k);
  }
}
