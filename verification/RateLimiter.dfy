/** The fixed-window rate limiter: one window per client key, with an opportunistic
    sweep of old windows. Clock readings are integers. A key that is absent stands for
    the zero window, whose start time is never a clock reading. */
module RateLimiter {
  datatype Window = Window(started: int, count: nat)

  type Clients = map<string, Window>

  const SWEEP_ABOVE := 2000

  /** The key's window after it has counted a request. */
  function Counted(window: int, clients: Clients, now: int, key: string): Window {
    if key in clients && now - clients[key].started < window
    then Window(clients[key].started, clients[key].count + 1)
    else Window(now, 1)
  }

  predicate Admits(capacity: int, window: int, clients: Clients, now: int, key: string) {
    Counted(window, clients, now, key).count <= capacity
  }

  /** The table of a limiter that never deletes. */
  function Recorded(window: int, clients: Clients, now: int, key: string): Clients {
    clients[key := Counted(window, clients, now, key)]
  }

  predicate Stale(window: int, entry: Window, now: int) {
    now - entry.started > window * 2
  }

  /** Past the threshold, windows that started more than two windows ago are dropped. */
  function Swept(window: int, clients: Clients, now: int): Clients {
    if |clients| > SWEEP_ABOVE then map k | k in clients && !Stale(window, clients[k], now) :: clients[k]
    else clients
  }

  /** What a sweep leaves: with more than 2000 entries those that started at most two windows
      ago, otherwise all of them; what is left is unchanged. */
  lemma SweptExactly(window: int, clients: Clients, now: int, key: string)
    ensures key in Swept(window, clients, now)
            <==> key in clients && (|clients| <= 2000 || now - clients[key].started <= 2 * window)
    ensures key in Swept(window, clients, now) ==> Swept(window, clients, now)[key] == clients[key]
  {
  }

  class RateLimiter {
    const capacity: int
    const window: int
    var clients: Clients

    constructor (capacity: int, window: int)
      ensures this.capacity == capacity && this.window == window && clients == map[]
    {
      this.capacity, this.window, this.clients := capacity, window, map[];
    }

    /** The critical section of `Middleware`. */
    method Handle(now: int, key: string) returns (admitted: bool)
      modifies this
      ensures admitted == Admits(capacity, window, old(clients), now, key)
      ensures clients == Swept(window, Recorded(window, old(clients), now, key), now)
    {
      var entry := if key in clients then clients[key] else Window(0, 0);
      if key !in clients || now - entry.started >= window {
        entry := Window(now, 0);
      }
      entry := Window(entry.started, entry.count + 1);
      clients := clients[key := entry];
      Sweep(now);
      var left := capacity - entry.count;
      admitted := left >= 0;
    }

    /** The sweep inside the critical section: a loop over the table that deletes. */
    method Sweep(now: int)
      modifies this
      ensures clients == Swept(window, old(clients), now)
    {
      if |clients| > SWEEP_ABOVE {
        var recorded := clients;
        var remaining := recorded.Keys;
        while remaining != {}
          invariant remaining <= recorded.Keys
          invariant clients
                 == map k | k in recorded && (k in remaining || !Stale(window, recorded[k], now)) :: recorded[k]
          decreases |remaining|
        {
          var itemKey :| itemKey in remaining;
          if Stale(window, recorded[itemKey], now) {
            clients := clients - {itemKey};
          }
          remaining := remaining - {itemKey};
        }
      }
    }
  }

  // ---- runs ----

  datatype Request = Request(now: int, key: string)

  function Decisions(capacity: int, window: int, clients: Clients, requests: seq<Request>): (r: seq<bool>)
    ensures |r| == |requests|
    decreases |requests|
  {
    if requests == [] then []
    else
      var Request(now, key) := requests[0];
      [Admits(capacity, window, clients, now, key)]
      + Decisions(capacity, window, Swept(window, Recorded(window, clients, now, key), now), requests[1..])
  }

  /** The decisions of a limiter that never deletes. */
  function KeptDecisions(capacity: int, window: int, clients: Clients, requests: seq<Request>): (r: seq<bool>)
    ensures |r| == |requests|
    decreases |requests|
  {
    if requests == [] then []
    else
      var Request(now, key) := requests[0];
      [Admits(capacity, window, clients, now, key)]
      + KeptDecisions(capacity, window, Recorded(window, clients, now, key), requests[1..])
  }

  /** No reading is earlier than a previous one by more than one window. */
  ghost predicate NearlyOrdered(window: int, requests: seq<Request>) {
    forall i, j :: 0 <= i < j < |requests| ==> requests[j].now >= requests[i].now - window
  }

  /** The swept table agrees with the kept one, and what it forgot has expired for every
      request still to come. */
  ghost predicate Forgets(window: int, swept: Clients, kept: Clients, requests: seq<Request>) {
    && swept.Keys <= kept.Keys
    && (forall k :: k in swept ==> swept[k] == kept[k])
    && (forall k, r :: k in kept && k !in swept && r in requests ==> r.now - kept[k].started >= window)
  }

  lemma ForgetsStep(window: int, swept: Clients, kept: Clients, requests: seq<Request>)
    requires requests != [] && NearlyOrdered(window, requests) && Forgets(window, swept, kept, requests)
    ensures var Request(now, key) := requests[0];
            && Counted(window, swept, now, key) == Counted(window, kept, now, key)
            && Forgets(window, Swept(window, Recorded(window, swept, now, key), now),
                       Recorded(window, kept, now, key), requests[1..])
  {
    var Request(now, key) := requests[0];
    assert requests[0] in requests;
    var recorded, kept' := Recorded(window, swept, now, key), Recorded(window, kept, now, key);
    var swept' := Swept(window, recorded, now);
    forall k, r | k in kept' && k !in swept' && r in requests[1..]
      ensures r.now - kept'[k].started >= window
    {
      var j :| 0 <= j < |requests[1..]| && requests[1..][j] == r;
      assert requests[1 + j] == r;
      if k in recorded {
        assert Stale(window, recorded[k], now);
      }
    }
  }

  lemma {:induction false} ForgettingIsInvisible(
      capacity: int, window: int, swept: Clients, kept: Clients, requests: seq<Request>)
    requires NearlyOrdered(window, requests) && Forgets(window, swept, kept, requests)
    ensures Decisions(capacity, window, swept, requests) == KeptDecisions(capacity, window, kept, requests)
    decreases |requests|
  {
    if requests != [] {
      var Request(now, key) := requests[0];
      ForgetsStep(window, swept, kept, requests);
      ForgettingIsInvisible(capacity, window, Swept(window, Recorded(window, swept, now, key), now),
                            Recorded(window, kept, now, key), requests[1..]);
    }
  }

  /** The sweep is invisible: the limiter decides as one that never deletes, even if
      readings arrive out of order by up to one window. */
  lemma SweepIsInvisible(capacity: int, window: int, requests: seq<Request>)
    requires NearlyOrdered(window, requests)
    ensures Decisions(capacity, window, map[], requests) == KeptDecisions(capacity, window, map[], requests)
  {
    ForgettingIsInvisible(capacity, window, map[], map[], requests);
  }

  // ---- keys do not interfere ----

  function Only(requests: seq<Request>, key: string): seq<Request> {
    if requests == [] then []
    else (if requests[0].key == key then [requests[0]] else []) + Only(requests[1..], key)
  }

  /** The decisions at the positions that carry the key. */
  function Pick(decisions: seq<bool>, requests: seq<Request>, key: string): seq<bool>
    requires |decisions| == |requests|
  {
    if requests == [] then []
    else (if requests[0].key == key then [decisions[0]] else []) + Pick(decisions[1..], requests[1..], key)
  }

  ghost predicate SameFor(key: string, a: Clients, b: Clients) {
    (key in a <==> key in b) && (key in a ==> a[key] == b[key])
  }

  lemma {:induction false} KeptKeysApart(
      capacity: int, window: int, a: Clients, b: Clients, requests: seq<Request>, key: string)
    requires SameFor(key, a, b)
    ensures Pick(KeptDecisions(capacity, window, a, requests), requests, key)
         == KeptDecisions(capacity, window, b, Only(requests, key))
    decreases |requests|
  {
    if requests != [] {
      var r := requests[0];
      var a' := Recorded(window, a, r.now, r.key);
      assert KeptDecisions(capacity, window, a, requests)[1..] == KeptDecisions(capacity, window, a', requests[1..]);
      if r.key == key {
        KeptKeysApart(capacity, window, a', Recorded(window, b, r.now, key), requests[1..], key);
        assert Only(requests, key)[1..] == Only(requests[1..], key);
      } else {
        KeptKeysApart(capacity, window, a', b, requests[1..], key);
        assert Only(requests, key) == Only(requests[1..], key);
      }
    }
  }

  lemma {:induction false} OnlyIsSubsequence(requests: seq<Request>, key: string, window: int)
    requires NearlyOrdered(window, requests)
    ensures NearlyOrdered(window, Only(requests, key))
    ensures forall r :: r in Only(requests, key) ==> r in requests
  {
    if requests != [] {
      OnlyIsSubsequence(requests[1..], key, window);
      forall r | r in Only(requests[1..], key)
        ensures r.now >= requests[0].now - window
      {
        var j :| 0 <= j < |requests[1..]| && requests[1..][j] == r;
        assert requests[1 + j] == r;
      }
    }
  }

  /** Traffic on other keys, sweeps included, changes no decision about a key. */
  lemma KeysApart(capacity: int, window: int, requests: seq<Request>, key: string)
    requires NearlyOrdered(window, requests)
    ensures Pick(Decisions(capacity, window, map[], requests), requests, key)
         == Decisions(capacity, window, map[], Only(requests, key))
  {
    SweepIsInvisible(capacity, window, requests);
    OnlyIsSubsequence(requests, key, window);
    SweepIsInvisible(capacity, window, Only(requests, key));
    KeptKeysApart(capacity, window, map[], map[], requests, key);
  }

  // ---- how many requests an interval admits ----

  ghost predicate Ordered(requests: seq<Request>) {
    forall i, j :: 0 <= i < j < |requests| ==> requests[i].now <= requests[j].now
  }

  /** The admitted requests of a key whose readings lie in [lo, hi). */
  function AdmittedIn(decisions: seq<bool>, requests: seq<Request>, key: string, lo: int, hi: int): nat
    requires |decisions| == |requests|
  {
    if requests == [] then 0
    else
      (if decisions[0] && requests[0].key == key && lo <= requests[0].now < hi then 1 else 0)
      + AdmittedIn(decisions[1..], requests[1..], key, lo, hi)
  }

  function Room(capacity: int, entry: Window): nat {
    if capacity > entry.count then capacity - entry.count else 0
  }

  /** What an interval of one window can still admit. */
  function Potential(capacity: int, window: int, clients: Clients, key: string, lo: int, last: int): nat {
    if capacity <= 0 then 0
    else if last < lo then 2 * capacity - 1
    else if key !in clients then capacity
    else if clients[key].started >= lo + window then 0
    else if clients[key].started >= lo then Room(capacity, clients[key])
    else Room(capacity, clients[key]) + capacity
  }

  ghost predicate InThePast(clients: Clients, last: int) {
    forall k :: k in clients ==> clients[k].started <= last && clients[k].count >= 1
  }

  /** One request: what it admits into the interval is paid for by the potential. */
  lemma PotentialPays(capacity: int, window: int, clients: Clients, key: string, lo: int, last: int, r: Request)
    requires InThePast(clients, last) && last <= r.now && window > 0
    ensures InThePast(Recorded(window, clients, r.now, r.key), r.now)
    ensures Potential(capacity, window, Recorded(window, clients, r.now, r.key), key, lo, r.now)
            + (if Admits(capacity, window, clients, r.now, r.key) && r.key == key && lo <= r.now < lo + window then 1
               else 0)
            <= Potential(capacity, window, clients, key, lo, last)
  {
  }

  /** The same count, taken while the limiter that never deletes runs. */
  function Tally(
      capacity: int, window: int, clients: Clients, requests: seq<Request>, key: string, lo: int, hi: int): nat
    decreases |requests|
  {
    if requests == [] then 0
    else
      var Request(now, k) := requests[0];
      (if Admits(capacity, window, clients, now, k) && k == key && lo <= now < hi then 1 else 0)
      + Tally(capacity, window, Recorded(window, clients, now, k), requests[1..], key, lo, hi)
  }

  lemma {:induction false} TallyCounts(
      capacity: int, window: int, clients: Clients, requests: seq<Request>, key: string, lo: int, hi: int)
    ensures AdmittedIn(KeptDecisions(capacity, window, clients, requests), requests, key, lo, hi)
         == Tally(capacity, window, clients, requests, key, lo, hi)
    decreases |requests|
  {
    if requests != [] {
      var Request(now, k) := requests[0];
      TallyCounts(capacity, window, Recorded(window, clients, now, k), requests[1..], key, lo, hi);
    }
  }

  lemma {:induction false} KeptBound(
      capacity: int, window: int, clients: Clients, requests: seq<Request>, key: string, lo: int, last: int)
    requires window > 0 && Ordered(requests) && InThePast(clients, last)
    requires forall r :: r in requests ==> last <= r.now
    ensures Tally(capacity, window, clients, requests, key, lo, lo + window)
            <= Potential(capacity, window, clients, key, lo, last)
    decreases |requests|
  {
    if requests != [] {
      var r := requests[0];
      assert r in requests;
      PotentialPays(capacity, window, clients, key, lo, last, r);
      KeptBound(capacity, window, Recorded(window, clients, r.now, r.key), requests[1..], key, lo, r.now);
    }
  }

  lemma {:induction false} EmptyIntervalAdmitsNone(
      decisions: seq<bool>, requests: seq<Request>, key: string, lo: int, hi: int)
    requires |decisions| == |requests| && hi <= lo
    ensures AdmittedIn(decisions, requests, key, lo, hi) == 0
  {
    if requests != [] {
      EmptyIntervalAdmitsNone(decisions[1..], requests[1..], key, lo, hi);
    }
  }

  function MostPerInterval(capacity: int): nat {
    if capacity <= 0 then 0 else 2 * capacity - 1
  }

  /** With readings in order, no interval as long as the window admits more than
      2 * capacity - 1 requests of a key, whatever the other keys do. */
  lemma SlidingBound(capacity: int, window: int, requests: seq<Request>, key: string, lo: int)
    requires Ordered(requests)
    ensures AdmittedIn(Decisions(capacity, window, map[], requests), requests, key, lo, lo + window)
            <= MostPerInterval(capacity)
  {
    if window <= 0 {
      EmptyIntervalAdmitsNone(Decisions(capacity, window, map[], requests), requests, key, lo, lo + window);
    } else if requests != [] {
      SweepIsInvisible(capacity, window, requests);
      TallyCounts(capacity, window, map[], requests, key, lo, lo + window);
      var last := if requests[0].now < lo then requests[0].now else lo - 1;
      assert forall r :: r in requests ==> last <= r.now;
      KeptBound(capacity, window, map[], requests, key, lo, last);
    }
  }

  /** While a window lasts it admits at most its capacity: a run whose readings of a key
      all fall in the key's current window admits at most the room that is left. */
  lemma WindowBound(
      capacity: int, window: int, clients: Clients, requests: seq<Request>, key: string, lo: int, hi: int)
    requires key in clients && NearlyOrdered(window, requests)
    requires forall r :: r in requests && r.key == key ==> r.now - clients[key].started < window
    ensures AdmittedIn(Decisions(capacity, window, clients, requests), requests, key, lo, hi)
            <= Room(capacity, clients[key])
  {
    ForgettingIsInvisible(capacity, window, clients, clients, requests);
    TallyCounts(capacity, window, clients, requests, key, lo, hi);
    KeptWindowBound(capacity, window, clients, requests, key, lo, hi);
  }

  lemma {:induction false} KeptWindowBound(
      capacity: int, window: int, clients: Clients, requests: seq<Request>, key: string, lo: int, hi: int)
    requires key in clients
    requires forall r :: r in requests && r.key == key ==> r.now - clients[key].started < window
    ensures Tally(capacity, window, clients, requests, key, lo, hi) <= Room(capacity, clients[key])
    decreases |requests|
  {
    if requests != [] {
      var r := requests[0];
      assert r in requests;
      KeptWindowBound(capacity, window, Recorded(window, clients, r.now, r.key), requests[1..], key, lo, hi);
    }
  }

  // ---- readings out of order ----

  /** What an interval of one window can still admit when readings may be out of order by
      up to one window: a window can then open after the interval and still count
      requests with readings in it. */
  function SkewedPotential(capacity: int, window: int, clients: Clients, key: string, lo: int): nat {
    if capacity <= 0 then 0
    else if key !in clients || clients[key].started <= lo - window then 3 * capacity - 2
    else if clients[key].started < lo then Room(capacity, clients[key]) + 2 * capacity - 1
    else if clients[key].started < lo + window then Room(capacity, clients[key]) + capacity - 1
    else if clients[key].started < lo + 2 * window then Room(capacity, clients[key])
    else 0
  }

  /** Every window has counted its opening request, and no request to come is earlier than
      an open window by more than one window. */
  ghost predicate NearPast(window: int, clients: Clients, requests: seq<Request>) {
    && (forall k :: k in clients ==> clients[k].count >= 1)
    && (forall k, r :: k in clients && r in requests ==> r.now >= clients[k].started - window)
  }

  lemma SkewedPotentialPays(capacity: int, window: int, clients: Clients, key: string, lo: int, r: Request)
    requires window > 0 && (key in clients ==> clients[key].count >= 1 && r.now >= clients[key].started - window)
    ensures SkewedPotential(capacity, window, Recorded(window, clients, r.now, r.key), key, lo)
            + (if Admits(capacity, window, clients, r.now, r.key) && r.key == key && lo <= r.now < lo + window then 1
               else 0)
            <= SkewedPotential(capacity, window, clients, key, lo)
  {
  }

  lemma NearPastStep(window: int, clients: Clients, requests: seq<Request>)
    requires requests != [] && NearlyOrdered(window, requests) && NearPast(window, clients, requests)
    ensures NearPast(window, Recorded(window, clients, requests[0].now, requests[0].key), requests[1..])
  {
    var r := requests[0];
    var clients' := Recorded(window, clients, r.now, r.key);
    forall k, q | k in clients' && q in requests[1..]
      ensures q.now >= clients'[k].started - window
    {
      var j :| 0 <= j < |requests[1..]| && requests[1..][j] == q;
      assert requests[1 + j] == q;
    }
  }

  lemma {:induction false} KeptSkewedBound(
      capacity: int, window: int, clients: Clients, requests: seq<Request>, key: string, lo: int)
    requires window > 0 && NearlyOrdered(window, requests) && NearPast(window, clients, requests)
    ensures Tally(capacity, window, clients, requests, key, lo, lo + window)
            <= SkewedPotential(capacity, window, clients, key, lo)
    decreases |requests|
  {
    if requests != [] {
      var r := requests[0];
      assert r in requests;
      hide SkewedPotential, Recorded, Admits;
      SkewedPotentialPays(capacity, window, clients, key, lo, r);
      NearPastStep(window, clients, requests);
      KeptSkewedBound(capacity, window, Recorded(window, clients, r.now, r.key), requests[1..], key, lo);
    }
  }

  function MostPerSkewedInterval(capacity: int): nat {
    if capacity <= 0 then 0 else 3 * capacity - 2
  }

  /** The clock is read before the lock is taken, so readings can reach the table out of
      order. If never by more than one window, no interval as long as the window admits
      more than 3 * capacity - 2 requests of a key. */
  lemma SkewedBound(capacity: int, window: int, requests: seq<Request>, key: string, lo: int)
    requires NearlyOrdered(window, requests)
    ensures AdmittedIn(Decisions(capacity, window, map[], requests), requests, key, lo, lo + window)
            <= MostPerSkewedInterval(capacity)
  {
    if window <= 0 {
      EmptyIntervalAdmitsNone(Decisions(capacity, window, map[], requests), requests, key, lo, lo + window);
    } else {
      SweepIsInvisible(capacity, window, requests);
      TallyCounts(capacity, window, map[], requests, key, lo, lo + window);
      KeptSkewedBound(capacity, window, map[], requests, key, lo);
    }
  }

  // ---- the bound is attained ----

  function Burst(n: nat, now: int, key: string): seq<Request> {
    if n == 0 then [] else [Request(now, key)] + Burst(n - 1, now, key)
  }

  // A burst inside a window with room enough is admitted whole, and what follows it
  // sees the window that much fuller.
  lemma {:induction false} BurstAdmitted(
      capacity: int, window: int, clients: Clients, n: nat, now: int, key: string, rest: seq<Request>, lo: int, hi: int)
    requires key in clients && now - clients[key].started < window && clients[key].count + n <= capacity
    requires lo <= now < hi
    ensures Tally(capacity, window, clients, Burst(n, now, key) + rest, key, lo, hi)
         == n + Tally(capacity, window, clients[key := Window(clients[key].started, clients[key].count + n)], rest, key,
                      lo, hi)
    decreases n
  {
    var full := clients[key := Window(clients[key].started, clients[key].count + n)];
    if n == 0 {
      assert Burst(n, now, key) + rest == rest;
      assert full == clients;
    } else {
      var clients' := Recorded(window, clients, now, key);
      BurstAdmitted(capacity, window, clients', n - 1, now, key, rest, lo, hi);
      assert (Burst(n, now, key) + rest)[1..] == Burst(n - 1, now, key) + rest;
      assert clients'[key := Window(clients[key].started, clients[key].count + n)] == full;
    }
  }

  lemma {:induction false} BurstOrdered(n: nat, now: int, key: string, rest: seq<Request>)
    requires Ordered(rest) && forall r :: r in rest ==> now <= r.now
    ensures Ordered(Burst(n, now, key) + rest)
    ensures forall r :: r in Burst(n, now, key) + rest ==> now <= r.now
  {
    if n == 0 {
      assert Burst(n, now, key) + rest == rest;
    } else {
      BurstOrdered(n - 1, now, key, rest);
      assert Burst(n, now, key) + rest == [Request(now, key)] + (Burst(n - 1, now, key) + rest);
    }
  }

  /** A client that opens a window, fills it just before it closes, and fills the next one
      as it opens. */
  function Straddle(capacity: nat, window: int, key: string): seq<Request>
    requires capacity > 0
  {
    Burst(1, 0, key) + (Burst(capacity - 1, window - 1, key) + (Burst(capacity, window, key) + []))
  }

  lemma StraddleOrdered(capacity: nat, window: int, key: string)
    requires capacity > 0 && window >= 2
    ensures Ordered(Straddle(capacity, window, key))
  {
    var next := Burst(capacity, window, key) + [];
    BurstOrdered(capacity, window, key, []);
    BurstOrdered(capacity - 1, window - 1, key, next);
    BurstOrdered(1, 0, key, Burst(capacity - 1, window - 1, key) + next);
  }

  /** The bound is attained, for any capacity and any window of at least two ticks. */
  lemma StraddleAttains(capacity: nat, window: int, key: string)
    requires capacity > 0 && window >= 2
    ensures Ordered(Straddle(capacity, window, key))
    ensures AdmittedIn(Decisions(capacity, window, map[], Straddle(capacity, window, key)),
                       Straddle(capacity, window, key), key, 1, 1 + window)
         == MostPerInterval(capacity)
  {
    var requests := Straddle(capacity, window, key);
    StraddleOrdered(capacity, window, key);
    SweepIsInvisible(capacity, window, requests);
    TallyCounts(capacity, window, map[], requests, key, 1, 1 + window);
    var last := Burst(capacity, window, key) + [];
    var middle := Burst(capacity - 1, window - 1, key) + last;
    OpenWindow(capacity, window, map[], 0, key, middle, 1, 1 + window);
    BurstAdmitted(capacity, window, map[key := Window(0, 1)], capacity - 1, window - 1, key, last, 1, 1 + window);
    assert map[key := Window(0, 1)][key := Window(0, capacity)] == map[key := Window(0, capacity)];
    RefillWindow(capacity, window, map[key := Window(0, capacity)], window, key, [], 1, 1 + window);
  }

  // A request outside the interval that opens a window.
  lemma OpenWindow(
      capacity: int, window: int, clients: Clients, now: int, key: string, rest: seq<Request>, lo: int, hi: int)
    requires key in clients ==> now - clients[key].started >= window
    requires !(lo <= now < hi)
    ensures Tally(capacity, window, clients, Burst(1, now, key) + rest, key, lo, hi)
         == Tally(capacity, window, clients[key := Window(now, 1)], rest, key, lo, hi)
  {
    assert Burst(1, now, key) == [Request(now, key)];
    assert (Burst(1, now, key) + rest)[1..] == rest;
  }

  // A burst in the interval that opens a window and fills it.
  lemma RefillWindow(
      capacity: nat, window: int, clients: Clients, now: int, key: string, rest: seq<Request>, lo: int, hi: int)
    requires capacity > 0 && window > 0 && key in clients && now - clients[key].started >= window && lo <= now < hi
    ensures Tally(capacity, window, clients, Burst(capacity, now, key) + rest, key, lo, hi)
         == capacity + Tally(capacity, window, clients[key := Window(now, capacity)], rest, key, lo, hi)
  {
    var begun := clients[key := Window(now, 1)];
    assert (Burst(capacity, now, key) + rest)[1..] == Burst(capacity - 1, now, key) + rest;
    assert begun[key := Window(now, capacity)] == clients[key := Window(now, capacity)];
    BurstAdmitted(capacity, window, begun, capacity - 1, now, key, rest, lo, hi);
  }

  /** The same client with a third window: it opens after the interval, and the rest of its
      requests carry readings from before it started. */
  function SkewedStraddle(capacity: nat, window: int, key: string): seq<Request>
    requires capacity > 0
  {
    Burst(1, 0, key) + (Burst(capacity - 1, window - 1, key) + (Burst(capacity, window, key)
      + (Burst(1, 2 * window, key) + (Burst(capacity - 1, window, key) + []))))
  }

  lemma {:induction false} BurstNear(n: nat, now: int, key: string, rest: seq<Request>, window: int, least: int)
    requires now - window <= least <= now && NearlyOrdered(window, rest) && NoneBefore(rest, least)
    ensures NearlyOrdered(window, Burst(n, now, key) + rest) && NoneBefore(Burst(n, now, key) + rest, least)
  {
    if n == 0 {
      assert Burst(n, now, key) + rest == rest;
    } else {
      BurstNear(n - 1, now, key, rest, window, least);
      assert Burst(n, now, key) + rest == [Request(now, key)] + (Burst(n - 1, now, key) + rest);
    }
  }

  ghost predicate NoneBefore(requests: seq<Request>, least: int) {
    forall r :: r in requests ==> least <= r.now
  }

  lemma NoneBeforeEarlier(requests: seq<Request>, least: int, earlier: int)
    requires NoneBefore(requests, least) && earlier <= least
    ensures NoneBefore(requests, earlier)
  {
  }

  lemma SkewedStraddleNear(capacity: nat, window: int, key: string)
    requires capacity > 0 && window >= 2
    ensures NearlyOrdered(window, SkewedStraddle(capacity, window, key))
  {
    var late := Burst(capacity - 1, window, key) + [];
    var third := Burst(1, 2 * window, key) + late;
    var second := Burst(capacity, window, key) + third;
    var first := Burst(capacity - 1, window - 1, key) + second;
    assert NoneBefore([], window) && NearlyOrdered(window, []);
    hide Burst, NearlyOrdered, NoneBefore;
    BurstNear(capacity - 1, window, key, [], window, window);
    BurstNear(1, 2 * window, key, late, window, window);
    BurstNear(capacity, window, key, third, window, window);
    NoneBeforeEarlier(second, window, window - 1);
    BurstNear(capacity - 1, window - 1, key, second, window, window - 1);
    NoneBeforeEarlier(first, window - 1, 0);
    BurstNear(1, 0, key, first, window, 0);
  }

  /** That bound is attained too. */
  lemma SkewedStraddleAttains(capacity: nat, window: int, key: string)
    requires capacity > 0 && window >= 2
    ensures NearlyOrdered(window, SkewedStraddle(capacity, window, key))
    ensures AdmittedIn(Decisions(capacity, window, map[], SkewedStraddle(capacity, window, key)),
                       SkewedStraddle(capacity, window, key), key, 1, 1 + window)
         == MostPerSkewedInterval(capacity)
  {
    hide Tally, Burst, NearlyOrdered;
    var requests, hi := SkewedStraddle(capacity, window, key), 1 + window;
    SkewedStraddleNear(capacity, window, key);
    SweepIsInvisible(capacity, window, requests);
    TallyCounts(capacity, window, map[], requests, key, 1, hi);
    var late := Burst(capacity - 1, window, key) + [];
    var third := Burst(1, 2 * window, key) + late;
    var second := Burst(capacity, window, key) + third;
    var first := Burst(capacity - 1, window - 1, key) + second;
    OpenWindow(capacity, window, map[], 0, key, first, 1, hi);
    BurstAdmitted(capacity, window, map[key := Window(0, 1)], capacity - 1, window - 1, key, second, 1, hi);
    assert map[key := Window(0, 1)][key := Window(0, capacity)] == map[key := Window(0, capacity)];
    RefillWindow(capacity, window, map[key := Window(0, capacity)], window, key, third, 1, hi);
    assert map[key := Window(0, capacity)][key := Window(window, capacity)] == map[key := Window(window, capacity)];
    OpenWindow(capacity, window, map[key := Window(window, capacity)], 2 * window, key, late, 1, hi);
    assert map[key := Window(window, capacity)][key := Window(2 * window, 1)] == map[key := Window(2 * window, 1)];
    BurstAdmitted(capacity, window, map[key := Window(2 * window, 1)], capacity - 1, window, key, [], 1, hi);
    NothingMore(capacity, window, key, 1, hi);
  }

  lemma NothingMore(capacity: nat, window: int, key: string, lo: int, hi: int)
    ensures forall clients :: Tally(capacity, window, clients, [], key, lo, hi) == 0
  {
  }
}
