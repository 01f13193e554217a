// The sliding-window rate limiter (apps/api/app/core/rate_limit.py).
module RateLimiter {

  type Hits = map<string, seq<real>>

  function HitsOf(hits: Hits, key: string): seq<real> {
    if key in hits then hits[key] else []
  }

  // Drop from the left while the oldest hit is not newer than the start of the window.
  function Expire(hits: seq<real>, windowStart: real): seq<real> {
    if hits != [] && hits[0] <= windowStart then Expire(hits[1..], windowStart) else hits
  }

  // ---------------------------------------------------------------- one call

  datatype Event = Check(key: string, limit: int, window: int, now: real) | Reset

  function WindowStart(e: Event): real
    requires e.Check?
  {
    e.now - e.window as real
  }

  function Allowed(hits: Hits, e: Event): bool
    requires e.Check?
  {
    |Expire(HitsOf(hits, e.key), WindowStart(e))| < e.limit
  }

  function Step(hits: Hits, e: Event): Hits {
    match e
    case Reset => map[]
    case Check(key, limit, window, now) =>
      var kept := Expire(HitsOf(hits, key), WindowStart(e));
      hits[key := if Allowed(hits, e) then kept + [now] else kept]
  }

  class InMemoryRateLimiter {
    var hits: Hits

    constructor ()
      ensures hits == map[]
    {
      hits := map[];
    }

    // True when the call is let through, False where the source raises 429.
    method Check(key: string, limit: int, window: int, now: real) returns (allowed: bool)
      modifies this
      ensures allowed == Allowed(old(hits), Event.Check(key, limit, window, now))
      ensures hits == Step(old(hits), Event.Check(key, limit, window, now))
    {
      ghost var e := Event.Check(key, limit, window, now);
      var windowStart := now - window as real;
      if key !in hits { hits := hits[key := []]; }
      ghost var kept := Expire(HitsOf(old(hits), key), windowStart);
      while hits[key] != [] && hits[key][0] <= windowStart
        invariant key in hits && Expire(hits[key], windowStart) == kept
        invariant forall k :: k != key ==> (k in hits <==> k in old(hits)) && (k in hits ==> hits[k] == old(hits)[k])
        decreases |hits[key]|
      {
        hits := hits[key := hits[key][1..]];
      }
      if |hits[key]| >= limit {
        return false;
      }
      hits := hits[key := hits[key] + [now]];
      return true;
    }

    method Reset()
      modifies this
      ensures hits == map[] == Step(old(hits), Event.Reset)
    {
      hits := map[];
    }
  }

  // ---------------------------------------------------------------- whole runs

  function Run(events: seq<Event>): Hits {
    if events == [] then map[] else Step(Run(events[..|events| - 1]), events[|events| - 1])
  }

  function CountAfter(times: seq<real>, start: real): nat {
    if times == [] then 0 else CountAfter(times[..|times| - 1], start) + if times[|times| - 1] > start then 1 else 0
  }

  // The reference: remember every accepted hit of the key, and let a call through when fewer than `limit` of them lie
  // in its window.
  function History(events: seq<Event>, key: string): seq<real> {
    if events == [] then []
    else
      var before := History(events[..|events| - 1], key);
      var e := events[|events| - 1];
      if e.Reset? then []
      else if e.key == key && CountAfter(before, WindowStart(e)) < e.limit then before + [e.now]
      else before
  }

  // The clock does not go back.
  ghost predicate InClockOrder(events: seq<Event>) {
    forall i, j :: 0 <= i < j < |events| && events[i].Check? && events[j].Check? ==> events[i].now <= events[j].now
  }

  // Calls come in clock order, and each key is always checked with one window.
  ghost predicate Steady(events: seq<Event>, window: string -> int) {
    && (forall i :: 0 <= i < |events| && events[i].Check? ==> events[i].window == window(events[i].key))
    && InClockOrder(events)
  }

  ghost predicate Ordered(times: seq<real>, last: real) {
    && (forall i :: 0 <= i < |times| ==> times[i] <= last)
    && (forall i, j :: 0 <= i < j < |times| ==> times[i] <= times[j])
  }

  lemma {:induction false} HistoryOrdered(events: seq<Event>, key: string, window: string -> int, last: real)
    requires Steady(events, window)
    requires forall i :: 0 <= i < |events| && events[i].Check? ==> events[i].now <= last
    ensures Ordered(History(events, key), last)
  {
    if events != [] {
      var n := |events| - 1;
      HistoryOrdered(events[..n], key, window, if events[n].Check? then events[n].now else last);
    }
  }

  lemma {:induction false} ExpireTwice(hits: seq<real>, s: real, t: real)
    requires s <= t
    ensures Expire(Expire(hits, s), t) == Expire(hits, t)
  {
    if hits != [] && hits[0] <= s { ExpireTwice(hits[1..], s, t); }
  }

  lemma {:induction false} ExpireAppend(hits: seq<real>, now: real, t: real)
    requires forall i :: 0 <= i < |hits| ==> hits[i] <= now
    ensures Expire(hits + [now], t) == if now > t then Expire(hits, t) + [now] else []
  {
    if hits != [] && hits[0] <= t {
      ExpireAppend(hits[1..], now, t);
      assert (hits + [now])[1..] == hits[1..] + [now];
    }
  }

  lemma {:induction false} ExpireMembers(hits: seq<real>, s: real)
    ensures |Expire(hits, s)| <= |hits| && Expire(hits, s) == hits[|hits| - |Expire(hits, s)|..]
  {
    if hits != [] && hits[0] <= s { ExpireMembers(hits[1..], s); }
  }

  lemma {:induction false} CountAll(times: seq<real>, s: real)
    requires forall i :: 0 <= i < |times| ==> times[i] > s
    ensures CountAfter(times, s) == |times|
  {
    if times != [] { CountAll(times[..|times| - 1], s); }
  }

  lemma {:induction false} CountFront(times: seq<real>, s: real)
    requires times != []
    ensures CountAfter(times, s) == CountAfter(times[1..], s) + if times[0] > s then 1 else 0
  {
    var n := |times| - 1;
    if n > 0 {
      CountFront(times[..n], s);
      assert times[..n][1..] == times[1..][..n - 1];
    }
  }

  // Of an ordered history, expiry keeps exactly the hits inside the window.
  lemma {:induction false} ExpireCounts(times: seq<real>, s: real, last: real)
    requires Ordered(times, last)
    ensures |Expire(times, s)| == CountAfter(times, s)
  {
    if times != [] {
      if times[0] <= s {
        CountFront(times, s);
        ExpireCounts(times[1..], s, last);
      } else {
        CountAll(times, s);
      }
    }
  }

  lemma {:induction false} DequeOrdered(events: seq<Event>, key: string, last: real)
    requires InClockOrder(events)
    requires forall i :: 0 <= i < |events| && events[i].Check? ==> events[i].now <= last
    ensures Ordered(HitsOf(Run(events), key), last)
  {
    if events != [] {
      var n := |events| - 1;
      var e := events[n];
      DequeOrdered(events[..n], key, if e.Check? then e.now else last);
      if e.Check? { ExpireMembers(HitsOf(Run(events[..n]), key), WindowStart(e)); }
    }
  }

  // Deque and history expire alike from the given window start on.
  ghost predicate AgreeFrom(hits: seq<real>, history: seq<real>, start: real) {
    forall t :: t >= start ==> Expire(hits, t) == Expire(history, t)
  }

  lemma {:induction false} NewHitAgrees(hits: seq<real>, past: seq<real>, now: real, s: real, start: real)
    requires AgreeFrom(hits, past, s) && s <= start && Ordered(hits, now) && Ordered(past, now)
    ensures AgreeFrom(Expire(hits, s) + [now], past + [now], start)
    ensures AgreeFrom(Expire(hits, s), past, start)
  {
    ExpireMembers(hits, s);
    forall t | t >= start
      ensures Expire(Expire(hits, s) + [now], t) == Expire(past + [now], t) && Expire(Expire(hits, s), t) == Expire(past, t)
    {
      ExpireAppend(Expire(hits, s), now, t);
      ExpireAppend(past, now, t);
      ExpireTwice(hits, s, t);
    }
  }

  // No call still to come can tell the deque from the full history.
  lemma {:induction false} DequeAgrees(events: seq<Event>, key: string, window: string -> int, next: real)
    requires Steady(events, window)
    requires forall i :: 0 <= i < |events| && events[i].Check? ==> events[i].now <= next
    ensures AgreeFrom(HitsOf(Run(events), key), History(events, key), next - window(key) as real)
  {
    if events != [] {
      var n := |events| - 1;
      var e, before, past := events[n], HitsOf(Run(events[..n]), key), History(events[..n], key);
      if e.Check? && e.key == key {
        DequeAgrees(events[..n], key, window, e.now);
        DequeOrdered(events[..n], key, e.now);
        HistoryOrdered(events[..n], key, window, e.now);
        NewHitAgrees(before, past, e.now, WindowStart(e), next - window(key) as real);
        ExpireCounts(past, WindowStart(e), e.now);
      } else if e.Check? {
        DequeAgrees(events[..n], key, window, next);
      }
    }
  }

  // Every decision equals the naive count over the full accepted history of the key.
  lemma {:induction false} DecisionIsNaiveCount(events: seq<Event>, e: Event, window: string -> int)
    requires e.Check? && Steady(events + [e], window)
    ensures Allowed(Run(events), e) <==> CountAfter(History(events, e.key), WindowStart(e)) < e.limit
  {
    var all := events + [e];
    assert forall i :: 0 <= i < |events| ==> all[i] == events[i];
    assert all[|events|] == e;
    DequeAgrees(events, e.key, window, e.now);
    HistoryOrdered(events, e.key, window, e.now);
    ExpireCounts(History(events, e.key), WindowStart(e), e.now);
  }

  // ---------------------------------------------------------------- any windows on one key

  // The hits of the key that the limiter itself let through since the last reset.
  function Accepted(events: seq<Event>, key: string): seq<real> {
    if events == [] then []
    else
      var before, e := events[..|events| - 1], events[|events| - 1];
      if e.Reset? then []
      else if e.key == key && Allowed(Run(before), e) then Accepted(before, key) + [e.now]
      else Accepted(before, key)
  }

  // A hit at time h was let through, and a later check of the key, let through or not, had a window that starts at or
  // after h.
  ghost predicate Outlived(events: seq<Event>, key: string, h: real) {
    && events != []
    && var before, e := events[..|events| - 1], events[|events| - 1];
       && e.Check?
       && (Outlived(before, key, h) || (e.key == key && h in Accepted(before, key) && h <= WindowStart(e)))
  }

  ghost predicate NoneOutlived(events: seq<Event>, key: string, s: real) {
    forall h :: Outlived(events, key, h) ==> h <= s
  }

  // The first k accepted hits are the outlived ones and the deque holds the others.
  ghost predicate DequeFrom(events: seq<Event>, key: string, k: nat) {
    && k <= |Accepted(events, key)|
    && HitsOf(Run(events), key) == Accepted(events, key)[k..]
    && (forall i :: 0 <= i < k ==> Outlived(events, key, Accepted(events, key)[i]))
    && (forall h :: Outlived(events, key, h) ==> k > 0 && h <= Accepted(events, key)[k - 1])
  }

  lemma {:induction false} AcceptedOrdered(events: seq<Event>, key: string, last: real)
    requires InClockOrder(events)
    requires forall i :: 0 <= i < |events| && events[i].Check? ==> events[i].now <= last
    ensures Ordered(Accepted(events, key), last)
  {
    if events != [] {
      var n := |events| - 1;
      AcceptedOrdered(events[..n], key, if events[n].Check? then events[n].now else last);
    }
  }

  lemma {:induction false} ExpireBoundary(hits: seq<real>, s: real)
    ensures var m := |hits| - |Expire(hits, s)|;
            m >= 0 && Expire(hits, s) == hits[m..] && (forall i :: 0 <= i < m ==> hits[i] <= s) && (m < |hits| ==> hits[m] > s)
  {
    if hits != [] && hits[0] <= s { ExpireBoundary(hits[1..], s); }
  }

  lemma {:induction false} DequeIsTail(events: seq<Event>, key: string, last: real) returns (k: nat)
    requires InClockOrder(events)
    requires forall i :: 0 <= i < |events| && events[i].Check? ==> events[i].now <= last
    ensures DequeFrom(events, key, k)
  {
    k := 0;
    if events != [] {
      var n := |events| - 1;
      var e := events[n];
      k := DequeIsTail(events[..n], key, if e.Check? then e.now else last);
      if e.Reset? {
        k := 0;
      } else if e.key == key {
        AcceptedOrdered(events[..n], key, e.now);
        ExpireBoundary(HitsOf(Run(events[..n]), key), WindowStart(e));
        k := CheckMovesTail(events, key, k);
      }
    }
  }

  // The accepted hits before the last event, and how many of them the last event leaves outlived.
  function Earlier(events: seq<Event>, key: string): seq<real>
    requires events != []
  {
    Accepted(events[..|events| - 1], key)
  }

  function Moved(past: seq<real>, k: nat, start: real): int
    requires k <= |past|
  {
    |past| - |Expire(past[k..], start)|
  }

  lemma {:induction false} CheckedDeque(events: seq<Event>, key: string, k: nat)
    requires events != [] && events[|events| - 1].Check? && events[|events| - 1].key == key
    requires DequeFrom(events[..|events| - 1], key, k)
    ensures var k' := Moved(Earlier(events, key), k, WindowStart(events[|events| - 1]));
            0 <= k' <= |Accepted(events, key)| && HitsOf(Run(events), key) == Accepted(events, key)[k'..]
  {
    var before, e := events[..|events| - 1], events[|events| - 1];
    var past := Accepted(before, key);
    var kept, k' := Expire(past[k..], WindowStart(e)), Moved(past, k, WindowStart(e));
    ExpireBoundary(past[k..], WindowStart(e));
    assert kept == past[k..][k' - k..] == past[k'..];
    assert (past + [e.now])[k'..] == kept + [e.now];
    assert Accepted(events, key) == if Allowed(Run(before), e) then past + [e.now] else past;
    assert HitsOf(Run(events), key) == if Allowed(Run(before), e) then kept + [e.now] else kept;
  }

  lemma {:induction false} EarlierPrefix(events: seq<Event>, key: string)
    requires events != [] && events[|events| - 1].Check?
    ensures Earlier(events, key) <= Accepted(events, key)
  {
  }

  lemma {:induction false} CheckMovesTail(events: seq<Event>, key: string, k: nat) returns (k': nat)
    requires events != [] && events[|events| - 1].Check? && events[|events| - 1].key == key
    requires DequeFrom(events[..|events| - 1], key, k)
    requires Ordered(Earlier(events, key), events[|events| - 1].now)
    ensures DequeFrom(events, key, k')
  {
    var past, start := Earlier(events, key), WindowStart(events[|events| - 1]);
    CheckedDeque(events, key, k);
    EarlierPrefix(events, key);
    k' := Moved(past, k, start);
    forall i | 0 <= i < k' ensures Outlived(events, key, Accepted(events, key)[i]) {
      MovedAreOutlived(events, key, k, i);
    }
    forall h | Outlived(events, key, h) ensures k' > 0 && h <= Accepted(events, key)[k' - 1] {
      OutlivedAreMoved(events, key, k, h);
    }
  }

  lemma {:induction false} MovedAreOutlived(events: seq<Event>, key: string, k: nat, i: nat)
    requires events != [] && events[|events| - 1].Check? && events[|events| - 1].key == key
    requires DequeFrom(events[..|events| - 1], key, k)
    requires i < Moved(Earlier(events, key), k, WindowStart(events[|events| - 1]))
    ensures i < |Earlier(events, key)| && Outlived(events, key, Earlier(events, key)[i])
  {
    var past := Earlier(events, key);
    ExpireBoundary(past[k..], WindowStart(events[|events| - 1]));
    if i >= k { assert past[i] == past[k..][i - k]; }
  }

  lemma {:induction false} OutlivedAreMoved(events: seq<Event>, key: string, k: nat, h: real)
    requires events != [] && events[|events| - 1].Check? && events[|events| - 1].key == key
    requires DequeFrom(events[..|events| - 1], key, k)
    requires Ordered(Earlier(events, key), events[|events| - 1].now) && Outlived(events, key, h)
    ensures var past := Earlier(events, key);
            var k' := Moved(past, k, WindowStart(events[|events| - 1]));
            0 < k' <= |past| && h <= past[k' - 1]
  {
    var past, e := Earlier(events, key), events[|events| - 1];
    assert (k > 0 && h <= past[k - 1]) || (h in past && h <= WindowStart(e));
    NotAfterStart(past, k, WindowStart(e), e.now, h);
  }

  // A hit not after `start` is among those that expiry takes off the front or that were gone before.
  lemma {:induction false} NotAfterStart(past: seq<real>, k: nat, start: real, last: real, h: real)
    requires Ordered(past, last) && k <= |past|
    requires (k > 0 && h <= past[k - 1]) || (h in past && h <= start)
    ensures 0 < Moved(past, k, start) <= |past| && h <= past[Moved(past, k, start) - 1]
  {
    ExpireBoundary(past[k..], start);
    var k' := Moved(past, k, start);
    if k' < |past| { assert past[k'] == past[k..][k' - k] > start; }
    assert forall i :: k' <= i < |past| ==> past[k'] <= past[i];
    if k > 0 && h <= past[k - 1] {
      assert past[k - 1] <= past[k' - 1];
    } else {
      var j :| 0 <= j < |past| && past[j] == h;
      assert past[j] <= past[k' - 1];
    }
  }

  lemma {:induction false} CountSplit(times: seq<real>, k: nat, s: real)
    requires k <= |times|
    ensures CountAfter(times, s) == CountAfter(times[..k], s) + CountAfter(times[k..], s)
    decreases |times|
  {
    var n := |times| - 1;
    if k == |times| {
      assert times[..k] == times;
    } else {
      CountSplit(times[..n], k, s);
      assert times[..n][..k] == times[..k] && times[..n][k..] == times[k..][..n - k];
    }
  }

  lemma {:induction false} CountNone(times: seq<real>, s: real)
    ensures CountAfter(times, s) == 0 <==> forall i :: 0 <= i < |times| ==> times[i] <= s
  {
    if times != [] { CountNone(times[..|times| - 1], s); }
  }

  lemma {:induction false} TailCounts(times: seq<real>, k: nat, s: real, last: real)
    requires Ordered(times, last) && k <= |times|
    ensures |Expire(times[k..], s)| <= CountAfter(times, s)
    ensures |Expire(times[k..], s)| == CountAfter(times, s) <==> k == 0 || times[k - 1] <= s
  {
    ExpireCounts(times[k..], s, last);
    CountSplit(times, k, s);
    CountNone(times[..k], s);
    if k > 0 {
      assert times[..k][k - 1] == times[k - 1];
      assert forall i :: 0 <= i < k ==> times[..k][i] <= times[k - 1];
    }
  }

  // For a clock that does not go back, and whatever limits and windows the key is checked with: the deque counts as many
  // hits after s as the limiter ever let through after s, if and only if none of those was outlived.
  lemma {:induction false} CountsExactlyUnlessOutlived(events: seq<Event>, key: string, s: real)
    requires InClockOrder(events)
    ensures |Expire(HitsOf(Run(events), key), s)| == CountAfter(Accepted(events, key), s)
            <==> NoneOutlived(events, key, s)
    ensures |Expire(HitsOf(Run(events), key), s)| <= CountAfter(Accepted(events, key), s)
  {
    var last := LatestTime(events);
    AcceptedOrdered(events, key, last);
    var all := Accepted(events, key);
    var k := DequeIsTail(events, key, last);
    TailCounts(all, k, s, last);
    if k > 0 { assert Outlived(events, key, all[k - 1]); }
  }

  lemma {:induction false} LatestTime(events: seq<Event>) returns (last: real)
    ensures forall i :: 0 <= i < |events| && events[i].Check? ==> events[i].now <= last
  {
    last := 0.0;
    if events != [] {
      var n := |events| - 1;
      last := LatestTime(events[..n]);
      if events[n].Check? && events[n].now > last { last := events[n].now; }
      assert forall i :: 0 <= i < n ==> events[i] == events[..n][i];
    }
  }

  // The start of some check of the key since the last reset.
  ghost predicate StartSince(events: seq<Event>, key: string, start: real) {
    && events != []
    && var e := events[|events| - 1];
       && e.Check?
       && ((e.key == key && start == WindowStart(e)) || StartSince(events[..|events| - 1], key, start))
  }

  ghost predicate Reached(events: seq<Event>, key: string, h: real) {
    exists m :: StartSince(events, key, m) && h <= m
  }

  lemma {:induction false} OutlivedIsReached(events: seq<Event>, key: string, h: real)
    requires Outlived(events, key, h)
    ensures h in Accepted(events, key) && Reached(events, key, h)
  {
    var before, e := events[..|events| - 1], events[|events| - 1];
    if Outlived(before, key, h) {
      OutlivedIsReached(before, key, h);
      var m :| StartSince(before, key, m) && h <= m;
      assert StartSince(events, key, m);
    } else {
      assert StartSince(events, key, WindowStart(e));
    }
  }

  // With windows of at least one second the outlived hits are the accepted ones that some window start has reached.
  lemma {:induction false} ReachedIsOutlived(events: seq<Event>, key: string, h: real)
    requires InClockOrder(events) && forall i :: 0 <= i < |events| && events[i].Check? ==> events[i].window >= 1
    requires h in Accepted(events, key) && Reached(events, key, h)
    ensures Outlived(events, key, h)
  {
    var before, e := events[..|events| - 1], events[|events| - 1];
    var m :| StartSince(events, key, m) && h <= m;
    StartsArePast(events, key, m);
    assert h in Accepted(before, key);
    if !(e.key == key && h <= WindowStart(e)) {
      assert StartSince(before, key, m);
      ReachedIsOutlived(before, key, h);
    }
  }

  lemma {:induction false} StartsArePast(events: seq<Event>, key: string, m: real)
    requires StartSince(events, key, m) && InClockOrder(events)
    requires forall i :: 0 <= i < |events| && events[i].Check? ==> events[i].window >= 1
    ensures events[|events| - 1].Check? && m < events[|events| - 1].now
  {
    var n := |events| - 1;
    var e := events[n];
    if !(e.key == key && m == WindowStart(e)) {
      StartsArePast(events[..n], key, m);
      assert events[n - 1].now <= e.now;
    }
  }

  lemma {:induction false} DecidedByCount(hits: Hits, e: Event, kept: int, all: int)
    requires e.Check? && kept <= all && forall limit :: Allowed(hits, e.(limit := limit)) <==> kept < limit
    ensures kept == all <==> forall limit :: Allowed(hits, e.(limit := limit)) <==> all < limit
  {
    assert Allowed(hits, e.(limit := all)) <==> kept < all;
  }

  // What a caller can test: with m the largest window start that the key has been checked with since the last reset, every
  // limit is decided by the naive count if and only if the limiter let no hit through in (s, m].
  lemma {:induction false} DecisionExactly(events: seq<Event>, e: Event, m: real)
    requires e.Check? && InClockOrder(events)
    requires forall i :: 0 <= i < |events| && events[i].Check? ==> events[i].window >= 1
    requires StartSince(events, e.key, m) && forall t :: StartSince(events, e.key, t) ==> t <= m
    ensures (forall limit :: Allowed(Run(events), e.(limit := limit))
                             <==> CountAfter(Accepted(events, e.key), e.now - e.window as real) < limit)
            <==> forall h :: h in Accepted(events, e.key) ==> !(e.now - e.window as real < h <= m)
  {
    var s, key := WindowStart(e), e.key;
    CountsExactlyUnlessOutlived(events, key, s);
    forall h ensures Outlived(events, key, h) <==> h in Accepted(events, key) && h <= m {
      if Outlived(events, key, h) { OutlivedIsReached(events, key, h); }
      if h in Accepted(events, key) && h <= m { ReachedIsOutlived(events, key, h); }
    }
    var kept, all := |Expire(HitsOf(Run(events), key), s)|, CountAfter(Accepted(events, key), s);
    forall limit ensures Allowed(Run(events), e.(limit := limit)) <==> kept < limit {
      assert WindowStart(e.(limit := limit)) == s;
    }
    DecidedByCount(Run(events), e, kept, all);
  }

  // Whatever the windows: a check whose window starts no earlier than every check before it is decided by the naive count.
  lemma {:induction false} LateStartCounts(events: seq<Event>, e: Event)
    requires e.Check? && InClockOrder(events)
    requires forall t :: StartSince(events, e.key, t) ==> t <= WindowStart(e)
    ensures Allowed(Run(events), e) <==> CountAfter(Accepted(events, e.key), e.now - e.window as real) < e.limit
  {
    CountsExactlyUnlessOutlived(events, e.key, WindowStart(e));
    forall h | Outlived(events, e.key, h) ensures h <= WindowStart(e) {
      OutlivedIsReached(events, e.key, h);
    }
  }

  // ---------------------------------------------------------------- spacing

  lemma {:induction false} CountSuffix(times: seq<real>, k: nat, s: real, last: real)
    requires Ordered(times, last) && k < |times| && times[k] > s
    ensures CountAfter(times, s) >= |times| - k
    decreases |times|
  {
    var n := |times| - 1;
    if k < n { CountSuffix(times[..n], k, s, last); }
  }

  lemma {:induction false} HistoryIsSpaced(events: seq<Event>, key: string, window: string -> int, limit: nat, i: nat)
    requires Steady(events, window) && limit >= 1
    requires forall j :: 0 <= j < |events| && events[j].Check? && events[j].key == key ==> events[j].limit == limit
    requires i + limit < |History(events, key)|
    ensures History(events, key)[i + limit] - History(events, key)[i] >= window(key) as real
  {
    var n := |events| - 1;
    var e, past := events[n], History(events[..n], key);
    if i + limit < |past| {
      HistoryIsSpaced(events[..n], key, window, limit, i);
    } else {
      HistoryOrdered(events[..n], key, window, e.now);
      if past[i] > WindowStart(e) { CountSuffix(past, i, WindowStart(e), e.now); }
    }
  }

  // With one window for each key the limiter lets the same hits through as the reference.
  lemma {:induction false} AcceptedIsHistory(events: seq<Event>, key: string, window: string -> int)
    requires Steady(events, window)
    ensures Accepted(events, key) == History(events, key)
  {
    if events != [] {
      var n := |events| - 1;
      AcceptedIsHistory(events[..n], key, window);
      if events[n].Check? {
        assert events == events[..n] + [events[n]];
        DecisionIsNaiveCount(events[..n], events[n], window);
      }
    }
  }

  // ... so each call is let through exactly when fewer than `limit` of the hits let through before lie in the last window.
  lemma {:induction false} SteadyDecision(events: seq<Event>, e: Event, window: string -> int)
    requires e.Check? && Steady(events + [e], window)
    ensures Allowed(Run(events), e) <==> CountAfter(Accepted(events, e.key), e.now - e.window as real) < e.limit
  {
    DecisionIsNaiveCount(events, e, window);
    assert Steady(events, window) by {
      var all := events + [e];
      assert forall i :: 0 <= i < |events| ==> all[i] == events[i];
    }
    AcceptedIsHistory(events, e.key, window);
  }

  // With a fixed limit for the key, any two hits let through `limit` places apart are at least a window apart.
  lemma {:induction false} HitsAreSpaced(events: seq<Event>, key: string, window: string -> int, limit: nat, i: nat)
    requires Steady(events, window) && limit >= 1
    requires forall j :: 0 <= j < |events| && events[j].Check? && events[j].key == key ==> events[j].limit == limit
    requires i + limit < |Accepted(events, key)|
    ensures Accepted(events, key)[i + limit] - Accepted(events, key)[i] >= window(key) as real
  {
    AcceptedIsHistory(events, key, window);
    HistoryIsSpaced(events, key, window, limit, i);
  }

  // ---------------------------------------------------------------- keys

  // The part of a run that concerns one key.
  function OnlyKey(events: seq<Event>, key: string): seq<Event> {
    if events == [] then []
    else
      var e := events[|events| - 1];
      OnlyKey(events[..|events| - 1], key) + if e.Reset? || e.key == key then [e] else []
  }

  lemma {:induction false} StepOtherKey(hits: Hits, e: Event, key: string)
    requires e.Check? && e.key != key
    ensures HitsOf(Step(hits, e), key) == HitsOf(hits, key)
  {
  }

  lemma {:induction false} StepSameKey(left: Hits, right: Hits, e: Event, key: string)
    requires HitsOf(left, key) == HitsOf(right, key) && (e.Reset? || e.key == key)
    ensures HitsOf(Step(left, e), key) == HitsOf(Step(right, e), key)
  {
  }

  // Calls for other keys change nothing for this one, whatever their limits, windows and times.
  lemma {:induction false} KeysAreIndependent(events: seq<Event>, key: string)
    ensures HitsOf(Run(events), key) == HitsOf(Run(OnlyKey(events, key)), key)
    ensures History(events, key) == History(OnlyKey(events, key), key)
  {
    if events != [] {
      var n := |events| - 1;
      KeysAreIndependent(events[..n], key);
      var e, rest := events[n], OnlyKey(events[..n], key);
      if e.Reset? || e.key == key {
        assert OnlyKey(events, key) == rest + [e];
        assert (rest + [e])[..|rest|] == rest && (rest + [e])[|rest|] == e;
        StepSameKey(Run(events[..n]), Run(rest), e, key);
      } else {
        assert OnlyKey(events, key) == rest;
        StepOtherKey(Run(events[..n]), e, key);
      }
    }
  }

  lemma {:induction false} HistoryAppend(events: seq<Event>, e: Event, key: string)
    ensures History(events + [e], key) == if e.Reset? then []
      else if e.key == key && CountAfter(History(events, key), WindowStart(e)) < e.limit then History(events, key) + [e.now]
      else History(events, key)
  {
    assert (events + [e])[..|events|] == events;
  }

  lemma {:induction false} SameHistoryOn(left: seq<Event>, right: seq<Event>, after: seq<Event>, key: string)
    requires History(left, key) == History(right, key)
    ensures History(left + after, key) == History(right + after, key)
  {
    if after == [] {
      assert left + after == left && right + after == right;
    } else {
      var n := |after| - 1;
      SameHistoryOn(left, right, after[..n], key);
      assert left + after == (left + after[..n]) + [after[n]] && right + after == (right + after[..n]) + [after[n]];
      HistoryAppend(left + after[..n], after[n], key);
      HistoryAppend(right + after[..n], after[n], key);
    }
  }

  // A rejected call is never counted: without it every later call is decided in the same way.
  lemma {:induction false} RejectedIsNeverCounted(before: seq<Event>, e: Event, after: seq<Event>, f: Event, window: string -> int)
    requires e.Check? && f.Check? && Steady(before + [e] + after + [f], window)
    requires !Allowed(Run(before), e)
    ensures Allowed(Run(before + [e] + after), f) <==> Allowed(Run(before + after), f)
  {
    SteadyParts(before, e, after, f, window);
    DecisionIsNaiveCount(before, e, window);
    HistoryAppend(before, e, f.key);
    SameHistoryOn(before + [e], before, after, f.key);
    DecisionIsNaiveCount(before + [e] + after, f, window);
    DecisionIsNaiveCount(before + after, f, window);
  }

  lemma {:induction false} SteadyParts(before: seq<Event>, e: Event, after: seq<Event>, f: Event, window: string -> int)
    requires Steady(before + [e] + after + [f], window)
    ensures Steady(before + [e], window) && Steady(before + after + [f], window)
  {
    var all, n := before + [e] + after + [f], |before|;
    assert forall i :: 0 <= i <= n ==> (before + [e])[i] == all[i];
    var rest := before + after + [f];
    assert forall i :: 0 <= i < |rest| ==> rest[i] == all[if i < n then i else i + 1];
  }

  // One window per key is needed: after a call with a shorter window the deque has forgotten hits that a longer one counts.
  lemma {:induction false} ShorterWindowForgets()
    ensures var events := [Check("k", 1, 10, 0.0), Check("k", 1, 2, 5.0)];
            var e := Check("k", 2, 10, 6.0);
            Allowed(Run(events), e) && CountAfter(History(events, "k"), WindowStart(e)) == 2 == e.limit
  {
    var first, second := Check("k", 1, 10, 0.0), Check("k", 1, 2, 5.0);
    ExpireSingle(0.0, WindowStart(second));
    CountSingle(0.0, WindowStart(second));
    CountSingle(0.0, -4.0);
    RunAppend([], first);
    RunAppend([first], second);
    HistoryAppend([], first, "k");
    HistoryAppend([first], second, "k");
    assert [] + [first] == [first] && [first] + [second] == [first, second];
    assert History([first], "k") == [0.0] && HitsOf(Run([first]), "k") == [0.0];
    assert HitsOf(Run([first, second]), "k") == [5.0];
    assert History([first, second], "k") == [0.0, 5.0];
    assert [0.0, 5.0][..1] == [0.0];
  }

  lemma {:induction false} RunAppend(events: seq<Event>, e: Event)
    ensures Run(events + [e]) == Step(Run(events), e)
  {
    assert (events + [e])[..|events|] == events;
  }

  lemma {:induction false} ExpireSingle(hit: real, start: real)
    ensures Expire([hit], start) == if hit <= start then [] else [hit]
  {
    assert [hit][1..] == [];
  }

  lemma {:induction false} CountSingle(hit: real, start: real)
    ensures CountAfter([hit], start) == if hit > start then 1 else 0
  {
    assert [hit][..0] == [];
  }
}
