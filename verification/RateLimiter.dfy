/** Per-peer message rate limiting (src/security/rate_limit.rs). */
module RateLimiter {
  import opened Core

  datatype Bucket = Bucket(count: nat, start: nat)

  type Buckets = map<Key, Bucket>

  datatype Limits = Limits(capacity: nat, window: nat)

  /** The peer's bucket at `now`: created on first use, reset once the window has expired. */
  function BucketAt(l: Limits, buckets: Buckets, peer: Key, now: nat): Bucket
  {
    if peer in buckets && Max(now - buckets[peer].start, 0) < l.window then buckets[peer] else Bucket(0, now)
  }

  predicate Admits(l: Limits, buckets: Buckets, peer: Key, now: nat)
  {
    BucketAt(l, buckets, peer, now).count < l.capacity
  }

  function AfterCheck(l: Limits, buckets: Buckets, peer: Key, now: nat): Buckets
  {
    var b := BucketAt(l, buckets, peer, now);
    buckets[peer := if b.count < l.capacity then b.(count := b.count + 1) else b]
  }

  class RateLimiter {
    const limits: Limits
    var buckets: Buckets
    var messagesRateLimited: nat
    var peerViolationsRecorded: nat

    constructor (capacity: nat, window: nat)
      ensures limits == Limits(capacity, window) && buckets == map[]
      ensures messagesRateLimited == 0 && peerViolationsRecorded == 0
    {
      limits := Limits(capacity, window);
      buckets := map[];
      messagesRateLimited, peerViolationsRecorded := 0, 0;
    }

    method CheckAndRecord(peer: Key, now: nat) returns (allowed: bool)
      modifies this
      ensures allowed == Admits(limits, old(buckets), peer, now)
      ensures buckets == AfterCheck(limits, old(buckets), peer, now)
      ensures messagesRateLimited == old(messagesRateLimited) + (if allowed then 0 else 1)
      ensures peerViolationsRecorded == old(peerViolationsRecorded) + (if allowed then 0 else 1)
    {
      var bucket := if peer in buckets then buckets[peer] else Bucket(0, now);
      if Max(now - bucket.start, 0) >= limits.window {
        bucket := Bucket(0, now);
      }
      if bucket.count >= limits.capacity {
        messagesRateLimited := messagesRateLimited + 1;
        peerViolationsRecorded := peerViolationsRecorded + 1;
        allowed := false;
      } else {
        bucket := bucket.(count := bucket.count + 1);
        allowed := true;
      }
      buckets := buckets[peer := bucket];
    }
  }

  // ---- Runs ---------------------------------------------------------------------------------------

  datatype Arrival = Arrival(peer: Key, now: nat)

  ghost predicate ClockNonDecreasing(evs: seq<Arrival>)
  {
    forall i, j :: 0 <= i <= j < |evs| ==> evs[i].now <= evs[j].now
  }

  ghost function Run(l: Limits, evs: seq<Arrival>): Buckets
  {
    if evs == [] then map[]
    else AfterCheck(l, Run(l, evs[..|evs| - 1]), evs[|evs| - 1].peer, evs[|evs| - 1].now)
  }

  /** The arrival times of the peer's allowed messages, in order. */
  ghost function AllowedTimes(l: Limits, evs: seq<Arrival>, peer: Key): seq<nat>
  {
    if evs == [] then []
    else
      var pre, ev := evs[..|evs| - 1], evs[|evs| - 1];
      if ev.peer == peer && Admits(l, Run(l, pre), peer, ev.now) then AllowedTimes(l, pre, peer) + [ev.now]
      else AllowedTimes(l, pre, peer)
  }

  ghost function CountIn(ts: seq<nat>, lo: int, hi: int): nat
  {
    if ts == [] then 0
    else CountIn(ts[..|ts| - 1], lo, hi) + if lo <= ts[|ts| - 1] < hi then 1 else 0
  }

  lemma {:induction false} CountSplit(ts: seq<nat>, lo: int, mid: int, hi: int)
    requires lo <= mid <= hi
    ensures CountIn(ts, lo, hi) == CountIn(ts, lo, mid) + CountIn(ts, mid, hi)
  {
    if ts == [] {
    } else {
      CountSplit(ts[..|ts| - 1], lo, mid, hi);
    }
  }

  lemma {:induction false} CountEmpty(ts: seq<nat>, lo: int, hi: int)
    requires forall i :: 0 <= i < |ts| ==> !(lo <= ts[i] < hi)
    ensures CountIn(ts, lo, hi) == 0
  {
    if ts == [] {
    } else {
      CountEmpty(ts[..|ts| - 1], lo, hi);
    }
  }

  lemma {:induction false} CountShrink(ts: seq<nat>, lo: int, lo': int, hi: int, hi': int)
    requires lo <= lo' && hi' <= hi
    ensures CountIn(ts, lo', hi') <= CountIn(ts, lo, hi)
  {
    if ts == [] {
    } else {
      CountShrink(ts[..|ts| - 1], lo, lo', hi, hi');
    }
  }

  /** How many of the times lie in the half-open interval of length `w` that starts at `x`. */
  ghost function WindowCount(ts: seq<nat>, x: int, w: nat): nat
  {
    CountIn(ts, x, x + w)
  }

  /** The most messages two adjacent buckets can put into one window: the older bucket's first message is
      always too early. */
  function Burst(l: Limits): nat
  {
    if l.capacity == 0 then 0 else 2 * l.capacity - 1
  }

  /** What a bucket knows about the peer's allowed times up to `clock` (windows of positive length). */
  ghost predicate BucketExplains(l: Limits, b: Bucket, ts: seq<nat>, clock: nat)
  {
    && b.start <= clock && b.count <= l.capacity
    && (forall i :: 0 <= i < |ts| ==> ts[i] <= clock && ts[i] < b.start + l.window)
    && CountIn(ts, b.start, clock + 1) == b.count
    && (b.count > 0 ==> CountIn(ts, b.start, b.start + 1) > 0)
    && CountIn(ts, b.start - l.window + 1, b.start) <= Max(l.capacity - 1, 0)
  }

  ghost predicate Limited(l: Limits, ts: seq<nat>)
  {
    forall x: int :: WindowCount(ts, x, l.window) <= Burst(l) && WindowCount(ts, x, 1) <= l.capacity
  }

  ghost predicate PeerInv(l: Limits, buckets: Buckets, peer: Key, ts: seq<nat>, clock: nat)
  {
    && Limited(l, ts)
    && if peer in buckets
       then BucketExplains(l, buckets[peer], ts, clock) && (buckets[peer].count == 0 ==> l.capacity == 0)
       else ts == []
  }

  lemma LaterClock(l: Limits, b: Bucket, ts: seq<nat>, clock: nat, now: nat)
    requires BucketExplains(l, b, ts, clock) && clock <= now
    ensures BucketExplains(l, b, ts, now)
  {
    CountSplit(ts, b.start, clock + 1, now + 1);
    CountEmpty(ts, clock + 1, now + 1);
  }

  /** After an expired window the old bucket becomes the previous one, less its first message. */
  lemma FreshBucketExplains(l: Limits, b: Bucket, ts: seq<nat>, now: nat)
    requires l.window > 0 && BucketExplains(l, b, ts, now) && now - b.start >= l.window
    ensures BucketExplains(l, Bucket(0, now), ts, now)
  {
    CountEmpty(ts, now, now + 1);
    CountSplit(ts, b.start, b.start + 1, now + 1);
    CountShrink(ts, b.start + 1, now - l.window + 1, now + 1, now);
  }

  lemma WindowBound(l: Limits, b: Bucket, ts: seq<nat>, now: nat, x: int)
    requires l.window > 0 && BucketExplains(l, b, ts, now) && l.capacity > 0
    requires x <= now < x + l.window
    ensures WindowCount(ts, x, l.window) <= Burst(l)
  {
    CountSplit(ts, x, now + 1, x + l.window);
    CountEmpty(ts, now + 1, x + l.window);
    if x < b.start {
      CountSplit(ts, x, b.start, now + 1);
      CountShrink(ts, b.start - l.window + 1, x, b.start, b.start);
    } else {
      CountShrink(ts, b.start, x, now + 1, now + 1);
    }
  }

  lemma AllowKeepsBucket(l: Limits, b: Bucket, ts: seq<nat>, now: nat)
    requires l.window > 0 && BucketExplains(l, b, ts, now)
    requires b.count < l.capacity && now - b.start < l.window && (b.count == 0 ==> now == b.start)
    ensures BucketExplains(l, b.(count := b.count + 1), ts + [now], now)
  {
    assert (ts + [now])[..|ts|] == ts;
  }

  lemma CapacityPositive(l: Limits, b: Bucket, ts: seq<nat>, now: nat)
    requires BucketExplains(l, b, ts + [now], now)
    ensures l.capacity > 0
  {
    assert CountIn(ts + [now], b.start, now + 1) > 0;
  }

  lemma AllowKeepsLimit(l: Limits, b: Bucket, ts: seq<nat>, now: nat)
    requires l.window > 0 && Limited(l, ts)
    requires BucketExplains(l, b, ts + [now], now)
    ensures Limited(l, ts + [now])
  {
    var ts' := ts + [now];
    assert ts'[..|ts|] == ts;
    CountShrink(ts', b.start, now, now + 1, now + 1);
    forall x: int ensures WindowCount(ts', x, l.window) <= Burst(l) && WindowCount(ts', x, 1) <= l.capacity {
      assert WindowCount(ts, x, l.window) <= Burst(l) && WindowCount(ts, x, 1) <= l.capacity;
      if x <= now < x + l.window {
        CapacityPositive(l, b, ts, now);
        WindowBound(l, b, ts', now, x);
      }
    }
  }

  lemma {:induction false} PeerInvHolds(l: Limits, evs: seq<Arrival>, peer: Key)
    requires l.window > 0 && ClockNonDecreasing(evs)
    ensures PeerInv(l, Run(l, evs), peer, AllowedTimes(l, evs, peer), if evs == [] then 0 else evs[|evs| - 1].now)
  {
    if evs == [] {
    } else {
      var pre, ev := evs[..|evs| - 1], evs[|evs| - 1];
      PeerInvHolds(l, pre, peer);
      var buckets, ts := Run(l, pre), AllowedTimes(l, pre, peer);
      var clock := if pre == [] then 0 else pre[|pre| - 1].now;
      assert clock <= ev.now;
      if peer in buckets { LaterClock(l, buckets[peer], ts, clock, ev.now); }
      if ev.peer == peer {
        CheckKeeps(l, buckets, peer, ts, ev.now);
      }
    }
  }

  lemma BucketAtExplains(l: Limits, buckets: Buckets, peer: Key, ts: seq<nat>, now: nat)
    requires l.window > 0 && PeerInv(l, buckets, peer, ts, now)
    ensures BucketExplains(l, BucketAt(l, buckets, peer, now), ts, now)
  {
    if peer in buckets && now - buckets[peer].start >= l.window {
      FreshBucketExplains(l, buckets[peer], ts, now);
    }
  }

  lemma CheckKeeps(l: Limits, buckets: Buckets, peer: Key, ts: seq<nat>, now: nat)
    requires l.window > 0 && PeerInv(l, buckets, peer, ts, now)
    ensures PeerInv(l, AfterCheck(l, buckets, peer, now), peer,
                    if Admits(l, buckets, peer, now) then ts + [now] else ts, now)
  {
    var b := BucketAt(l, buckets, peer, now);
    BucketAtExplains(l, buckets, peer, ts, now);
    if b.count < l.capacity {
      AllowKeepsBucket(l, b, ts, now);
      AllowKeepsLimit(l, b.(count := b.count + 1), ts, now);
    }
  }

  /** Under a non-decreasing clock, in every run and for every peer: the current bucket window holds at most
      `capacity` allowed messages, and no interval of the window length holds more than 2·capacity − 1. */
  lemma AllowedIsBounded(l: Limits, evs: seq<Arrival>, peer: Key, x: int)
    requires ClockNonDecreasing(evs)
    ensures WindowCount(AllowedTimes(l, evs, peer), x, l.window) <= Burst(l)
    ensures l.window > 0 && evs != [] && peer in Run(l, evs) ==>
              CountIn(AllowedTimes(l, evs, peer), Run(l, evs)[peer].start, evs[|evs| - 1].now + 1) <= l.capacity
  {
    if l.window == 0 {
      CountEmpty(AllowedTimes(l, evs, peer), x, x);
    } else {
      PeerInvHolds(l, evs, peer);
      hide Run, AllowedTimes;
    }
  }

  // ---- Independence of peers ----------------------------------------------------------------------

  ghost function OnlyPeer(evs: seq<Arrival>, peer: Key): seq<Arrival>
  {
    if evs == [] then []
    else if evs[|evs| - 1].peer == peer then OnlyPeer(evs[..|evs| - 1], peer) + [evs[|evs| - 1]]
    else OnlyPeer(evs[..|evs| - 1], peer)
  }

  /** What a peer is allowed is decided by its own arrivals alone. */
  lemma {:induction false} PeersAreIndependent(l: Limits, evs: seq<Arrival>, peer: Key)
    ensures AllowedTimes(l, evs, peer) == AllowedTimes(l, OnlyPeer(evs, peer), peer)
    ensures peer in Run(l, evs) <==> peer in Run(l, OnlyPeer(evs, peer))
    ensures peer in Run(l, evs) ==> Run(l, evs)[peer] == Run(l, OnlyPeer(evs, peer))[peer]
  {
    if evs == [] {
    } else {
      var pre, ev := evs[..|evs| - 1], evs[|evs| - 1];
      PeersAreIndependent(l, pre, peer);
      if ev.peer == peer {
        var own := OnlyPeer(pre, peer);
        assert (own + [ev])[..|own|] == own;
      }
    }
  }

  // ---- The documented sliding-window promise ------------------------------------------------------

  /** The peer's bucket is `b` and `k` of its allowed messages lie in `[lo, hi)`. */
  ghost predicate At(l: Limits, evs: seq<Arrival>, peer: Key, b: Bucket, k: nat, lo: int, hi: int)
  {
    && peer in Run(l, evs) && Run(l, evs)[peer] == b
    && CountIn(AllowedTimes(l, evs, peer), lo, hi) == k
  }

  lemma CountSnoc(ts: seq<nat>, now: nat, lo: int, hi: int)
    ensures CountIn(ts + [now], lo, hi) == CountIn(ts, lo, hi) + if lo <= now < hi then 1 else 0
  {
    assert (ts + [now])[..|ts|] == ts;
  }

  lemma RunSnoc(l: Limits, evs: seq<Arrival>, peer: Key, now: nat)
    ensures Run(l, evs + [Arrival(peer, now)]) == AfterCheck(l, Run(l, evs), peer, now)
    ensures Admits(l, Run(l, evs), peer, now) ==>
              AllowedTimes(l, evs + [Arrival(peer, now)], peer) == AllowedTimes(l, evs, peer) + [now]
  {
    assert (evs + [Arrival(peer, now)])[..|evs|] == evs;
  }

  lemma OneAllowed(l: Limits, evs: seq<Arrival>, peer: Key, now: nat, lo: int, hi: int)
    requires Admits(l, Run(l, evs), peer, now)
    ensures var b := BucketAt(l, Run(l, evs), peer, now);
            At(l, evs + [Arrival(peer, now)], peer, b.(count := b.count + 1),
               CountIn(AllowedTimes(l, evs, peer), lo, hi) + (if lo <= now < hi then 1 else 0), lo, hi)
  {
    hide Run, AllowedTimes, CountIn, BucketAt;
    RunSnoc(l, evs, peer, now);
    CountSnoc(AllowedTimes(l, evs, peer), now, lo, hi);
  }

  /** `n` more messages at one instant, while the bucket has room for them, are all allowed. */
  lemma {:induction false} ManyAllowed(l: Limits, evs: seq<Arrival>, peer: Key, now: nat, n: nat,
                                       b: Bucket, k: nat, lo: int, hi: int) returns (evs': seq<Arrival>)
    requires At(l, evs, peer, b, k, lo, hi) && lo <= now < hi
    requires b.start <= now < b.start + l.window && b.count + n <= l.capacity
    requires ClockNonDecreasing(evs) && evs != [] && evs[|evs| - 1].now <= now
    ensures At(l, evs', peer, Bucket(b.count + n, b.start), k + n, lo, hi)
    ensures ClockNonDecreasing(evs') && evs' != [] && evs'[|evs'| - 1].now <= now
    decreases n
  {
    if n == 0 {
      evs' := evs;
    } else {
      OneAllowed(l, evs, peer, now, lo, hi);
      evs' := ManyAllowed(l, evs + [Arrival(peer, now)], peer, now, n - 1, b.(count := b.count + 1), k + 1, lo, hi);
    }
  }

  /** The bound 2·capacity − 1 is reached, for every capacity and every window of at least two ticks. */
  lemma BurstIsReached(l: Limits, peer: Key) returns (evs: seq<Arrival>)
    requires l.capacity > 0 && l.window >= 2
    ensures ClockNonDecreasing(evs)
    ensures WindowCount(AllowedTimes(l, evs, peer), l.window - 1, l.window) == Burst(l)
  {
    var w, c := l.window, l.capacity;
    var lo, hi := w - 1, 2 * w - 1;
    assert Run(l, []) == map[] && CountIn(AllowedTimes(l, [], peer), lo, hi) == 0;
    hide Run, AllowedTimes, CountIn;
    OneAllowed(l, [], peer, 0, lo, hi);
    var late := ManyAllowed(l, [] + [Arrival(peer, 0)], peer, w - 1, c - 1, Bucket(1, 0), 0, lo, hi);
    OneAllowed(l, late, peer, w, lo, hi);
    evs := ManyAllowed(l, late + [Arrival(peer, w)], peer, w, c - 1, Bucket(1, w), c, lo, hi);
  }

  /** "At most `capacity` messages per window", read as a sliding window. */
  ghost predicate SlidingPromise(l: Limits)
  {
    forall evs, peer, x: int ::
      ClockNonDecreasing(evs) ==> WindowCount(AllowedTimes(l, evs, peer), x, l.window) <= l.capacity
  }

  /** The documented promise holds exactly for capacity at most one or a window of at most one tick. */
  lemma SlidingPromiseIff(l: Limits)
    ensures SlidingPromise(l) <==> l.capacity <= 1 || l.window <= 1
  {
    if l.capacity <= 1 || l.window <= 1 {
      forall evs, peer, x: int | ClockNonDecreasing(evs)
        ensures WindowCount(AllowedTimes(l, evs, peer), x, l.window) <= l.capacity
      {
        AllowedIsBounded(l, evs, peer, x);
        if l.window == 0 { CountEmpty(AllowedTimes(l, evs, peer), x, x); }
        if l.window == 1 { PeerInvHolds(l, evs, peer); }
      }
    } else {
      var evs := BurstIsReached(l, 0);
      assert WindowCount(AllowedTimes(l, evs, 0), l.window - 1, l.window) > l.capacity;
    }
  }

  // ---- The decisions in full ----------------------------------------------------------------------

  /** The peer's current window: when it started, and the messages allowed in it. */
  datatype Window = Window(start: nat, allowed: seq<nat>)

  /** The window a message at `now` falls into: the open one for less than the window length, else a new one. */
  ghost function WindowFor(w: Option<Window>, length: nat, now: nat): Window
  {
    if w.Some? && length > 0 && now < w.value.start + length then w.value else Window(now, [])
  }

  /** The reference: each message of the peer is allowed while its window has had fewer than `capacity`. */
  ghost function CurrentWindow(l: Limits, evs: seq<Arrival>, peer: Key): Option<Window>
  {
    if evs == [] then None
    else
      var before, ev := CurrentWindow(l, evs[..|evs| - 1], peer), evs[|evs| - 1];
      if ev.peer != peer then before
      else
        var w := WindowFor(before, l.window, ev.now);
        Some(if |w.allowed| < l.capacity then w.(allowed := w.allowed + [ev.now]) else w)
  }

  ghost predicate SameWindow(buckets: Buckets, peer: Key, w: Option<Window>)
  {
    && (peer in buckets <==> w.Some?)
    && (w.Some? ==> buckets[peer] == Bucket(|w.value.allowed|, w.value.start))
  }

  lemma CheckKeepsWindow(l: Limits, buckets: Buckets, peer: Key, now: nat, w: Option<Window>)
    requires SameWindow(buckets, peer, w)
    ensures var v := WindowFor(w, l.window, now);
            && (Admits(l, buckets, peer, now) <==> |v.allowed| < l.capacity)
            && SameWindow(AfterCheck(l, buckets, peer, now), peer,
                          Some(if |v.allowed| < l.capacity then v.(allowed := v.allowed + [now]) else v))
  {
  }

  /** In every run, with any clock: a message is allowed if and only if fewer than `capacity` messages of its peer
      were allowed in its window. A window starts with the first message after the previous one's length is over. */
  lemma {:induction false} AllowedIff(l: Limits, evs: seq<Arrival>, peer: Key, now: nat)
    ensures SameWindow(Run(l, evs), peer, CurrentWindow(l, evs, peer))
    ensures Admits(l, Run(l, evs), peer, now)
        <==> |WindowFor(CurrentWindow(l, evs, peer), l.window, now).allowed| < l.capacity
  {
    if evs == [] {
    } else {
      var pre, ev := evs[..|evs| - 1], evs[|evs| - 1];
      AllowedIff(l, pre, peer, ev.now);
      CheckKeepsWindow(l, Run(l, pre), peer, ev.now, CurrentWindow(l, pre, peer));
    }
    CheckKeepsWindow(l, Run(l, evs), peer, now, CurrentWindow(l, evs, peer));
  }
}
