/** Signature-failure strikes in a sliding window (src/gossip/strike_tracker.rs). */
module StrikeTracker {
  import opened Core

  const WINDOW_MS := 10 * 60 * 1000
  const MAX_STRIKES := 3

  type Failures = map<Key, seq<nat>>

  /** The times of `ts` in the closed window that ends at `now`. */
  function Recent(ts: seq<nat>, now: nat): seq<nat>
  {
    if ts == [] then []
    else
      var kept := Recent(ts[..|ts| - 1], now);
      if now - ts[|ts| - 1] <= WINDOW_MS then kept + [ts[|ts| - 1]] else kept
  }

  function TimesOf(failures: Failures, peer: Key): seq<nat>
  {
    if peer in failures then failures[peer] else []
  }

  function AfterFailure(failures: Failures, peer: Key, now: nat): Failures
  {
    failures[peer := Recent(TimesOf(failures, peer), now) + [now]]
  }

  function AfterCleanup(failures: Failures, now: nat): Failures
  {
    map p | p in failures && Recent(failures[p], now) != [] :: Recent(failures[p], now)
  }

  function StrikeCount(failures: Failures, peer: Key, now: nat): nat
  {
    |Recent(TimesOf(failures, peer), now)|
  }

  /** `Vec::retain` with the window test. */
  method Retain(ts: seq<nat>, now: nat) returns (kept: seq<nat>)
    ensures kept == Recent(ts, now)
  {
    kept := [];
    for i := 0 to |ts|
      invariant kept == Recent(ts[..i], now)
    {
      assert ts[..i + 1][..i] == ts[..i];
      if now - ts[i] <= WINDOW_MS { kept := kept + [ts[i]]; }
    }
    assert ts[..|ts|] == ts;
  }

  class StrikeTracker {
    var failures: Failures

    constructor ()
      ensures failures == map[]
    {
      failures := map[];
    }

    method RecordFailure(peer: Key, now: nat) returns (ban: bool)
      modifies this
      ensures failures == AfterFailure(old(failures), peer, now)
      ensures ban == (StrikeCount(old(failures), peer, now) + 1 > MAX_STRIKES)
    {
      var ts := if peer in failures then failures[peer] else [];
      ts := Retain(ts, now);
      ts := ts + [now];
      failures := failures[peer := ts];
      ban := |ts| > MAX_STRIKES;
    }

    method ClearPeer(peer: Key)
      modifies this
      ensures failures == old(failures) - {peer}
    {
      failures := failures - {peer};
    }

    method GetStrikeCount(peer: Key, now: nat) returns (n: nat)
      ensures n == StrikeCount(failures, peer, now)
    {
      if peer !in failures { return 0; }
      var ts := Retain(failures[peer], now);
      n := |ts|;
    }

    method Cleanup(now: nat)
      modifies this
      ensures failures == AfterCleanup(old(failures), now)
    {
      var rest := failures.Keys;
      while rest != {}
        invariant rest <= old(failures).Keys
        invariant failures == map p | p in old(failures) && (p in rest || Recent(old(failures)[p], now) != [])
                                   :: if p in rest then old(failures)[p] else Recent(old(failures)[p], now)
        decreases rest
      {
        var p :| p in rest;
        rest := rest - {p};
        var ts := Retain(failures[p], now);
        failures := if ts == [] then failures - {p} else failures[p := ts];
      }
    }
  }

  // ---- Runs ---------------------------------------------------------------------------------------

  datatype Event = Fail(peer: Key, now: nat) | Clear(peer: Key, now: nat) | Sweep(now: nat)

  ghost predicate ClockNonDecreasing(evs: seq<Event>)
  {
    forall i, j :: 0 <= i <= j < |evs| ==> evs[i].now <= evs[j].now
  }

  ghost function Step(failures: Failures, ev: Event): Failures
  {
    match ev
    case Fail(p, now) => AfterFailure(failures, p, now)
    case Clear(p, _) => failures - {p}
    case Sweep(now) => AfterCleanup(failures, now)
  }

  ghost function Run(evs: seq<Event>): Failures
  {
    if evs == [] then map[] else Step(Run(evs[..|evs| - 1]), evs[|evs| - 1])
  }

  /** The reference: every failure of the peer since it was last cleared, never pruned. */
  ghost function History(evs: seq<Event>, peer: Key): seq<nat>
  {
    if evs == [] then []
    else HistoryStep(History(evs[..|evs| - 1], peer), evs[|evs| - 1], peer)
  }

  ghost function HistoryStep(before: seq<nat>, ev: Event, peer: Key): seq<nat>
  {
    match ev
    case Fail(p, now) => if p == peer then before + [now] else before
    case Clear(p, _) => if p == peer then [] else before
    case Sweep(_) => before
  }

  lemma {:induction false} RecentOfRecent(ts: seq<nat>, a: nat, b: nat)
    requires a <= b
    ensures Recent(Recent(ts, a), b) == Recent(ts, b)
  {
    if ts == [] {
    } else {
      var pre, t := ts[..|ts| - 1], ts[|ts| - 1];
      RecentOfRecent(pre, a, b);
      var kept := Recent(pre, a);
      assert (kept + [t])[..|kept|] == kept;
    }
  }

  lemma RecentOfPruned(pruned: seq<nat>, full: seq<nat>, clock: nat, now: nat)
    requires Recent(pruned, clock) == Recent(full, clock) && clock <= now
    ensures Recent(pruned, now) == Recent(full, now)
  {
    RecentOfRecent(pruned, clock, now);
    RecentOfRecent(full, clock, now);
  }

  lemma RecentAppend(ts: seq<nat>, t: nat, now: nat)
    ensures Recent(ts + [t], now) == if now - t <= WINDOW_MS then Recent(ts, now) + [t] else Recent(ts, now)
  {
    assert (ts + [t])[..|ts|] == ts;
  }

  lemma StepAgrees(failures: Failures, ev: Event, peer: Key, full: seq<nat>)
    requires Recent(TimesOf(failures, peer), ev.now) == Recent(full, ev.now)
    ensures Recent(TimesOf(Step(failures, ev), peer), ev.now)
         == Recent(HistoryStep(full, ev, peer), ev.now)
  {
    var ts := TimesOf(failures, peer);
    RecentOfRecent(ts, ev.now, ev.now);
    if ev.Fail? {
      RecentAppend(Recent(ts, ev.now), ev.now, ev.now);
      RecentAppend(full, ev.now, ev.now);
    }
  }

  /** At any later time the pruned list and the full history show the same failures in the window. */
  lemma {:induction false} PrunedAgrees(evs: seq<Event>, peer: Key, now: nat)
    requires ClockNonDecreasing(evs) && (evs == [] || evs[|evs| - 1].now <= now)
    ensures Recent(TimesOf(Run(evs), peer), now) == Recent(History(evs, peer), now)
  {
    if evs == [] {
    } else {
      var pre, ev := evs[..|evs| - 1], evs[|evs| - 1];
      PrunedAgrees(pre, peer, ev.now);
      StepAgrees(Run(pre), ev, peer, History(pre, peer));
      RecentOfPruned(TimesOf(Run(evs), peer), History(evs, peer), ev.now, now);
    }
  }

  /** The answer `record_failure` gives after the run. */
  ghost predicate Bans(evs: seq<Event>, peer: Key, now: nat)
  {
    StrikeCount(Run(evs), peer, now) + 1 > MAX_STRIKES
  }

  /** `record_failure` answers true exactly when more than three failures since the last clear, this one
      included, lie in the closed ten-minute window; `get_strike_count` counts the same failures. */
  lemma BanIffHistoryExceeds(evs: seq<Event>, peer: Key, now: nat)
    requires ClockNonDecreasing(evs) && (evs == [] || evs[|evs| - 1].now <= now)
    ensures Bans(evs, peer, now) <==> |Recent(History(evs, peer) + [now], now)| > MAX_STRIKES
    ensures StrikeCount(Run(evs), peer, now) == |Recent(History(evs, peer), now)|
  {
    PrunedAgrees(evs, peer, now);
    RecentAppend(History(evs, peer), now, now);
  }

  ghost function WithoutSweeps(evs: seq<Event>): seq<Event>
  {
    if evs == [] then []
    else if evs[|evs| - 1].Sweep? then WithoutSweeps(evs[..|evs| - 1])
    else WithoutSweeps(evs[..|evs| - 1]) + [evs[|evs| - 1]]
  }

  lemma {:induction false} SweepsLeaveHistory(evs: seq<Event>, peer: Key)
    ensures History(WithoutSweeps(evs), peer) == History(evs, peer)
  {
    if evs == [] {
    } else {
      var pre, ev := evs[..|evs| - 1], evs[|evs| - 1];
      SweepsLeaveHistory(pre, peer);
      var w := WithoutSweeps(pre);
      assert (w + [ev])[..|w|] == w;
    }
  }

  lemma {:induction false} SweepsLeaveOrder(evs: seq<Event>, now: nat)
    requires ClockNonDecreasing(evs) && (evs == [] || evs[|evs| - 1].now <= now)
    ensures ClockNonDecreasing(WithoutSweeps(evs))
    ensures forall i :: 0 <= i < |WithoutSweeps(evs)| ==> WithoutSweeps(evs)[i].now <= now
  {
    if evs == [] {
    } else {
      var pre, ev := evs[..|evs| - 1], evs[|evs| - 1];
      SweepsLeaveOrder(pre, ev.now);
    }
  }

  /** Cleaning up, at any points of the run, changes no later answer. */
  lemma CleanupIsInvisible(evs: seq<Event>, peer: Key, now: nat)
    requires ClockNonDecreasing(evs) && (evs == [] || evs[|evs| - 1].now <= now)
    ensures Bans(WithoutSweeps(evs), peer, now) == Bans(evs, peer, now)
    ensures StrikeCount(Run(WithoutSweeps(evs)), peer, now) == StrikeCount(Run(evs), peer, now)
  {
    SweepsLeaveHistory(evs, peer);
    SweepsLeaveOrder(evs, now);
    BanIffHistoryExceeds(evs, peer, now);
    BanIffHistoryExceeds(WithoutSweeps(evs), peer, now);
  }

  // ---- The answers in numbers ---------------------------------------------------------------------

  /** The failures of `ts` at most ten minutes before `now`. */
  ghost function WithinTenMinutes(ts: seq<nat>, now: nat): set<nat>
  {
    set i: nat | i < |ts| && ts[i] + 600_000 >= now
  }

  lemma {:induction false} RecentCount(ts: seq<nat>, now: nat)
    ensures |Recent(ts, now)| == |WithinTenMinutes(ts, now)|
  {
    if ts == [] {
      assert WithinTenMinutes(ts, now) == {};
    } else {
      var pre, last: nat := ts[..|ts| - 1], |ts| - 1;
      RecentCount(pre, now);
      assert WithinTenMinutes(ts, now)
          == if ts[last] + 600_000 >= now then WithinTenMinutes(pre, now) + {last} else WithinTenMinutes(pre, now);
    }
  }

  /** In numbers: with `n` failures since the last clear at most ten minutes ago, `get_strike_count` answers `n`, and
      one more failure bans the peer if and only if `n` is at least 3. */
  lemma FourthFailureBans(evs: seq<Event>, peer: Key, now: nat)
    requires ClockNonDecreasing(evs) && (evs == [] || evs[|evs| - 1].now <= now)
    ensures var n := |WithinTenMinutes(History(evs, peer), now)|;
            StrikeCount(Run(evs), peer, now) == n && (Bans(evs, peer, now) <==> n >= 3)
  {
    BanIffHistoryExceeds(evs, peer, now);
    RecentCount(History(evs, peer), now);
  }

  lemma {:induction false} RecentAreRecent(ts: seq<nat>, now: nat)
    ensures forall i :: 0 <= i < |Recent(ts, now)| ==> Recent(ts, now)[i] in ts && Recent(ts, now)[i] + 600_000 >= now
  {
    if ts == [] {
    } else {
      RecentAreRecent(ts[..|ts| - 1], now);
    }
  }

  /** What a failure leaves stored for its peer: as many times as lie within the last ten minutes, all of them from
      there, and then its own. Other peers keep theirs. */
  lemma FailureStoresRecent(failures: Failures, peer: Key, now: nat)
    ensures var times, failures' := TimesOf(failures, peer), AfterFailure(failures, peer, now);
            && failures' == failures[peer := failures'[peer]]
            && |failures'[peer]| == |WithinTenMinutes(times, now)| + 1
            && (forall i :: 0 <= i < |failures'[peer]| - 1 ==>
                  failures'[peer][i] in times && failures'[peer][i] + 600_000 >= now)
            && failures'[peer][|failures'[peer]| - 1] == now
  {
    RecentCount(TimesOf(failures, peer), now);
    RecentAreRecent(TimesOf(failures, peer), now);
  }

  /** What a cleanup leaves: exactly the peers with a failure within the last ten minutes, and of each only those. */
  lemma CleanupStoresRecent(failures: Failures, now: nat, peer: Key)
    ensures var failures' := AfterCleanup(failures, now);
            && (peer in failures' <==> peer in failures && WithinTenMinutes(failures[peer], now) != {})
            && (peer in failures' ==>
                  && |failures'[peer]| == |WithinTenMinutes(failures[peer], now)|
                  && (forall i :: 0 <= i < |failures'[peer]| ==>
                        failures'[peer][i] in failures[peer] && failures'[peer][i] + 600_000 >= now))
  {
    if peer in failures {
      RecentCount(failures[peer], now);
      RecentAreRecent(failures[peer], now);
      hide Recent, WithinTenMinutes;
    }
  }
}
