/** Anti-entropy and macro-merge recovery (`GossipState`, src/gossip/protocol.rs). */
module GossipState {
  import opened Core
  import opened Messages
  import opened StableSort
  import opened PriorityQueue

  const MACRO_MERGE_THRESHOLD := 500

  datatype Gossip = Gossip(tiers: Tiers, backlog: seq<Envelope>)

  function WithEnvelope(g: Gossip, e: Envelope): Gossip
  {
    g.(tiers := Pushed(g.tiers, Transaction(e)).0)
  }

  function AddAll(g: Gossip, es: seq<Envelope>): Gossip
  {
    if es == [] then g else WithEnvelope(AddAll(g, es[..|es| - 1]), es[|es| - 1])
  }

  /** `process_paced_recovery_batch`: move up to `batchSize` envelopes from the backlog to the queue. */
  function Paced(g: Gossip, batchSize: nat): Gossip
  {
    var k := Min(batchSize, |g.backlog|);
    AddAll(g.(backlog := g.backlog[k..]), g.backlog[..k])
  }

  function PrefixesOf(es: seq<Envelope>): seq<U32>
  {
    if es == [] then [] else [Prefix4(es[0].messageId)] + PrefixesOf(es[1..])
  }

  /** `generate_sync_request`: the 4-byte prefixes of the ids held. */
  function KnownPrefixes(g: Gossip): seq<U32>
  {
    PrefixesOf(Envelopes(g.tiers))
  }

  function Unknown(es: seq<Envelope>, known: seq<U32>): seq<Envelope>
  {
    if es == [] then []
    else if Prefix4(es[0].messageId) in known then Unknown(es[1..], known)
    else [es[0]] + Unknown(es[1..], known)
  }

  /** `handle_sync_request`: the held envelopes whose prefix the requester did not list. */
  function SyncReply(g: Gossip, known: seq<U32>): seq<Envelope>
  {
    Unknown(Envelopes(g.tiers), known)
  }

  function TimestampKey(): Envelope -> SortKey
  {
    (e: Envelope) => Finite(e.timestamp)
  }

  /** `handle_sync_response`: merge a small reply at once; a large one replaces the backlog. */
  function MergeReply(g: Gossip, reply: seq<Envelope>): Gossip
  {
    if |reply| <= MACRO_MERGE_THRESHOLD then AddAll(g, reply)
    else g.(backlog := Sort(reply, TimestampKey()))
  }

  class GossipState {
    const activeQueue: PriorityQueue
    var backlog: seq<Envelope>

    ghost function View(): Gossip
      reads this, activeQueue
    {
      Gossip(activeQueue.View(), backlog)
    }

    constructor ()
      ensures View() == Gossip(EMPTY_TIERS, []) && fresh(activeQueue)
    {
      activeQueue := new PriorityQueue();
      backlog := [];
    }

    /** Reports the id of the envelope that an overflow pushed out. */
    method AddEnvelope(e: Envelope) returns (droppedId: Option<Key>)
      modifies activeQueue
      ensures View() == WithEnvelope(old(View()), e)
      ensures droppedId.Some? <==> |old(View()).tiers.normal| >= NORMAL_CAPACITY
                                   && (old(View()).tiers.normal + [Transaction(e)])[0].Transaction?
      ensures droppedId.Some? ==> droppedId.value == (old(View()).tiers.normal + [Transaction(e)])[0].envelope.messageId
    {
      var dropped := activeQueue.Push(Transaction(e));
      if dropped.Some? && dropped.value.Transaction? {
        return Some(dropped.value.envelope.messageId);
      }
      return None;
    }

    method ProcessPacedRecoveryBatch(batchSize: nat) returns (moved: nat)
      modifies this`backlog, activeQueue
      ensures View() == Paced(old(View()), batchSize)
      ensures moved == Min(batchSize, |old(backlog)|)
    {
      moved := 0;
      var all := backlog;
      while moved < batchSize && backlog != []
        invariant moved <= Min(batchSize, |all|)
        invariant backlog == all[moved..]
        invariant View() == AddAll(old(View()).(backlog := all[moved..]), all[..moved])
        decreases |backlog|
      {
        assert all[..moved + 1][..moved] == all[..moved];
        AddAllKeepsBacklog(old(View()), all[moved..], all[moved + 1..], all[..moved]);
        var e := backlog[0];
        backlog := backlog[1..];
        var _ := AddEnvelope(e);
        moved := moved + 1;
      }
    }

    /** One prefix for every transaction held, in the order of the queue. */
    method GenerateSyncRequest() returns (known: seq<U32>)
      ensures known == KnownPrefixes(View())
      ensures |known| == |Envelopes(View().tiers)|
      ensures forall i :: 0 <= i < |known| ==> known[i] == Prefix4(Envelopes(View().tiers)[i].messageId)
    {
      known := [];
      var held := activeQueue.IterEnvelopes();
      for i := 0 to |held|
        invariant |known| == i && forall j :: 0 <= j < i ==> known[j] == Prefix4(held[j].messageId)
      {
        known := known + [Prefix4(held[i].messageId)];
      }
      PrefixesInOrder(held);
    }

    /** All transactions held under prefixes that were not listed, unchanged and in the order of the queue. */
    method HandleSyncRequest(known: seq<U32>) returns (missing: seq<Envelope>)
      ensures missing == SyncReply(View(), known)
      ensures exists at :: ExactlyUnlisted(Envelopes(View().tiers), known, missing, at)
    {
      missing := [];
      var held := activeQueue.IterEnvelopes();
      ghost var at: seq<nat> := [];
      for i := 0 to |held|
        invariant ExactlyUnlisted(held[..i], known, missing, at)
      {
        UnlistedSnoc(held[..i], held[i], known, missing, at);
        assert held[..i + 1] == held[..i] + [held[i]];
        if Prefix4(held[i].messageId) !in known {
          missing, at := missing + [held[i]], at + [i];
        }
      }
      assert held[..|held|] == held;
      var at' := UnknownInOrder(held, known);
      UnlistedUnique(held, known, missing, at, Unknown(held, known), at');
    }

    method HandleSyncResponse(reply: seq<Envelope>)
      modifies this`backlog, activeQueue
      ensures View() == MergeReply(old(View()), reply)
    {
      if |reply| <= MACRO_MERGE_THRESHOLD {
        for i := 0 to |reply|
          invariant View() == AddAll(old(View()), reply[..i])
        {
          assert reply[..i + 1][..i] == reply[..i];
          var _ := AddEnvelope(reply[i]);
        }
        assert reply[..|reply|] == reply;
        return;
      }
      backlog := Sort(reply, TimestampKey());
    }
  }

  lemma {:induction false} AddAllKeepsBacklog(g: Gossip, b: seq<Envelope>, b': seq<Envelope>, es: seq<Envelope>)
    ensures AddAll(g.(backlog := b), es).backlog == b
    ensures AddAll(g.(backlog := b'), es) == AddAll(g.(backlog := b), es).(backlog := b')
  {
    if es == [] {
    } else {
      AddAllKeepsBacklog(g, b, b', es[..|es| - 1]);
    }
  }

  // ---- Requests and replies -----------------------------------------------------------------------

  lemma {:induction false} PrefixesInOrder(es: seq<Envelope>)
    ensures |PrefixesOf(es)| == |es|
    ensures forall i :: 0 <= i < |es| ==> PrefixesOf(es)[i] == Prefix4(es[i].messageId)
  {
    if es == [] {
    } else {
      PrefixesInOrder(es[1..]);
    }
  }

  /** `missing` is the entries of `es` at the increasing positions `at`, and these are exactly the positions
      whose prefix is not in `known`. */
  ghost predicate ExactlyUnlisted(es: seq<Envelope>, known: seq<U32>, missing: seq<Envelope>, at: seq<nat>)
  {
    && |at| == |missing|
    && (forall i :: 0 <= i < |at| ==> at[i] < |es| && missing[i] == es[at[i]])
    && (forall i, j :: 0 <= i < j < |at| ==> at[i] < at[j])
    && (forall k :: 0 <= k < |es| ==> (k in at <==> Prefix4(es[k].messageId) !in known))
  }

  lemma UnlistedSnoc(es: seq<Envelope>, e: Envelope, known: seq<U32>, missing: seq<Envelope>, at: seq<nat>)
    requires ExactlyUnlisted(es, known, missing, at)
    ensures if Prefix4(e.messageId) in known then ExactlyUnlisted(es + [e], known, missing, at)
            else ExactlyUnlisted(es + [e], known, missing + [e], at + [|es|])
  {
  }

  ghost predicate Increasing(a: seq<nat>)
  {
    forall i, j :: 0 <= i < j < |a| ==> a[i] < a[j]
  }

  lemma LastIsGreatest(a: seq<nat>, k: nat)
    requires Increasing(a) && a != [] && k in a
    ensures k <= a[|a| - 1]
    ensures k in a[..|a| - 1] <==> k != a[|a| - 1]
  {
  }

  ghost predicate SameMembers(a: seq<nat>, b: seq<nat>)
  {
    forall k :: k in a <==> k in b
  }

  lemma SameLast(a: seq<nat>, b: seq<nat>)
    requires Increasing(a) && Increasing(b) && a != [] && b != [] && SameMembers(a, b)
    ensures a[|a| - 1] == b[|b| - 1] && SameMembers(a[..|a| - 1], b[..|b| - 1])
    ensures Increasing(a[..|a| - 1]) && Increasing(b[..|b| - 1])
  {
    var last, last' := a[|a| - 1], b[|b| - 1];
    assert last in a && last' in b;
    LastIsGreatest(a, last');
    LastIsGreatest(b, last);
    var pre, pre' := a[..|a| - 1], b[..|b| - 1];
    assert Increasing(pre) && Increasing(pre');
    hide Increasing;
    forall k ensures k in pre <==> k in pre' {
      if k in a { LastIsGreatest(a, k); }
      if k in b { LastIsGreatest(b, k); }
    }
  }

  lemma {:induction false} IncreasingUnique(a: seq<nat>, b: seq<nat>)
    requires Increasing(a) && Increasing(b) && SameMembers(a, b)
    ensures a == b
  {
    assert (a == [] || a[0] in a) && (b == [] || b[0] in b);
    if a == [] {
    } else {
      assert a[0] in b;
      hide *;
      SameLast(a, b);
      IncreasingUnique(a[..|a| - 1], b[..|b| - 1]);
      assert a == a[..|a| - 1] + [a[|a| - 1]] && b == b[..|b| - 1] + [b[|b| - 1]];
    }
  }

  /** That determines the reply. */
  lemma UnlistedUnique(es: seq<Envelope>, known: seq<U32>, missing: seq<Envelope>, at: seq<nat>,
                       missing': seq<Envelope>, at': seq<nat>)
    requires ExactlyUnlisted(es, known, missing, at) && ExactlyUnlisted(es, known, missing', at')
    ensures missing == missing'
  {
    forall k ensures k in at <==> k in at' {
      assert k in at ==> 0 <= k < |es|;
      assert k in at' ==> 0 <= k < |es|;
    }
    IncreasingUnique(at, at');
  }

  /** The reply is every held envelope under an unlisted prefix, unchanged and in order. */
  lemma {:induction false} UnknownInOrder(es: seq<Envelope>, known: seq<U32>) returns (at: seq<nat>)
    ensures ExactlyUnlisted(es, known, Unknown(es, known), at)
  {
    at := [];
    if es == [] {
    } else {
      var pre := es[..|es| - 1];
      at := UnknownInOrder(pre, known);
      UnknownSnoc(pre, es[|es| - 1], known);
      UnlistedSnoc(pre, es[|es| - 1], known, Unknown(pre, known), at);
      hide Unknown, ExactlyUnlisted;
      assert es == pre + [es[|es| - 1]];
      if Prefix4(es[|es| - 1].messageId) !in known { at := at + [|pre|]; }
    }
  }

  lemma {:induction false} UnknownSnoc(es: seq<Envelope>, e: Envelope, known: seq<U32>)
    ensures Unknown(es + [e], known)
         == if Prefix4(e.messageId) in known then Unknown(es, known) else Unknown(es, known) + [e]
  {
    if es == [] {
    } else {
      UnknownSnoc(es[1..], e, known);
      assert (es + [e])[1..] == es[1..] + [e];
    }
  }

  // ---- Bounded appending --------------------------------------------------------------------------

  /** The last `n` elements, or all of them. */
  ghost function LastN<T>(s: seq<T>, n: nat): seq<T>
  {
    if |s| <= n then s else s[|s| - n..]
  }

  ghost function Txs(es: seq<Envelope>): seq<ProtocolMessage>
  {
    seq(|es|, i requires 0 <= i < |es| => Transaction(es[i]))
  }

  lemma LastNCompose<T>(a: seq<T>, b: seq<T>, n: nat)
    ensures LastN(LastN(a, n) + b, n) == LastN(a + b, n)
  {
  }

  /** Adding envelopes one by one keeps exactly the newest 10 000 of the tier followed by the new ones. */
  lemma {:induction false} AddAllKeepsNewest(g: Gossip, es: seq<Envelope>)
    requires |g.tiers.normal| <= NORMAL_CAPACITY
    ensures AddAll(g, es) == g.(tiers := g.tiers.(normal := LastN(g.tiers.normal + Txs(es), NORMAL_CAPACITY)))
  {
    if es == [] {
      assert g.tiers.normal + Txs(es) == g.tiers.normal;
    } else {
      var pre, e := es[..|es| - 1], es[|es| - 1];
      AddAllKeepsNewest(g, pre);
      assert Txs(es) == Txs(pre) + [Transaction(e)];
      var before := g.tiers.normal + Txs(pre);
      assert g.tiers.normal + Txs(es) == before + [Transaction(e)];
      LastNCompose(before, [Transaction(e)], NORMAL_CAPACITY);
    }
  }

  // ---- Paced recovery -----------------------------------------------------------------------------

  ghost function RunPaced(g: Gossip, schedule: seq<nat>): Gossip
  {
    if schedule == [] then g else Paced(RunPaced(g, schedule[..|schedule| - 1]), schedule[|schedule| - 1])
  }

  ghost function Sum(schedule: seq<nat>): nat
  {
    if schedule == [] then 0 else Sum(schedule[..|schedule| - 1]) + schedule[|schedule| - 1]
  }

  lemma PacedMovesFront(g: Gossip, n: nat)
    requires |g.tiers.normal| <= NORMAL_CAPACITY
    ensures var k := Min(n, |g.backlog|);
            Paced(g, n) == Gossip(g.tiers.(normal := LastN(g.tiers.normal + Txs(g.backlog[..k]), NORMAL_CAPACITY)),
                                  g.backlog[k..])
  {
    var k := Min(n, |g.backlog|);
    AddAllKeepsNewest(g.(backlog := g.backlog[k..]), g.backlog[..k]);
  }

  /** The state after `k` backlog entries have been moved. */
  ghost function AfterMoving(g: Gossip, k: nat): Gossip
    requires k <= |g.backlog|
  {
    Gossip(g.tiers.(normal := LastN(g.tiers.normal + Txs(g.backlog[..k]), NORMAL_CAPACITY)), g.backlog[k..])
  }

  lemma AfterMovingFits(g: Gossip, k: nat)
    requires k <= |g.backlog|
    ensures |AfterMoving(g, k).tiers.normal| <= NORMAL_CAPACITY
  {
  }

  lemma PacedAfterMoving(g: Gossip, k: nat, n: nat)
    requires k <= |g.backlog|
    ensures Paced(AfterMoving(g, k), n) == AfterMoving(g, Min(k + n, |g.backlog|))
  {
    hide Paced, LastN, Txs;
    var k' := Min(n, |g.backlog| - k);
    AfterMovingFits(g, k);
    PacedMovesFront(AfterMoving(g, k), n);
    SliceOfSlice(g.backlog, k, k');
    MoreMoved(g.tiers.normal, g.backlog, k, k');
  }

  lemma SliceOfSlice<T>(s: seq<T>, k: nat, k': nat)
    requires k + k' <= |s|
    ensures s[k..][..k'] == s[k..k + k'] && s[k..][k'..] == s[k + k'..]
  {
  }

  lemma MovedNothing(g: Gossip)
    requires |g.tiers.normal| <= NORMAL_CAPACITY
    ensures AfterMoving(g, 0) == g
  {
    assert g.tiers.normal + Txs(g.backlog[..0]) == g.tiers.normal;
  }

  /** Any schedule of batch sizes: with `k` the total moved, the tier is the newest 10 000 of the old tier
      followed by the first `k` backlog entries, and the rest of the backlog waits in order. */
  lemma {:induction false} PacedSchedule(g: Gossip, schedule: seq<nat>)
    requires |g.tiers.normal| <= NORMAL_CAPACITY
    ensures RunPaced(g, schedule) == AfterMoving(g, Min(Sum(schedule), |g.backlog|))
  {
    hide AfterMoving, Paced;
    if schedule == [] {
      MovedNothing(g);
    } else {
      var pre, n := schedule[..|schedule| - 1], schedule[|schedule| - 1];
      PacedSchedule(g, pre);
      PacedAfterMoving(g, Min(Sum(pre), |g.backlog|), n);
    }
  }

  lemma MoreMoved(normal: seq<ProtocolMessage>, backlog: seq<Envelope>, k: nat, k': nat)
    requires k + k' <= |backlog|
    ensures LastN(LastN(normal + Txs(backlog[..k]), NORMAL_CAPACITY) + Txs(backlog[k..k + k']), NORMAL_CAPACITY)
         == LastN(normal + Txs(backlog[..k + k']), NORMAL_CAPACITY)
  {
    LastNCompose(normal + Txs(backlog[..k]), Txs(backlog[k..k + k']), NORMAL_CAPACITY);
    assert Txs(backlog[..k + k']) == Txs(backlog[..k]) + Txs(backlog[k..k + k']);
    assert normal + Txs(backlog[..k + k']) == (normal + Txs(backlog[..k])) + Txs(backlog[k..k + k']);
  }

  /** A large reply, paced to the end in any way, leaves the old tier followed by the reply stably sorted by
      timestamp; at every point tier and backlog together are that sequence (with room in the tier). */
  lemma MacroMergeCompletes(g: Gossip, reply: seq<Envelope>, schedule: seq<nat>)
    requires |reply| > MACRO_MERGE_THRESHOLD && |g.tiers.normal| + |reply| <= NORMAL_CAPACITY
    ensures var sorted := Sort(reply, TimestampKey());
            var g' := RunPaced(MergeReply(g, reply), schedule);
            && IsStableSort(reply, sorted, TimestampKey())
            && g'.tiers.normal + Txs(g'.backlog) == g.tiers.normal + Txs(sorted)
            && g'.tiers.high == g.tiers.high && g'.tiers.low == g.tiers.low
            && |g'.backlog| == |reply| - Min(Sum(schedule), |reply|)
  {
    var sorted := Sort(reply, TimestampKey());
    SortCorrect(reply, TimestampKey());
    hide RunPaced, Sort, WithKey, Sum, Txs, IsStableSort;
    PacedSchedule(MergeReply(g, reply), schedule);
    var k := Min(Sum(schedule), |sorted|);
    TierAndBacklog(g.tiers.normal, sorted, k);
  }

  lemma TierAndBacklog(normal: seq<ProtocolMessage>, sorted: seq<Envelope>, k: nat)
    requires k <= |sorted| && |normal| + |sorted| <= NORMAL_CAPACITY
    ensures LastN(normal + Txs(sorted[..k]), NORMAL_CAPACITY) + Txs(sorted[k..]) == normal + Txs(sorted)
  {
    assert Txs(sorted) == Txs(sorted[..k]) + Txs(sorted[k..]);
  }

  /** A second large reply discards what was still waiting of the first: run to completion, the tier gains
      the part already moved and the second reply, and nothing else. */
  lemma SecondMergeOverwrites(g: Gossip, reply: seq<Envelope>, schedule: seq<nat>, other: seq<Envelope>,
                              finish: seq<nat>)
    requires |reply| > MACRO_MERGE_THRESHOLD && |other| > MACRO_MERGE_THRESHOLD
    requires |g.tiers.normal| + |reply| + |other| <= NORMAL_CAPACITY && Sum(finish) >= |other|
    ensures var g' := RunPaced(MergeReply(RunPaced(MergeReply(g, reply), schedule), other), finish);
            && g'.backlog == []
            && g'.tiers.normal == g.tiers.normal + Txs(Sort(reply, TimestampKey())[..Min(Sum(schedule), |reply|)])
                                  + Txs(Sort(other, TimestampKey()))
  {
    var sorted, k := Sort(reply, TimestampKey()), Min(Sum(schedule), |reply|);
    SortCorrect(reply, TimestampKey());
    PacedSchedule(MergeReply(g, reply), schedule);
    var g1 := RunPaced(MergeReply(g, reply), schedule);
    assert g1.tiers.normal == g.tiers.normal + Txs(sorted[..k]);
    MacroMergeCompletes(g1, other, finish);
    var g' := RunPaced(MergeReply(g1, other), finish);
    assert g'.tiers.normal + Txs([]) == g'.tiers.normal;
  }

  // ---- The backlog of a large reply ---------------------------------------------------------------

  /** The envelopes of one timestamp, in order. */
  ghost function OfTime(es: seq<Envelope>, time: nat): seq<Envelope>
  {
    if es == [] then []
    else if es[0].timestamp == time then [es[0]] + OfTime(es[1..], time)
    else OfTime(es[1..], time)
  }

  lemma {:induction false} OfTimeIsWithKey(es: seq<Envelope>, time: nat)
    ensures OfTime(es, time) == WithKey(es, TimestampKey(), Finite(time))
  {
    if es == [] {
    } else {
      OfTimeIsWithKey(es[1..], time);
      assert TimestampKey()(es[0]) == Finite(es[0].timestamp);
    }
  }

  /** A reply of more than 500 envelopes changes only the backlog, which it replaces: the same envelopes, oldest
      first, those of one timestamp in the order of the reply. A smaller one leaves the backlog alone. */
  lemma LargeReplyOldestFirst(g: Gossip, reply: seq<Envelope>, time: nat)
    ensures var g' := MergeReply(g, reply);
            && (|reply| <= 500 ==> g'.backlog == g.backlog)
            && (|reply| > 500 ==>
                  && g'.tiers == g.tiers
                  && |g'.backlog| == |reply| && multiset(g'.backlog) == multiset(reply)
                  && (forall i, j :: 0 <= i < j < |reply| ==> g'.backlog[i].timestamp <= g'.backlog[j].timestamp)
                  && OfTime(g'.backlog, time) == OfTime(reply, time))
  {
    if |reply| <= MACRO_MERGE_THRESHOLD {
      AddAllKeepsBacklog(g, g.backlog, g.backlog, reply);
      assert g.(backlog := g.backlog) == g;
    } else {
      var key, sorted := TimestampKey(), Sort(reply, TimestampKey());
      SortCorrect(reply, key);
      OfTimeIsWithKey(sorted, time);
      OfTimeIsWithKey(reply, time);
      hide Sort, WithKey, OfTime;
      forall i, j | 0 <= i < j < |reply| ensures sorted[i].timestamp <= sorted[j].timestamp {
        assert Leq(key(sorted[i]), key(sorted[j]));
      }
    }
  }
}
