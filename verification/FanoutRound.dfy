/** One epidemic fanout round (`execute_fanout_round`, src/gossip/protocol.rs; src/gossip/fanout.rs). */
module FanoutRound {
  import opened Core
  import opened Messages
  import opened BloomFilter
  import opened PriorityQueue
  import opened GossipState

  const FANOUT_BATCH_SIZE := 32

  /** Number of recipients when the mesh size is unknown. */
  function FanoutTarget(active: nat): (n: nat)
    ensures n <= active && n <= 6 && (active > 0 ==> n > 0)
    ensures active <= 6 ==> n == active
    ensures active > 6 ==> n == 3
  {
    if active <= 2 then active else if active > 6 then Min(3, active) else active
  }

  datatype Verdict = Forwarded(outbound: Envelope) | SeenBefore | Expired

  function VerdictFor(f: Filter, e: Envelope): Verdict
  {
    if Seen(f, e.messageId) then SeenBefore
    else if e.ttl == 0 then Expired
    else Forwarded(e.(ttl := e.ttl - 1))
  }

  /** The filter after a batch; `hashes(k)` is what a rotation at the k-th envelope would draw. */
  function FilterAfter(f: Filter, capacity: nat, batch: seq<Envelope>, hashes: nat -> Hash): Filter
  {
    if batch == [] then f
    else
      var k := |batch| - 1;
      Added(FilterAfter(f, capacity, batch[..k], hashes), capacity, batch[k].messageId, hashes(k))
  }

  function Verdicts(f: Filter, capacity: nat, batch: seq<Envelope>, hashes: nat -> Hash): (vs: seq<Verdict>)
    ensures |vs| == |batch|
  {
    if batch == [] then []
    else
      var k := |batch| - 1;
      Verdicts(f, capacity, batch[..k], hashes)
      + [VerdictFor(FilterAfter(f, capacity, batch[..k], hashes), batch[k])]
  }

  datatype Tally = Tally(forwarded: nat, droppedBloom: nat, droppedTtl: nat)

  function TallyOf(vs: seq<Verdict>): Tally
  {
    if vs == [] then Tally(0, 0, 0)
    else
      var t := TallyOf(vs[..|vs| - 1]);
      match vs[|vs| - 1]
      case Forwarded(_) => t.(forwarded := t.forwarded + 1)
      case SeenBefore => t.(droppedBloom := t.droppedBloom + 1)
      case Expired => t.(droppedTtl := t.droppedTtl + 1)
  }

  /** Everything handed to the transport: each outbound copy to each recipient. */
  function Sends(vs: seq<Verdict>, recipients: seq<Key>): seq<(Key, Envelope)>
  {
    if vs == [] then []
    else
      var before := Sends(vs[..|vs| - 1], recipients);
      if vs[|vs| - 1].Forwarded? then before + ToEach(recipients, vs[|vs| - 1].outbound) else before
  }

  function ToEach(recipients: seq<Key>, e: Envelope): seq<(Key, Envelope)>
  {
    seq(|recipients|, i requires 0 <= i < |recipients| => (recipients[i], e))
  }

  /** The state after draining and the envelopes drained. */
  function TakeBatch(g: Gossip, now: nat): (Gossip, seq<Envelope>)
  {
    var (t, batch) := Drained(g.tiers, FANOUT_BATCH_SIZE, now);
    (g.(tiers := t), EnvelopesOf(batch))
  }

  /** What the random choice guarantees: distinct active peers, as many as the fanout target. */
  ghost predicate ValidRecipients(active: seq<Key>, recipients: seq<Key>)
  {
    && |recipients| == FanoutTarget(|active|)
    && (forall r :: r in recipients ==> r in active)
    && (forall i, j :: 0 <= i < j < |recipients| ==> recipients[i] != recipients[j])
  }

  /** The innermost loop: hand one copy to every recipient. */
  method SendToEach(recipients: seq<Key>, e: Envelope) returns (sends: seq<(Key, Envelope)>)
    ensures sends == ToEach(recipients, e)
  {
    sends := [];
    for i := 0 to |recipients|
      invariant sends == ToEach(recipients[..i], e)
    {
      assert ToEach(recipients[..i + 1], e) == ToEach(recipients[..i], e) + [(recipients[i], e)];
      sends := sends + [(recipients[i], e)];
    }
    assert recipients[..|recipients|] == recipients;
  }

  /** One envelope of the round: consult the filter, enforce the ttl, decrement it on the outbound copy. */
  method Judge(bloom: SlidingBloomFilter, env: Envelope, h: Hash) returns (v: Verdict)
    modifies bloom
    ensures v == VerdictFor(old(bloom.View()), env)
    ensures bloom.View() == Added(old(bloom.View()), bloom.capacity, env.messageId, h)
  {
    var seen := bloom.CheckAndAdd(env.messageId, h);
    if seen { return SeenBefore; }
    if env.ttl == 0 { return Expired; }
    return Forwarded(env.(ttl := env.ttl - 1));
  }

  /** The loop over the drained batch. */
  method ForwardBatch(bloom: SlidingBloomFilter, batch: seq<Envelope>, recipients: seq<Key>, hashes: nat -> Hash)
    returns (sends: seq<(Key, Envelope)>, tally: Tally)
    modifies bloom
    ensures var vs := Verdicts(old(bloom.View()), bloom.capacity, batch, hashes);
            && bloom.View() == FilterAfter(old(bloom.View()), bloom.capacity, batch, hashes)
            && sends == Sends(vs, recipients) && tally == TallyOf(vs)
  {
    sends, tally := [], Tally(0, 0, 0);
    ghost var f, capacity := bloom.View(), bloom.capacity;
    for k := 0 to |batch|
      invariant bloom.View() == FilterAfter(f, capacity, batch[..k], hashes)
      invariant sends == Sends(Verdicts(f, capacity, batch[..k], hashes), recipients)
      invariant tally == TallyOf(Verdicts(f, capacity, batch[..k], hashes))
    {
      VerdictsSnoc(f, capacity, batch, k, hashes, recipients);
      var v := Judge(bloom, batch[k], hashes(k));
      match v {
        case SeenBefore => tally := tally.(droppedBloom := tally.droppedBloom + 1);
        case Expired => tally := tally.(droppedTtl := tally.droppedTtl + 1);
        case Forwarded(outbound) =>
          var copies := SendToEach(recipients, outbound);
          sends := sends + copies;
          tally := tally.(forwarded := tally.forwarded + 1);
      }
    }
    assert batch[..|batch|] == batch;
  }

  method ExecuteFanoutRound(state: GossipState, bloom: SlidingBloomFilter, active: seq<Key>, recipients: seq<Key>,
                            now: nat, hashes: nat -> Hash)
    returns (sends: seq<(Key, Envelope)>, tally: Tally)
    requires ValidRecipients(active, recipients)
    modifies state.activeQueue, bloom
    ensures active == [] ==> sends == [] && tally == Tally(0, 0, 0)
                             && state.View() == old(state.View()) && bloom.View() == old(bloom.View())
    ensures active != [] ==>
              var (g, batch) := TakeBatch(old(state.View()), now);
              var vs := Verdicts(old(bloom.View()), bloom.capacity, batch, hashes);
              && state.View() == g
              && bloom.View() == FilterAfter(old(bloom.View()), bloom.capacity, batch, hashes)
              && sends == Sends(vs, recipients) && tally == TallyOf(vs)
  {
    if active == [] { return [], Tally(0, 0, 0); }
    var drained := state.activeQueue.DrainBatch(FANOUT_BATCH_SIZE, now);
    var batch := EnvelopesOf(drained);
    sends, tally := ForwardBatch(bloom, batch, recipients, hashes);
  }

  lemma VerdictsSnoc(f: Filter, capacity: nat, batch: seq<Envelope>, k: nat, hashes: nat -> Hash, recipients: seq<Key>)
    requires k < |batch|
    ensures var f' := FilterAfter(f, capacity, batch[..k], hashes);
            var vs, vs' := Verdicts(f, capacity, batch[..k], hashes), Verdicts(f, capacity, batch[..k + 1], hashes);
            && FilterAfter(f, capacity, batch[..k + 1], hashes) == Added(f', capacity, batch[k].messageId, hashes(k))
            && vs' == vs + [VerdictFor(f', batch[k])]
            && vs'[..k] == vs
  {
    assert batch[..k + 1][..k] == batch[..k];
  }

  // ---- Accounting ---------------------------------------------------------------------------------

  lemma {:induction false} TallyAddsUp(vs: seq<Verdict>)
    ensures TallyOf(vs).forwarded + TallyOf(vs).droppedBloom + TallyOf(vs).droppedTtl == |vs|
  {
    if vs == [] {
    } else {
      TallyAddsUp(vs[..|vs| - 1]);
    }
  }

  /** Each round: what is drained, min(32, held), equals forwarded plus dropped as seen plus dropped as expired. */
  lemma RoundAccounting(g: Gossip, f: Filter, capacity: nat, now: nat, hashes: nat -> Hash)
    requires TiersValid(g.tiers)
    ensures var (g', batch) := TakeBatch(g, now);
            var t := TallyOf(Verdicts(f, capacity, batch, hashes));
            && t.forwarded + t.droppedBloom + t.droppedTtl == |batch| == |g.tiers.normal| - |g'.tiers.normal|
            && |batch| == Min(32, |g.tiers.normal|)
  {
    var (g', batch) := TakeBatch(g, now);
    DrainedAreTransactions(g.tiers, FANOUT_BATCH_SIZE, now);
    EnvelopeOfEach(Drained(g.tiers, FANOUT_BATCH_SIZE, now).1);
    TallyAddsUp(Verdicts(f, capacity, batch, hashes));
  }

  /** What a round takes: the most urgent envelopes held, most urgent first, and nothing else changes. */
  lemma BatchIsMostUrgent(g: Gossip, now: nat, score: int)
    requires TiersValid(g.tiers)
    ensures var (g', batch) := TakeBatch(g, now);
            var all := Txs(batch) + g'.tiers.normal;
            && multiset(all) == multiset(g.tiers.normal)
            && (forall i, j :: 0 <= i < j < |all| ==> UrgencyScore(all[i], now) >= UrgencyScore(all[j], now))
            && OfScore(all, score, now) == OfScore(g.tiers.normal, score, now)
            && g' == g.(tiers := g.tiers.(normal := g'.tiers.normal))
  {
    var (t, batch) := Drained(g.tiers, FANOUT_BATCH_SIZE, now);
    DrainedAreTransactions(g.tiers, FANOUT_BATCH_SIZE, now);
    DrainTakesMostUrgent(g.tiers, FANOUT_BATCH_SIZE, now, score);
    EnvelopeOfEach(batch);
    hide EnvelopesOf, OfScore, UrgencyScore;
    assert Txs(EnvelopesOf(batch)) == batch;
  }

  // ---- Pushes and the filter ----------------------------------------------------------------------

  /** Which insertion of the filter each forwarded envelope is. */
  ghost function PushIndices(f: Filter, capacity: nat, batch: seq<Envelope>, hashes: nat -> Hash): seq<nat>
  {
    if batch == [] then []
    else
      var k := |batch| - 1;
      var before := PushIndices(f, capacity, batch[..k], hashes);
      var f' := FilterAfter(f, capacity, batch[..k], hashes);
      if VerdictFor(f', batch[k]).Forwarded? then before + [|f'.inserted|] else before
  }

  /** The outbound copies, in order. */
  ghost function Outbound(vs: seq<Verdict>): seq<Envelope>
  {
    if vs == [] then []
    else if vs[|vs| - 1].Forwarded? then Outbound(vs[..|vs| - 1]) + [vs[|vs| - 1].outbound]
    else Outbound(vs[..|vs| - 1])
  }

  /** Pushes `out` are insertions `at` of the filter history, in order, all from position `lo` on. */
  ghost predicate PushesMatch(inserted: seq<Key>, out: seq<Envelope>, at: seq<nat>, lo: nat)
  {
    && |out| == |at|
    && (forall k :: 0 <= k < |at| ==> lo <= at[k] < |inserted| && inserted[at[k]] == out[k].messageId)
    && (forall j, k :: 0 <= j < k < |at| ==> at[j] < at[k])
  }

  lemma PushesGrow(inserted: seq<Key>, inserted': seq<Key>, out: seq<Envelope>, at: seq<nat>, lo: nat)
    requires PushesMatch(inserted, out, at, lo) && inserted <= inserted'
    ensures PushesMatch(inserted', out, at, lo)
  {
  }

  lemma OneMorePush(inserted: seq<Key>, out: seq<Envelope>, at: seq<nat>, lo: nat, e: Envelope)
    requires PushesMatch(inserted, out, at, lo) && lo <= |inserted|
    ensures PushesMatch(inserted + [e.messageId], out + [e], at + [|inserted|], lo)
  {
  }

  lemma {:induction false} PushesAreInsertions(f: Filter, capacity: nat, batch: seq<Envelope>, hashes: nat -> Hash)
    ensures var f' := FilterAfter(f, capacity, batch, hashes);
            && f.inserted <= f'.inserted
            && PushesMatch(f'.inserted, Outbound(Verdicts(f, capacity, batch, hashes)),
                           PushIndices(f, capacity, batch, hashes), |f.inserted|)
  {
    if batch == [] {
    } else {
      var k, lo := |batch| - 1, |f.inserted|;
      PushesAreInsertions(f, capacity, batch[..k], hashes);
      var vs, f' := Verdicts(f, capacity, batch, hashes), FilterAfter(f, capacity, batch[..k], hashes);
      assert vs[..k] == Verdicts(f, capacity, batch[..k], hashes);
      var out, at := Outbound(vs[..k]), PushIndices(f, capacity, batch[..k], hashes);
      PushesGrow(f'.inserted, Added(f', capacity, batch[k].messageId, hashes(k)).inserted, out, at, lo);
      hide PushesMatch;
      if vs[k].Forwarded? { OneMorePush(f'.inserted, out, at, lo, vs[k].outbound); }
    }
  }

  lemma {:induction false} FilterAfterKeepsInv(f: Filter, capacity: nat, batch: seq<Envelope>, hashes: nat -> Hash)
    requires FilterInv(f, capacity)
    ensures FilterInv(FilterAfter(f, capacity, batch, hashes), capacity)
  {
    if batch == [] {
    } else {
      var k := |batch| - 1;
      FilterAfterKeepsInv(f, capacity, batch[..k], hashes);
      AddedKeepsInv(FilterAfter(f, capacity, batch[..k], hashes), capacity, batch[k].messageId, hashes(k));
    }
  }

  /** Every send carries an envelope of the batch with one hop less, to a recipient. */
  lemma {:induction false} SendsComeFromBatch(f: Filter, capacity: nat, batch: seq<Envelope>, hashes: nat -> Hash,
                                              recipients: seq<Key>, to: Key, e: Envelope)
    requires (to, e) in Sends(Verdicts(f, capacity, batch, hashes), recipients)
    ensures to in recipients
    ensures exists k :: 0 <= k < |batch| && batch[k].ttl > 0 && e == batch[k].(ttl := batch[k].ttl - 1)
  {
    var k := |batch| - 1;
    if batch == [] {
    } else {
      var vs := Verdicts(f, capacity, batch, hashes);
      assert vs[..k] == Verdicts(f, capacity, batch[..k], hashes);
      if (to, e) in Sends(vs[..k], recipients) {
        SendsComeFromBatch(f, capacity, batch[..k], hashes, recipients, to, e);
        var j :| 0 <= j < k && batch[..k][j].ttl > 0 && e == batch[..k][j].(ttl := batch[..k][j].ttl - 1);
        assert batch[j].ttl > 0 && e == batch[j].(ttl := batch[j].ttl - 1);
      } else {
        assert batch[k].ttl > 0 && e == batch[k].(ttl := batch[k].ttl - 1);
      }
    }
  }

  // ---- What a round does with each envelope -------------------------------------------------------

  /** The verdict on the `k`-th envelope, by the filter as the earlier ones have left it: dropped as seen exactly if
      the filter reports it, forwarded exactly if it does not and hops are left, with one hop less. */
  lemma {:induction false} VerdictIff(f: Filter, capacity: nat, batch: seq<Envelope>, hashes: nat -> Hash, k: nat)
    requires k < |batch|
    ensures var v := Verdicts(f, capacity, batch, hashes)[k];
            var seen := Seen(FilterAfter(f, capacity, batch[..k], hashes), batch[k].messageId);
            && (v.SeenBefore? <==> seen)
            && (v.Forwarded? <==> !seen && batch[k].ttl > 0)
            && (v.Forwarded? ==> v.outbound == batch[k].(ttl := batch[k].ttl - 1))
    decreases |batch|
  {
    var last := |batch| - 1;
    if k == last {
    } else {
      hide FilterAfter, VerdictFor, Seen;
      VerdictIff(f, capacity, batch[..last], hashes, k);
      assert batch[..last][..k] == batch[..k];
    }
  }

  /** The filter after one more envelope: the id is recorded exactly if it was not seen, hops left or not. */
  lemma RoundRecords(f: Filter, capacity: nat, batch: seq<Envelope>, hashes: nat -> Hash, k: nat)
    requires k < |batch|
    ensures var before := FilterAfter(f, capacity, batch[..k], hashes);
            var after := FilterAfter(f, capacity, batch[..k + 1], hashes);
            after.inserted == if Seen(before, batch[k].messageId) then before.inserted
                              else before.inserted + [batch[k].messageId]
  {
    assert batch[..k + 1][..k] == batch[..k];
  }

  ghost predicate SentTo(vs: seq<Verdict>, recipients: seq<Key>, to: Key, e: Envelope)
  {
    exists i, k :: 0 <= i < |recipients| && 0 <= k < |vs| && vs[k].Forwarded?
                   && recipients[i] == to && vs[k].outbound == e
  }

  lemma {:induction false} SendsMeaning(vs: seq<Verdict>, recipients: seq<Key>, to: Key, e: Envelope)
    ensures (to, e) in Sends(vs, recipients) <==> SentTo(vs, recipients, to, e)
  {
    if vs == [] {
    } else {
      var pre, v := vs[..|vs| - 1], vs[|vs| - 1];
      SendsMeaning(pre, recipients, to, e);
      SentToSnoc(pre, v, recipients, to, e);
      assert vs == pre + [v];
      hide SentTo;
      if v.Forwarded? { ToEachMeaning(recipients, v.outbound, to, e); }
    }
  }

  lemma ToEachMeaning(recipients: seq<Key>, outbound: Envelope, to: Key, e: Envelope)
    ensures (to, e) in ToEach(recipients, outbound) <==> to in recipients && e == outbound
  {
    if to in recipients && e == outbound {
      var i :| 0 <= i < |recipients| && recipients[i] == to;
      assert ToEach(recipients, outbound)[i] == (to, e);
    }
  }

  lemma SentToSnoc(vs: seq<Verdict>, v: Verdict, recipients: seq<Key>, to: Key, e: Envelope)
    ensures SentTo(vs + [v], recipients, to, e)
        <==> SentTo(vs, recipients, to, e) || (v.Forwarded? && to in recipients && v.outbound == e)
  {
    var all := vs + [v];
    if SentTo(vs, recipients, to, e) {
      var i, k :| 0 <= i < |recipients| && 0 <= k < |vs| && vs[k].Forwarded?
                  && recipients[i] == to && vs[k].outbound == e;
      assert all[k] == vs[k];
    } else if v.Forwarded? && to in recipients && v.outbound == e {
      var i :| 0 <= i < |recipients| && recipients[i] == to;
      assert all[|vs|] == v;
    }
  }

  lemma {:induction false} ForwardedIsPushed(vs: seq<Verdict>, k: nat)
    requires k < |vs| && vs[k].Forwarded?
    ensures vs[k].outbound in Outbound(vs)
    decreases |vs|
  {
    if k == |vs| - 1 {
    } else {
      ForwardedIsPushed(vs[..|vs| - 1], k);
    }
  }

  /** What a round records as pushed: the copies it forwards, and as many as it counts. */
  lemma {:induction false} OutboundMeaning(vs: seq<Verdict>, e: Envelope)
    ensures e in Outbound(vs) <==> exists k :: 0 <= k < |vs| && vs[k].Forwarded? && vs[k].outbound == e
    ensures |Outbound(vs)| == TallyOf(vs).forwarded
  {
    if vs == [] {
    } else {
      var pre, last := vs[..|vs| - 1], |vs| - 1;
      OutboundMeaning(pre, e);
      if e in Outbound(pre) {
        var k :| 0 <= k < last && pre[k].Forwarded? && pre[k].outbound == e;
        assert vs[k] == pre[k];
      } else if k :| 0 <= k < |vs| && vs[k].Forwarded? && vs[k].outbound == e {
        assert k < last ==> pre[k] == vs[k];
      }
    }
  }

  /** What a round sends: to every recipient, and to nobody else, exactly the envelopes that the filter did not report
      and that had hops left, with one hop less. */
  lemma ForwardedIff(f: Filter, capacity: nat, batch: seq<Envelope>, hashes: nat -> Hash, recipients: seq<Key>,
                     to: Key, e: Envelope)
    ensures (to, e) in Sends(Verdicts(f, capacity, batch, hashes), recipients)
        <==> to in recipients
             && exists k :: 0 <= k < |batch| && batch[k].ttl > 0 && e == batch[k].(ttl := batch[k].ttl - 1)
                            && !Seen(FilterAfter(f, capacity, batch[..k], hashes), batch[k].messageId)
  {
    var vs := Verdicts(f, capacity, batch, hashes);
    SendsMeaning(vs, recipients, to, e);
    forall k | 0 <= k < |batch|
      ensures vs[k].Forwarded? && vs[k].outbound == e
          <==> batch[k].ttl > 0 && e == batch[k].(ttl := batch[k].ttl - 1)
               && !Seen(FilterAfter(f, capacity, batch[..k], hashes), batch[k].messageId)
    {
      VerdictIff(f, capacity, batch, hashes, k);
    }
    hide Verdicts, FilterAfter, Seen, Sends;
    if to in recipients {
      var i :| 0 <= i < |recipients| && recipients[i] == to;
    }
  }

  /** Each forwarded envelope is sent once to each recipient. */
  lemma {:induction false} SendsCount(vs: seq<Verdict>, recipients: seq<Key>)
    ensures |Sends(vs, recipients)| == TallyOf(vs).forwarded * |recipients|
  {
    if vs == [] {
    } else {
      SendsCount(vs[..|vs| - 1], recipients);
      OneMore(TallyOf(vs[..|vs| - 1]).forwarded, |recipients|);
    }
  }

  lemma OneMore(a: nat, b: nat)
    ensures (a + 1) * b == a * b + b
  {
  }

  ghost function SeenOnes(vs: seq<Verdict>): set<nat>
  {
    set k: nat | k < |vs| && vs[k].SeenBefore?
  }

  ghost function ExpiredOnes(vs: seq<Verdict>): set<nat>
  {
    set k: nat | k < |vs| && vs[k].Expired?
  }

  lemma OnesSnoc(vs: seq<Verdict>, v: Verdict)
    ensures SeenOnes(vs + [v]) == if v.SeenBefore? then SeenOnes(vs) + {|vs|} else SeenOnes(vs)
    ensures ExpiredOnes(vs + [v]) == if v.Expired? then ExpiredOnes(vs) + {|vs|} else ExpiredOnes(vs)
    ensures |vs| !in SeenOnes(vs) && |vs| !in ExpiredOnes(vs)
  {
  }

  lemma {:induction false} TallyMeaning(vs: seq<Verdict>)
    ensures TallyOf(vs).droppedBloom == |SeenOnes(vs)| && TallyOf(vs).droppedTtl == |ExpiredOnes(vs)|
  {
    if vs == [] {
    } else {
      var pre, v := vs[..|vs| - 1], vs[|vs| - 1];
      TallyMeaning(pre);
      OnesSnoc(pre, v);
      assert vs == pre + [v];
      hide SeenOnes, ExpiredOnes;
    }
  }

  /** The filter, as the earlier envelopes have left it, reports the `k`-th one. */
  ghost predicate ReportedAt(f: Filter, capacity: nat, batch: seq<Envelope>, hashes: nat -> Hash, k: nat)
    requires k < |batch|
  {
    Seen(FilterAfter(f, capacity, batch[..k], hashes), batch[k].messageId)
  }

  ghost function Reported(f: Filter, capacity: nat, batch: seq<Envelope>, hashes: nat -> Hash): set<nat>
  {
    set k: nat | k < |batch| && ReportedAt(f, capacity, batch, hashes, k)
  }

  ghost function OutOfHops(f: Filter, capacity: nat, batch: seq<Envelope>, hashes: nat -> Hash): set<nat>
  {
    set k: nat | k < |batch| && !ReportedAt(f, capacity, batch, hashes, k) && batch[k].ttl == 0
  }

  lemma DropsMeaning(f: Filter, capacity: nat, batch: seq<Envelope>, hashes: nat -> Hash)
    ensures var vs := Verdicts(f, capacity, batch, hashes);
            && SeenOnes(vs) == Reported(f, capacity, batch, hashes)
            && ExpiredOnes(vs) == OutOfHops(f, capacity, batch, hashes)
  {
    var vs := Verdicts(f, capacity, batch, hashes);
    forall k: nat | k < |batch|
      ensures vs[k].SeenBefore? <==> ReportedAt(f, capacity, batch, hashes, k)
      ensures vs[k].Expired? <==> !ReportedAt(f, capacity, batch, hashes, k) && batch[k].ttl == 0
    {
      VerdictIff(f, capacity, batch, hashes, k);
    }
    hide Verdicts, ReportedAt;
  }

  /** The counters of a round: the envelopes the filter reported, the others without hops left, and the rest. */
  lemma RoundCounts(f: Filter, capacity: nat, batch: seq<Envelope>, hashes: nat -> Hash)
    ensures var t := TallyOf(Verdicts(f, capacity, batch, hashes));
            && t.droppedBloom == |Reported(f, capacity, batch, hashes)|
            && t.droppedTtl == |OutOfHops(f, capacity, batch, hashes)|
            && t.forwarded == |batch| - t.droppedBloom - t.droppedTtl
  {
    var vs := Verdicts(f, capacity, batch, hashes);
    TallyMeaning(vs);
    TallyAddsUp(vs);
    DropsMeaning(f, capacity, batch, hashes);
    hide *;
  }
}
