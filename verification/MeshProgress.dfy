/** What a mesh can achieve: what each step adds, that a push can arrive at any later time, that three packets make a
    sync exchange, and that a message can travel as many hops as its ttl (src/gossip/protocol.rs). */
module MeshProgress {
  import opened Core
  import opened Messages
  import opened StableSort
  import B = BloomFilter
  import Q = PriorityQueue
  import opened GossipState
  import opened FanoutRound
  import opened Mesh
  import opened SyncExchange

  // ---- What a step adds ---------------------------------------------------------------------------

  /** What a round adds to the network: the drained envelopes that the node's filter does not report and that have
      hops left, with one hop less, to every recipient; nothing else. */
  lemma RoundSends(m: Mesh, capacity: nat, n: Key, recipients: seq<Key>, now: nat, hashes: nat -> B.Hash, p: Packet)
    requires n in m.nodes
    ensures var batch := TakeBatch(m.nodes[n].gossip, now).1;
            p in Step(m, capacity, Round(n, recipients, now, hashes)).net
            <==> p in m.net || (p.TxPacket? && p.to in recipients && exists k ::
                   0 <= k < |batch| && batch[k].ttl > 0 && p.envelope == batch[k].(ttl := batch[k].ttl - 1)
                   && !B.Seen(FilterAfter(m.nodes[n].filter, capacity, batch[..k], hashes), batch[k].messageId))
  {
    var batch := TakeBatch(m.nodes[n].gossip, now).1;
    if p.TxPacket? {
      ForwardedIff(m.nodes[n].filter, capacity, batch, hashes, recipients, p.to, p.envelope);
    }
    hide TakeBatch, FilterAfter, B.Seen, Verdicts, Sends;
    PacketsOf(Sends(Verdicts(m.nodes[n].filter, capacity, batch, hashes), recipients), p);
  }

  /** The `k`-th envelope of the batch is unreported by the filter as the earlier ones left it, and has hops left. */
  ghost predicate Goes(f: B.Filter, capacity: nat, batch: seq<Envelope>, hashes: nat -> B.Hash, k: nat)
    requires k < |batch|
  {
    batch[k].ttl > 0 && !B.Seen(FilterAfter(f, capacity, batch[..k], hashes), batch[k].messageId)
  }

  lemma GoesIff(f: B.Filter, capacity: nat, batch: seq<Envelope>, hashes: nat -> B.Hash)
    ensures var vs := Verdicts(f, capacity, batch, hashes);
            forall k: nat :: k < |batch| ==>
              && (vs[k].Forwarded? <==> Goes(f, capacity, batch, hashes, k))
              && (vs[k].Forwarded? ==> vs[k].outbound == batch[k].(ttl := batch[k].ttl - 1))
  {
    var vs := Verdicts(f, capacity, batch, hashes);
    forall k: nat | k < |batch|
      ensures vs[k].Forwarded? <==> Goes(f, capacity, batch, hashes, k)
      ensures vs[k].Forwarded? ==> vs[k].outbound == batch[k].(ttl := batch[k].ttl - 1)
    {
      VerdictIff(f, capacity, batch, hashes, k);
    }
  }

  /** What a round records as pushed by the node: the copies it sends. */
  lemma RoundPushes(m: Mesh, capacity: nat, n: Key, recipients: seq<Key>, now: nat, hashes: nat -> B.Hash, e: Envelope)
    requires n in m.nodes
    ensures var f, batch := m.nodes[n].filter, TakeBatch(m.nodes[n].gossip, now).1;
            var m' := Step(m, capacity, Round(n, recipients, now, hashes));
            e in m'.nodes[n].pushed <==> e in m.nodes[n].pushed || exists k: nat ::
              k < |batch| && Goes(f, capacity, batch, hashes, k) && e == batch[k].(ttl := batch[k].ttl - 1)
  {
    var f, batch := m.nodes[n].filter, TakeBatch(m.nodes[n].gossip, now).1;
    GoesIff(f, capacity, batch, hashes);
    OutboundMeaning(Verdicts(f, capacity, batch, hashes), e);
    hide TakeBatch, FilterAfter, Goes, Verdicts, Sends, Outbound, PushIndices, HopsOf;
  }

  /** What it adds to the history: a push hop for each of them. */
  lemma RoundHops(m: Mesh, capacity: nat, n: Key, recipients: seq<Key>, now: nat, hashes: nat -> B.Hash, hop: Hop)
    requires n in m.nodes
    ensures var f, batch := m.nodes[n].filter, TakeBatch(m.nodes[n].gossip, now).1;
            var m' := Step(m, capacity, Round(n, recipients, now, hashes));
            hop in m'.history.pushes <==> hop in m.history.pushes || exists k: nat ::
              k < |batch| && Goes(f, capacity, batch, hashes, k)
              && hop == Hop(batch[k], batch[k].(ttl := batch[k].ttl - 1))
  {
    var f, batch := m.nodes[n].filter, TakeBatch(m.nodes[n].gossip, now).1;
    GoesIff(f, capacity, batch, hashes);
    HopsMeaning(batch, Verdicts(f, capacity, batch, hashes), hop);
    hide TakeBatch, FilterAfter, Goes, Verdicts, Sends, Outbound, PushIndices, HopsOf;
  }

  lemma HopsMeaning(batch: seq<Envelope>, vs: seq<Verdict>, hop: Hop)
    requires |batch| == |vs|
    ensures hop in HopsOf(batch, vs)
        <==> exists k: nat :: k < |vs| && vs[k].Forwarded? && hop == Hop(batch[k], vs[k].outbound)
  {
  }

  lemma PacketsOf(sends: seq<(Key, Envelope)>, p: Packet)
    ensures p in (set s | s in sends :: TxPacket(s.0, s.1)) <==> p.TxPacket? && (p.to, p.envelope) in sends
  {
    if p.TxPacket? && (p.to, p.envelope) in sends {
      var s := (p.to, p.envelope);
      assert s in sends && p == TxPacket(s.0, s.1);
    }
  }

  /** The node an event happens at. */
  ghost function Place(ev: Event): Key
  {
    match ev
    case DeliverTx(p) => p.to
    case DeliverRequest(p) => p.to
    case DeliverReply(p) => p.to
    case Join(n, _, _) => n
    case Originate(n, _) => n
    case Round(n, _, _, _) => n
    case RequestSync(n, _) => n
    case PaceBacklog(n, _) => n
  }

  /** A step happens at one node; packets and nodes are never lost. */
  lemma StepIsLocal(m: Mesh, capacity: nat, ev: Event)
    ensures var m' := Step(m, capacity, ev);
            && m.net <= m'.net
            && (forall n :: n in m.nodes ==> n in m'.nodes)
            && (forall n :: n in m'.nodes && n != Place(ev) ==> n in m.nodes && m'.nodes[n] == m.nodes[n])
  {
    hide Verdicts, FilterAfter, Sends, TakeBatch, WithEnvelope, MergeReply, Paced, SyncReply, KnownPrefixes, HopsOf,
         Outbound, PushIndices, B.NewFilter;
  }

  lemma {:induction false} NothingIsLost(capacity: nat, evs: seq<Event>, i: nat)
    requires i <= |evs|
    ensures Run(capacity, evs[..i]).net <= Run(capacity, evs).net
    ensures forall n :: n in Run(capacity, evs[..i]).nodes ==> n in Run(capacity, evs).nodes
    decreases |evs|
  {
    if i == |evs| {
      assert evs[..i] == evs;
    } else {
      var pre := evs[..|evs| - 1];
      NothingIsLost(capacity, pre, i);
      assert pre[..i] == evs[..i];
      StepIsLocal(Run(capacity, pre), capacity, evs[|evs| - 1]);
      hide Step;
    }
  }

  // ---- Pushes -------------------------------------------------------------------------------------

  /** What the arrival of a pushed copy does: the receiver holds it as its newest normal message, and at most its front
      message makes room. */
  lemma ArrivalIsHeld(m: Mesh, capacity: nat, p: Packet)
    requires p in m.net && p.TxPacket? && p.to in m.nodes
    ensures var g, g' := m.nodes[p.to].gossip, Step(m, capacity, DeliverTx(p)).nodes[p.to].gossip;
            && Holds(g', p.envelope)
            && g'.tiers.normal == (if |g.tiers.normal| < 10_000 then g.tiers.normal else g.tiers.normal[1..])
                                  + [Transaction(p.envelope)]
            && g' == g.(tiers := g.tiers.(normal := g'.tiers.normal))
  {
    var normal := WithEnvelope(m.nodes[p.to].gossip, p.envelope).tiers.normal;
    assert normal[|normal| - 1] == Transaction(p.envelope);
  }

  /** In every run: whatever a round takes from the queue, unreported by the filter and with hops left, can reach every
      recipient that has joined by then, at any later time. The receiver then holds it with one hop less. */
  lemma PushCanAlwaysArrive(capacity: nat, evs: seq<Event>, i: nat, k: nat, to: Key)
    requires i < |evs| && evs[i].Round? && evs[i].node in Run(capacity, evs[..i]).nodes
    requires to in evs[i].recipients && to in Run(capacity, evs).nodes
    requires var node := Run(capacity, evs[..i]).nodes[evs[i].node];
             var batch := TakeBatch(node.gossip, evs[i].now).1;
             && k < |batch| && batch[k].ttl > 0
             && !B.Seen(FilterAfter(node.filter, capacity, batch[..k], evs[i].hashes), batch[k].messageId)
    ensures var e := TakeBatch(Run(capacity, evs[..i]).nodes[evs[i].node].gossip, evs[i].now).1[k];
            var arrived := Step(Run(capacity, evs), capacity, DeliverTx(TxPacket(to, e.(ttl := e.ttl - 1))));
            Holds(arrived.nodes[to].gossip, e.(ttl := e.ttl - 1))
  {
    var m := Run(capacity, evs[..i]);
    var e := TakeBatch(m.nodes[evs[i].node].gossip, evs[i].now).1[k];
    var p := TxPacket(to, e.(ttl := e.ttl - 1));
    RoundSends(m, capacity, evs[i].node, evs[i].recipients, evs[i].now, evs[i].hashes, p);
    assert evs[..i + 1][..i] == evs[..i];
    assert Run(capacity, evs[..i + 1]) == Step(m, capacity, evs[i]);
    NothingIsLost(capacity, evs, i + 1);
    hide Run, TakeBatch, FilterAfter, B.Seen, AfterRound;
    ArrivalIsHeld(Run(capacity, evs), capacity, p);
  }

  // ---- Exchanges ----------------------------------------------------------------------------------

  /** The steps of an exchange: the request, its delivery, the delivery of the reply, and the paced batches. */
  ghost function AfterExchange(m: Mesh, capacity: nat, a: Key, b: Key, schedule: seq<nat>): Mesh
    requires a in m.nodes && b in m.nodes
  {
    if schedule != [] then
      Step(AfterExchange(m, capacity, a, b, schedule[..|schedule| - 1]), capacity,
           PaceBacklog(a, schedule[|schedule| - 1]))
    else
      var request := RequestPacket(b, a, KnownPrefixes(m.nodes[a].gossip));
      var reply := ReplyPacket(a, SyncReply(m.nodes[b].gossip, request.known));
      var m1 := Step(m, capacity, RequestSync(a, b));
      var m2 := Step(m1, capacity, DeliverRequest(request));
      Step(m2, capacity, DeliverReply(reply))
  }

  /** In the mesh these steps give the requester what an exchange of two nodes gives it, and change no other node. */
  lemma {:induction false} ExchangeInMesh(m: Mesh, capacity: nat, a: Key, b: Key, schedule: seq<nat>)
    requires a in m.nodes && b in m.nodes
    ensures var m' := AfterExchange(m, capacity, a, b, schedule);
            && m'.nodes.Keys == m.nodes.Keys
            && (forall n :: n in m.nodes && n != a ==> m'.nodes[n] == m.nodes[n])
            && m'.nodes[a] == m.nodes[a].(gossip := Exchanged(m.nodes[a].gossip, m.nodes[b].gossip, schedule))
  {
    hide KnownPrefixes, SyncReply, MergeReply, Paced;
    if schedule == [] {
    } else {
      ExchangeInMesh(m, capacity, a, b, schedule[..|schedule| - 1]);
    }
  }

  // ---- The push bound is reached ------------------------------------------------------------------

  /** The hash functions of the run below send every id to one position. */
  const ONE_BIT: B.Hash := (id: Key) => {0}

  ghost function Waiting(e: Envelope): Gossip
  {
    Gossip(Q.Tiers([], [Transaction(e)], []), [])
  }

  /** Nodes 0 to `k` have joined, and the last one, with an empty filter, holds `e` only. */
  ghost predicate Reached(m: Mesh, k: nat, e: Envelope)
  {
    && (forall n :: n in m.nodes ==> n <= k)
    && k in m.nodes && m.nodes[k].gossip == Waiting(e) && m.nodes[k].filter == B.NewFilter(ONE_BIT, ONE_BIT)
  }

  lemma SingleBatch(e: Envelope, now: nat)
    ensures TakeBatch(Waiting(e), now).1 == [e]
  {
    var all := Sort([Transaction(e)], Q.UrgencyKey(now));
    SortCorrect([Transaction(e)], Q.UrgencyKey(now));
    assert |multiset(all)| == 1;
    assert all[0] in multiset(all);
    assert all == [Transaction(e)] && all[..1] == all;
    assert Q.EnvelopesOf(all) == [e] + Q.EnvelopesOf([]);
  }

  /** The last node pushes what it holds to the next one. */
  lemma PushOnwards(m: Mesh, capacity: nat, k: nat, e: Envelope)
    requires k < 0x100 && e.ttl > 0 && k in m.nodes
    requires m.nodes[k].gossip == Waiting(e) && m.nodes[k].filter == B.NewFilter(ONE_BIT, ONE_BIT)
    ensures var m' := Step(m, capacity, Round(k, [k + 1], 0, (i: nat) => ONE_BIT));
            && TxPacket(k + 1, e.(ttl := e.ttl - 1)) in m'.net
            && Grows(m.history, m'.history) && Hop(e, e.(ttl := e.ttl - 1)) in m'.history.pushes
  {
    var f, hashes := m.nodes[k].filter, (i: nat) => ONE_BIT;
    SingleBatch(e, 0);
    RoundSends(m, capacity, k, [k + 1], 0, hashes, TxPacket(k + 1, e.(ttl := e.ttl - 1)));
    VerdictIff(f, capacity, [e], hashes, 0);
    assert [e][..0] == [] && FilterAfter(f, capacity, [], hashes) == f;
    assert !B.Seen(f, e.messageId);
    hide TakeBatch, Verdicts, Outbound, PushIndices, Sends, B.Seen;
    var vs := Verdicts(f, capacity, [e], hashes);
    assert Hop([e][0], vs[0].outbound) in HopsOf([e], vs);
  }

  lemma JoinNext(m: Mesh, capacity: nat, k: nat, e: Envelope)
    requires k < 0x100 && Reached(m, k, e)
    ensures var m' := Step(m, capacity, Join(k + 1, ONE_BIT, ONE_BIT));
            && k in m'.nodes && m'.nodes[k] == m.nodes[k] && m'.history == m.history
            && (forall n :: n in m'.nodes ==> n <= k + 1)
            && k + 1 in m'.nodes && m'.nodes[k + 1].gossip == Gossip(Q.EMPTY_TIERS, [])
            && m'.nodes[k + 1].filter == B.NewFilter(ONE_BIT, ONE_BIT)
  {
  }

  lemma ArriveAtNext(m: Mesh, capacity: nat, k: nat, e: Envelope)
    requires k <= 0x100 && k in m.nodes && (forall n :: n in m.nodes ==> n <= k) && TxPacket(k, e) in m.net
    requires m.nodes[k].gossip == Gossip(Q.EMPTY_TIERS, []) && m.nodes[k].filter == B.NewFilter(ONE_BIT, ONE_BIT)
    ensures Reached(Step(m, capacity, DeliverTx(TxPacket(k, e))), k, e)
    ensures Step(m, capacity, DeliverTx(TxPacket(k, e))).history == m.history
  {
    ArrivalIsHeld(m, capacity, TxPacket(k, e));
  }

  lemma RunOneMore(capacity: nat, evs: seq<Event>, ev: Event)
    ensures Run(capacity, evs + [ev]) == Step(Run(capacity, evs), capacity, ev)
  {
    assert (evs + [ev])[..|evs|] == evs;
  }

  /** One more hop: the next node joins, the last one pushes to it, and the copy arrives. */
  lemma OneMoreHop(capacity: nat, evs: seq<Event>, k: nat, e: Envelope) returns (evs': seq<Event>)
    requires k < 0x100 && e.ttl > 0 && Reached(Run(capacity, evs), k, e)
    ensures Reached(Run(capacity, evs'), k + 1, e.(ttl := e.ttl - 1))
    ensures Grows(Run(capacity, evs).history, Run(capacity, evs').history)
    ensures Hop(e, e.(ttl := e.ttl - 1)) in Run(capacity, evs').history.pushes
  {
    var join, push := Join(k + 1, ONE_BIT, ONE_BIT), Round(k, [k + 1], 0, (i: nat) => ONE_BIT);
    var p := TxPacket(k + 1, e.(ttl := e.ttl - 1));
    evs' := evs + [join] + [push] + [DeliverTx(p)];
    var m := Run(capacity, evs);
    var m1 := Step(m, capacity, join);
    RunOneMore(capacity, evs, join);
    RunOneMore(capacity, evs + [join], push);
    RunOneMore(capacity, evs + [join] + [push], DeliverTx(p));
    JoinNext(m, capacity, k, e);
    PushOnwards(m1, capacity, k, e);
    StepIsLocal(m1, capacity, push);
    RoundKeepsKeys(m1, capacity, push);
    hide Run, Step;
    ArriveAtNext(Step(m1, capacity, push), capacity, k + 1, p.envelope);
  }

  lemma RoundKeepsKeys(m: Mesh, capacity: nat, ev: Event)
    requires ev.Round?
    ensures Step(m, capacity, ev).nodes.Keys == m.nodes.Keys
  {
    hide Verdicts, FilterAfter, Sends, TakeBatch;
  }

  /** The bound of `PushChainsAreBounded` is reached: for every envelope, every number of hops up to its ttl and every
      filter capacity there is a run that originates it and pushes it on that often, and then a node holds it. */
  lemma {:induction false} PushBoundIsReached(capacity: nat, e: Envelope, hops: nat)
    returns (evs: seq<Event>, ps: seq<Hop>)
    requires hops <= e.ttl
    ensures var m := Run(capacity, evs);
            && e in m.history.originated
            && Chain(m.history.pushes, ps) && |ps| == hops
            && (ps != [] ==> ps[0].received == e && ps[hops - 1].sent == e.(ttl := e.ttl - hops))
            && Reached(m, hops, e.(ttl := e.ttl - hops))
  {
    if hops == 0 {
      ps, evs := [], [Join(0, ONE_BIT, ONE_BIT)] + [Originate(0, e)];
      RunOneMore(capacity, [], Join(0, ONE_BIT, ONE_BIT));
      RunOneMore(capacity, [Join(0, ONE_BIT, ONE_BIT)], Originate(0, e));
    } else {
      var evs0, ps0 := PushBoundIsReached(capacity, e, hops - 1);
      var e' := e.(ttl := e.ttl - (hops - 1));
      evs := OneMoreHop(capacity, evs0, hops - 1, e');
      ps := ps0 + [Hop(e', e'.(ttl := e'.ttl - 1))];
    }
  }
}
