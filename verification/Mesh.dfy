/** Whole runs of a mesh: fanout rounds and sync exchanges over a network that may lose, delay, reorder and
    duplicate every packet (src/gossip/protocol.rs, src/gossip/queue.rs, src/gossip/bloom.rs). */
module Mesh {
  import opened Core
  import opened Messages
  import opened StableSort
  import opened BloomFilter
  import opened PriorityQueue
  import opened GossipState
  import opened FanoutRound

  /** A node, with the envelopes it has pushed and which insertion of its filter each push was. */
  datatype Node = Node(gossip: Gossip, filter: Filter, pushed: seq<Envelope>, pushedAt: seq<nat>)

  datatype Packet =
    | TxPacket(to: Key, envelope: Envelope)
    | RequestPacket(to: Key, from: Key, known: seq<U32>)
    | ReplyPacket(to: Key, envelopes: seq<Envelope>)

  /** One push hop: the copy a node held and the copy it sent on. */
  datatype Hop = Hop(received: Envelope, sent: Envelope)

  /** `net` holds every packet ever sent: delivery takes any of them, any number of times, or never. */
  datatype Mesh = Mesh(nodes: map<Key, Node>, net: set<Packet>, history: History)

  /** All envelopes originated and all push hops taken so far. */
  datatype History = History(originated: set<Envelope>, pushes: set<Hop>)

  datatype Event =
    | Join(node: Key, h: Hash, h': Hash)
    | Originate(node: Key, envelope: Envelope)
    | Round(node: Key, recipients: seq<Key>, now: nat, hashes: nat -> Hash)
    | DeliverTx(packet: Packet)
    | RequestSync(node: Key, peer: Key)
    | DeliverRequest(packet: Packet)
    | DeliverReply(packet: Packet)
    | PaceBacklog(node: Key, batchSize: nat)

  ghost function WithGossip(m: Mesh, n: Key, g: Gossip): Mesh
    requires n in m.nodes
  {
    m.(nodes := m.nodes[n := m.nodes[n].(gossip := g)])
  }

  /** The hops taken by a batch with these verdicts. */
  ghost function HopsOf(batch: seq<Envelope>, vs: seq<Verdict>): set<Hop>
    requires |batch| == |vs|
  {
    set k | 0 <= k < |vs| && vs[k].Forwarded? :: Hop(batch[k], vs[k].outbound)
  }

  ghost function AfterRound(m: Mesh, capacity: nat, n: Key, recipients: seq<Key>, now: nat, hashes: nat -> Hash): Mesh
    requires n in m.nodes
  {
    var node := m.nodes[n];
    var (g, batch) := TakeBatch(node.gossip, now);
    var vs := Verdicts(node.filter, capacity, batch, hashes);
    var node' := Node(g, FilterAfter(node.filter, capacity, batch, hashes), node.pushed + Outbound(vs),
                      node.pushedAt + PushIndices(node.filter, capacity, batch, hashes));
    Mesh(m.nodes[n := node'],
         m.net + (set s | s in Sends(vs, recipients) :: TxPacket(s.0, s.1)),
         m.history.(pushes := m.history.pushes + HopsOf(batch, vs)))
  }

  /** One step; an event that cannot happen (unknown node, packet never sent) changes nothing. A delivered
      transaction that the receiver rejects is one that is not delivered. */
  ghost function Step(m: Mesh, capacity: nat, ev: Event): Mesh
  {
    match ev
    case Join(n, h, h') =>
      if n in m.nodes then m
      else m.(nodes := m.nodes[n := Node(Gossip(EMPTY_TIERS, []), NewFilter(h, h'), [], [])])
    case Originate(n, e) =>
      if n !in m.nodes then m
      else WithGossip(m.(history := m.history.(originated := m.history.originated + {e})), n,
                      WithEnvelope(m.nodes[n].gossip, e))
    case Round(n, recipients, now, hashes) =>
      if n !in m.nodes then m else AfterRound(m, capacity, n, recipients, now, hashes)
    case DeliverTx(p) =>
      if p !in m.net || !p.TxPacket? || p.to !in m.nodes then m
      else WithGossip(m, p.to, WithEnvelope(m.nodes[p.to].gossip, p.envelope))
    case RequestSync(n, peer) =>
      if n !in m.nodes then m
      else m.(net := m.net + {RequestPacket(peer, n, KnownPrefixes(m.nodes[n].gossip))})
    case DeliverRequest(p) =>
      if p !in m.net || !p.RequestPacket? || p.to !in m.nodes then m
      else m.(net := m.net + {ReplyPacket(p.from, SyncReply(m.nodes[p.to].gossip, p.known))})
    case DeliverReply(p) =>
      if p !in m.net || !p.ReplyPacket? || p.to !in m.nodes then m
      else WithGossip(m, p.to, MergeReply(m.nodes[p.to].gossip, p.envelopes))
    case PaceBacklog(n, k) =>
      if n !in m.nodes then m else WithGossip(m, n, Paced(m.nodes[n].gossip, k))
  }

  ghost function Run(capacity: nat, evs: seq<Event>): Mesh
  {
    if evs == [] then Mesh(map[], {}, History({}, {}))
    else Step(Run(capacity, evs[..|evs| - 1]), capacity, evs[|evs| - 1])
  }

  // ---- Lineage of a copy --------------------------------------------------------------------------

  /** `e` descends from `o` by exactly `k` push hops. */
  ghost predicate Lineage(pushes: set<Hop>, o: Envelope, e: Envelope, k: nat)
    decreases k
  {
    if k == 0 then e == o
    else exists p :: p in pushes && p.sent == e && Lineage(pushes, o, p.received, k - 1)
  }

  /** `e` is `o` in every field but the ttl, which is short by exactly the push hops `e` has travelled. */
  ghost predicate CopyOf(pushes: set<Hop>, o: Envelope, e: Envelope)
  {
    && e == o.(ttl := e.ttl) && e.ttl <= o.ttl
    && Lineage(pushes, o, e, o.ttl - e.ttl)
  }

  ghost predicate Genuine(h: History, e: Envelope)
  {
    exists o :: o in h.originated && CopyOf(h.pushes, o, e)
  }

  ghost predicate Holds(g: Gossip, e: Envelope)
  {
    Transaction(e) in g.tiers.normal || e in g.backlog
  }

  ghost predicate Carries(p: Packet, e: Envelope)
  {
    match p
    case TxPacket(_, x) => e == x
    case RequestPacket(_, _, _) => false
    case ReplyPacket(_, es) => e in es
  }

  ghost predicate HopValid(p: Hop)
  {
    p.received.ttl > 0 && p.sent == p.received.(ttl := p.received.ttl - 1)
  }

  ghost predicate NodeValid(node: Node, capacity: nat)
  {
    && TiersValid(node.gossip.tiers)
    && FilterInv(node.filter, capacity)
    && PushesMatch(node.filter.inserted, node.pushed, node.pushedAt, 0)
  }

  ghost predicate HoldsOnlyGenuine(h: History, g: Gossip)
  {
    forall e :: Holds(g, e) ==> Genuine(h, e)
  }

  ghost predicate CarriesOnlyGenuine(h: History, p: Packet)
  {
    forall e :: Carries(p, e) ==> Genuine(h, e)
  }

  ghost predicate Inv(m: Mesh, capacity: nat)
  {
    && (forall n :: n in m.nodes ==> NodeValid(m.nodes[n], capacity))
    && (forall n :: n in m.nodes ==> HoldsOnlyGenuine(m.history, m.nodes[n].gossip))
    && (forall p :: p in m.net ==> CarriesOnlyGenuine(m.history, p))
    && (forall p :: p in m.history.pushes ==> HopValid(p))
  }

  lemma {:induction false} LineageGrows(pushes: set<Hop>, more: set<Hop>, o: Envelope, e: Envelope, k: nat)
    requires pushes <= more && Lineage(pushes, o, e, k)
    ensures Lineage(more, o, e, k)
    decreases k
  {
    if k == 0 {
    } else {
      var p :| p in pushes && p.sent == e && Lineage(pushes, o, p.received, k - 1);
      LineageGrows(pushes, more, o, p.received, k - 1);
    }
  }

  ghost predicate Grows(h: History, h': History)
  {
    h.originated <= h'.originated && h.pushes <= h'.pushes
  }

  lemma GenuineGrows(h: History, h': History, e: Envelope)
    requires Grows(h, h') && Genuine(h, e)
    ensures Genuine(h', e)
  {
    var o :| o in h.originated && CopyOf(h.pushes, o, e);
    LineageGrows(h.pushes, h'.pushes, o, e, o.ttl - e.ttl);
  }

  lemma PushIsGenuine(h: History, p: Hop)
    requires p in h.pushes && HopValid(p) && Genuine(h, p.received)
    ensures Genuine(h, p.sent)
  {
    var o :| o in h.originated && CopyOf(h.pushes, o, p.received);
    assert Lineage(h.pushes, o, p.sent, o.ttl - p.sent.ttl);
    assert CopyOf(h.pushes, o, p.sent);
  }

  // ---- What the node operations hold --------------------------------------------------------------

  lemma KeptWereThere<T>(all: seq<T>, n: nat)
    ensures forall i :: 0 <= i < |LastN(all, n)| ==> LastN(all, n)[i] in all
  {
    var kept := LastN(all, n);
    forall i | 0 <= i < |kept| ensures kept[i] in all { assert kept[i] == all[|all| - |kept| + i]; }
  }

  lemma TxsMembers(es: seq<Envelope>, m: ProtocolMessage)
    requires m in Txs(es)
    ensures m.Transaction? && m.envelope in es
  {
    var i :| 0 <= i < |Txs(es)| && Txs(es)[i] == m;
    assert es[i] == m.envelope;
  }

  lemma KeptTransactions(normal: seq<ProtocolMessage>, es: seq<Envelope>, m: ProtocolMessage)
    requires forall i :: 0 <= i < |normal| ==> PriorityOf(normal[i]) == Normal
    requires m in normal + Txs(es)
    ensures PriorityOf(m) == Normal && (m in normal || (m.Transaction? && m.envelope in es))
  {
    if m !in normal { TxsMembers(es, m); }
  }

  lemma AddAllHolds(g: Gossip, es: seq<Envelope>, e: Envelope)
    requires TiersValid(g.tiers)
    ensures TiersValid(AddAll(g, es).tiers)
    ensures Holds(AddAll(g, es), e) ==> Holds(g, e) || e in es
  {
    AddAllKeepsNewest(g, es);
    var all := g.tiers.normal + Txs(es);
    var kept := LastN(all, NORMAL_CAPACITY);
    KeptWereThere(all, NORMAL_CAPACITY);
    assert |kept| <= NORMAL_CAPACITY;
    hide AddAll, LastN, Txs, PriorityOf;
    forall i | 0 <= i < |kept| ensures PriorityOf(kept[i]) == Normal { KeptTransactions(g.tiers.normal, es, kept[i]); }
    if Transaction(e) in kept { KeptTransactions(g.tiers.normal, es, Transaction(e)); }
  }

  lemma WithEnvelopeHolds(g: Gossip, x: Envelope, e: Envelope)
    requires TiersValid(g.tiers)
    ensures TiersValid(WithEnvelope(g, x).tiers)
    ensures Holds(WithEnvelope(g, x), e) ==> Holds(g, e) || e == x
  {
  }

  lemma PacedHolds(g: Gossip, k: nat, e: Envelope)
    requires TiersValid(g.tiers)
    ensures TiersValid(Paced(g, k).tiers)
    ensures Holds(Paced(g, k), e) ==> Holds(g, e)
  {
    var n := Min(k, |g.backlog|);
    AddAllHolds(g.(backlog := g.backlog[n..]), g.backlog[..n], e);
  }

  lemma MergeHolds(g: Gossip, es: seq<Envelope>, e: Envelope)
    requires TiersValid(g.tiers)
    ensures TiersValid(MergeReply(g, es).tiers)
    ensures Holds(MergeReply(g, es), e) ==> Holds(g, e) || e in es
  {
    if |es| <= MACRO_MERGE_THRESHOLD {
      AddAllHolds(g, es, e);
    } else {
      SortCorrect(es, TimestampKey());
      assert e in multiset(Sort(es, TimestampKey())) <==> e in multiset(es);
    }
  }

  lemma {:induction false} EnvelopeIsMessage(s: seq<ProtocolMessage>, e: Envelope)
    ensures e in EnvelopesOf(s) ==> Transaction(e) in s
  {
    if s == [] {
    } else {
      EnvelopeIsMessage(s[1..], e);
    }
  }

  lemma {:induction false} UnknownAreHeld(es: seq<Envelope>, known: seq<U32>, e: Envelope)
    ensures e in Unknown(es, known) ==> e in es
  {
    if es == [] {
    } else {
      UnknownAreHeld(es[1..], known, e);
    }
  }

  lemma ReplyHolds(g: Gossip, known: seq<U32>, e: Envelope)
    requires TiersValid(g.tiers) && e in SyncReply(g, known)
    ensures Holds(g, e)
  {
    UnknownAreHeld(Envelopes(g.tiers), known, e);
    EnvelopeIsMessage(g.tiers.high + g.tiers.normal + g.tiers.low, e);
    var t := g.tiers;
    assert Transaction(e) !in t.high && Transaction(e) !in t.low;
  }

  lemma TakeBatchHolds(g: Gossip, now: nat, e: Envelope)
    requires TiersValid(g.tiers)
    ensures var (g', batch) := TakeBatch(g, now);
            && TiersValid(g'.tiers)
            && (Holds(g', e) ==> Holds(g, e))
            && (e in batch ==> Holds(g, e))
  {
    DrainKeepsValid(g.tiers, FANOUT_BATCH_SIZE, now);
    EnvelopeIsMessage(Drained(g.tiers, FANOUT_BATCH_SIZE, now).1, e);
  }

  // ---- Steps keep the invariant -------------------------------------------------------------------

  /** A longer history keeps everything genuine. */
  lemma HistoryGrowsKeepsInv(m: Mesh, capacity: nat, h: History)
    requires Inv(m, capacity) && Grows(m.history, h)
    requires forall p :: p in h.pushes ==> HopValid(p)
    ensures Inv(m.(history := h), capacity)
  {
    hide CopyOf, Lineage, Carries, Holds, Genuine, NodeValid, Grows;
    forall e | Genuine(m.history, e) ensures Genuine(h, e) { GenuineGrows(m.history, h, e); }
  }

  lemma NodeChangeKeepsInv(m: Mesh, capacity: nat, n: Key, node: Node)
    requires Inv(m, capacity) && NodeValid(node, capacity) && HoldsOnlyGenuine(m.history, node.gossip)
    ensures Inv(m.(nodes := m.nodes[n := node]), capacity)
  {
    hide NodeValid, HoldsOnlyGenuine, CarriesOnlyGenuine, HopValid;
  }

  lemma NetGrowsKeepsInv(m: Mesh, capacity: nat, packets: set<Packet>)
    requires Inv(m, capacity) && forall p :: p in packets ==> CarriesOnlyGenuine(m.history, p)
    ensures Inv(m.(net := m.net + packets), capacity)
  {
    hide NodeValid, HoldsOnlyGenuine, CarriesOnlyGenuine, HopValid;
  }

  lemma GossipChangeKeepsInv(m: Mesh, capacity: nat, n: Key, g: Gossip)
    requires Inv(m, capacity) && n in m.nodes && TiersValid(g.tiers)
    requires HoldsOnlyGenuine(m.history, g)
    ensures Inv(WithGossip(m, n, g), capacity)
  {
    NodeChangeKeepsInv(m, capacity, n, m.nodes[n].(gossip := g));
  }

  lemma OriginateKeepsInv(m: Mesh, capacity: nat, n: Key, e: Envelope)
    requires Inv(m, capacity) && n in m.nodes
    ensures Inv(Step(m, capacity, Originate(n, e)), capacity)
  {
    var h := m.history.(originated := m.history.originated + {e});
    var g := m.nodes[n].gossip;
    HistoryGrowsKeepsInv(m, capacity, h);
    assert CopyOf(h.pushes, e, e) && Genuine(h, e);
    forall x | Holds(WithEnvelope(g, e), x) ensures Genuine(h, x) { WithEnvelopeHolds(g, e, x); }
    WithEnvelopeHolds(g, e, e);
    GossipChangeKeepsInv(m.(history := h), capacity, n, WithEnvelope(g, e));
  }

  lemma DeliverTxKeepsInv(m: Mesh, capacity: nat, p: Packet)
    requires Inv(m, capacity) && p in m.net && p.TxPacket? && p.to in m.nodes
    ensures Inv(Step(m, capacity, DeliverTx(p)), capacity)
  {
    var g := m.nodes[p.to].gossip;
    assert CarriesOnlyGenuine(m.history, p) && Carries(p, p.envelope);
    forall x | Holds(WithEnvelope(g, p.envelope), x) ensures Genuine(m.history, x) {
      WithEnvelopeHolds(g, p.envelope, x);
    }
    WithEnvelopeHolds(g, p.envelope, p.envelope);
    GossipChangeKeepsInv(m, capacity, p.to, WithEnvelope(g, p.envelope));
  }

  lemma DeliverRequestKeepsInv(m: Mesh, capacity: nat, p: Packet)
    requires Inv(m, capacity) && p in m.net && p.RequestPacket? && p.to in m.nodes
    ensures Inv(Step(m, capacity, DeliverRequest(p)), capacity)
  {
    var g := m.nodes[p.to].gossip;
    var reply := ReplyPacket(p.from, SyncReply(g, p.known));
    ReplyIsGenuine(m.history, g, p.known, reply);
    hide Genuine, SyncReply, CarriesOnlyGenuine;
    NetGrowsKeepsInv(m, capacity, {reply});
  }

  lemma ReplyIsGenuine(h: History, g: Gossip, known: seq<U32>, reply: Packet)
    requires TiersValid(g.tiers) && HoldsOnlyGenuine(h, g)
    requires reply.ReplyPacket? && reply.envelopes == SyncReply(g, known)
    ensures CarriesOnlyGenuine(h, reply)
  {
    hide Genuine, Holds, SyncReply, TiersValid;
    forall e | Carries(reply, e) ensures Genuine(h, e) { ReplyHolds(g, known, e); }
  }

  lemma DeliverReplyKeepsInv(m: Mesh, capacity: nat, p: Packet)
    requires Inv(m, capacity) && p in m.net && p.ReplyPacket? && p.to in m.nodes
    ensures Inv(Step(m, capacity, DeliverReply(p)), capacity)
  {
    var g := m.nodes[p.to].gossip;
    var g' := MergeReply(g, p.envelopes);
    assert CarriesOnlyGenuine(m.history, p);
    hide MergeReply;
    forall e ensures TiersValid(g'.tiers) && (Holds(g', e) ==> Genuine(m.history, e)) {
      MergeHolds(g, p.envelopes, e);
      assert e in p.envelopes ==> Carries(p, e);
    }
    assert TiersValid(g'.tiers) by { MergeHolds(g, p.envelopes, Envelope(0, 0, "", 0, 0, [])); }
    GossipChangeKeepsInv(m, capacity, p.to, g');
  }

  lemma PaceKeepsInv(m: Mesh, capacity: nat, n: Key, k: nat)
    requires Inv(m, capacity) && n in m.nodes
    ensures Inv(Step(m, capacity, PaceBacklog(n, k)), capacity)
  {
    var g := m.nodes[n].gossip;
    forall e | Holds(Paced(g, k), e) ensures Genuine(m.history, e) { PacedHolds(g, k, e); }
    PacedHolds(g, k, Envelope(0, 0, "", 0, 0, []));
    GossipChangeKeepsInv(m, capacity, n, Paced(g, k));
  }

  lemma {:induction false} HopsAreValid(f: Filter, capacity: nat, batch: seq<Envelope>, hashes: nat -> Hash)
    ensures forall p :: p in HopsOf(batch, Verdicts(f, capacity, batch, hashes)) ==> p.received in batch && HopValid(p)
  {
    if batch == [] {
    } else {
      var k := |batch| - 1;
      HopsAreValid(f, capacity, batch[..k], hashes);
      var vs := Verdicts(f, capacity, batch, hashes);
      var vs0 := Verdicts(f, capacity, batch[..k], hashes);
      forall p | p in HopsOf(batch, vs) ensures p.received in batch && HopValid(p) {
        var j :| 0 <= j < |vs| && vs[j].Forwarded? && p == Hop(batch[j], vs[j].outbound);
        if j < k {
          assert vs[j] == vs0[j] && batch[..k][j] == batch[j];
          assert p in HopsOf(batch[..k], vs0);
        }
      }
    }
  }

  lemma {:induction false} SendsAreHops(batch: seq<Envelope>, vs: seq<Verdict>, recipients: seq<Key>, to: Key,
                                        e: Envelope)
    requires |batch| == |vs| && (to, e) in Sends(vs, recipients)
    ensures exists p :: p in HopsOf(batch, vs) && p.sent == e
  {
    if vs == [] {
    } else {
      var k := |vs| - 1;
      if (to, e) in Sends(vs[..k], recipients) {
        SendsAreHops(batch[..k], vs[..k], recipients, to, e);
        var p :| p in HopsOf(batch[..k], vs[..k]) && p.sent == e;
        assert p in HopsOf(batch, vs);
      } else {
        assert Hop(batch[k], vs[k].outbound) in HopsOf(batch, vs);
      }
    }
  }

  lemma AppendPushes(inserted: seq<Key>, inserted': seq<Key>, a: seq<Envelope>, at: seq<nat>, b: seq<Envelope>,
                     bt: seq<nat>)
    requires inserted <= inserted' && PushesMatch(inserted, a, at, 0) && PushesMatch(inserted', b, bt, |inserted|)
    ensures PushesMatch(inserted', a + b, at + bt, 0)
  {
  }

  lemma RoundKeepsNodeValid(node: Node, capacity: nat, now: nat, hashes: nat -> Hash)
    requires NodeValid(node, capacity)
    ensures var (g, batch) := TakeBatch(node.gossip, now);
            var vs := Verdicts(node.filter, capacity, batch, hashes);
            NodeValid(Node(g, FilterAfter(node.filter, capacity, batch, hashes), node.pushed + Outbound(vs),
                           node.pushedAt + PushIndices(node.filter, capacity, batch, hashes)), capacity)
  {
    var (g, batch) := TakeBatch(node.gossip, now);
    var vs := Verdicts(node.filter, capacity, batch, hashes);
    TakeBatchHolds(node.gossip, now, Envelope(0, 0, "", 0, 0, []));
    FilterAfterKeepsInv(node.filter, capacity, batch, hashes);
    PushesAreInsertions(node.filter, capacity, batch, hashes);
    hide PushesMatch, FilterInv, TiersValid, FilterAfter, Verdicts, PushIndices, Outbound, TakeBatch;
    AppendPushes(node.filter.inserted, FilterAfter(node.filter, capacity, batch, hashes).inserted,
                 node.pushed, node.pushedAt, Outbound(vs), PushIndices(node.filter, capacity, batch, hashes));
  }

  lemma RoundKeepsInv(m: Mesh, capacity: nat, n: Key, recipients: seq<Key>, now: nat, hashes: nat -> Hash)
    requires Inv(m, capacity) && n in m.nodes
    ensures Inv(AfterRound(m, capacity, n, recipients, now, hashes), capacity)
  {
    var node := m.nodes[n];
    var (g, batch) := TakeBatch(node.gossip, now);
    var vs := Verdicts(node.filter, capacity, batch, hashes);
    var h := m.history.(pushes := m.history.pushes + HopsOf(batch, vs));
    HopsAreValid(node.filter, capacity, batch, hashes);
    HistoryGrowsKeepsInv(m, capacity, h);
    var m1 := m.(history := h);
    RoundKeepsNodeValid(node, capacity, now, hashes);
    assert HoldsOnlyGenuine(h, node.gossip);
    forall e ensures (Holds(g, e) ==> Genuine(h, e)) && (e in batch ==> Genuine(h, e)) {
      TakeBatchHolds(node.gossip, now, e);
    }
    var node' := Node(g, FilterAfter(node.filter, capacity, batch, hashes), node.pushed + Outbound(vs),
                      node.pushedAt + PushIndices(node.filter, capacity, batch, hashes));
    NodeChangeKeepsInv(m1, capacity, n, node');
    var packets := set s | s in Sends(vs, recipients) :: TxPacket(s.0, s.1);
    forall p | p in packets ensures CarriesOnlyGenuine(h, p) {
      SendsAreHops(batch, vs, recipients, p.to, p.envelope);
      var hop :| hop in HopsOf(batch, vs) && hop.sent == p.envelope;
      PushIsGenuine(h, hop);
    }
    NetGrowsKeepsInv(m1.(nodes := m1.nodes[n := node']), capacity, packets);
  }

  lemma JoinKeepsInv(m: Mesh, capacity: nat, n: Key, h: Hash, h': Hash)
    requires Inv(m, capacity) && n !in m.nodes
    ensures Inv(Step(m, capacity, Join(n, h, h')), capacity)
  {
    RunKeepsInv(capacity, h, h', []);
    NodeChangeKeepsInv(m, capacity, n, Node(Gossip(EMPTY_TIERS, []), NewFilter(h, h'), [], []));
  }

  lemma RequestKeepsInv(m: Mesh, capacity: nat, n: Key, peer: Key)
    requires Inv(m, capacity) && n in m.nodes
    ensures Inv(Step(m, capacity, RequestSync(n, peer)), capacity)
  {
    var p := RequestPacket(peer, n, KnownPrefixes(m.nodes[n].gossip));
    RequestCarriesNothing(m.history, p);
    hide Inv, KnownPrefixes, CarriesOnlyGenuine;
    NetGrowsKeepsInv(m, capacity, {p});
  }

  lemma RequestCarriesNothing(h: History, p: Packet)
    requires p.RequestPacket?
    ensures CarriesOnlyGenuine(h, p)
  {
    hide Genuine;
  }

  lemma StepKeepsInv(m: Mesh, capacity: nat, ev: Event)
    requires Inv(m, capacity)
    ensures Inv(Step(m, capacity, ev), capacity)
  {
    hide Inv, AfterRound, WithGossip, Paced, MergeReply, WithEnvelope, SyncReply, KnownPrefixes;
    match ev
    case Join(n, h, h') => if n !in m.nodes { JoinKeepsInv(m, capacity, n, h, h'); }
    case Originate(n, e) => if n in m.nodes { OriginateKeepsInv(m, capacity, n, e); }
    case Round(n, recipients, now, hashes) =>
      if n in m.nodes { RoundKeepsInv(m, capacity, n, recipients, now, hashes); }
    case DeliverTx(p) => if p in m.net && p.TxPacket? && p.to in m.nodes { DeliverTxKeepsInv(m, capacity, p); }
    case RequestSync(n, peer) => if n in m.nodes { RequestKeepsInv(m, capacity, n, peer); }
    case DeliverRequest(p) =>
      if p in m.net && p.RequestPacket? && p.to in m.nodes { DeliverRequestKeepsInv(m, capacity, p); }
    case DeliverReply(p) =>
      if p in m.net && p.ReplyPacket? && p.to in m.nodes { DeliverReplyKeepsInv(m, capacity, p); }
    case PaceBacklog(n, k) => if n in m.nodes { PaceKeepsInv(m, capacity, n, k); }
  }

  lemma {:induction false} RunsKeepInv(capacity: nat, evs: seq<Event>)
    ensures Inv(Run(capacity, evs), capacity)
  {
    if evs == [] {
    } else {
      RunsKeepInv(capacity, evs[..|evs| - 1]);
      StepKeepsInv(Run(capacity, evs[..|evs| - 1]), capacity, evs[|evs| - 1]);
    }
  }

  // ---- The main results ---------------------------------------------------------------------------

  /** In every run, every queued, waiting or in-flight copy is an originated envelope, unchanged but for its
      ttl, which plus the push hops it has travelled is the originating ttl. */
  lemma TtlPlusHopsIsConserved(capacity: nat, evs: seq<Event>)
    ensures var m := Run(capacity, evs);
            && (forall n, e :: n in m.nodes && Holds(m.nodes[n].gossip, e) ==> Genuine(m.history, e))
            && (forall p, e :: p in m.net && Carries(p, e) ==> Genuine(m.history, e))
  {
    RunsKeepInv(capacity, evs);
    hide Run, Genuine, Holds, Carries, NodeValid;
  }

  /** A chain of pushes: each sends on the copy the previous one sent. */
  ghost predicate Chain(pushes: set<Hop>, ps: seq<Hop>)
  {
    && (forall i :: 0 <= i < |ps| ==> ps[i] in pushes)
    && (forall i :: 0 < i < |ps| ==> ps[i].received == ps[i - 1].sent)
  }

  lemma {:induction false} ChainShortens(pushes: set<Hop>, ps: seq<Hop>)
    requires Chain(pushes, ps) && ps != [] && forall p :: p in pushes ==> HopValid(p)
    ensures ps[|ps| - 1].sent == ps[0].received.(ttl := ps[|ps| - 1].sent.ttl)
    ensures ps[|ps| - 1].sent.ttl + |ps| == ps[0].received.ttl
  {
    assert HopValid(ps[|ps| - 1]);
    if |ps| == 1 {
    } else {
      ChainShortens(pushes, ps[..|ps| - 1]);
    }
  }

  /** No copy is pushed on more often than its originating ttl: a chain of pushes that starts from an
      originated envelope, in any run, has at most as many hops as that envelope's ttl. */
  lemma PushChainsAreBounded(capacity: nat, evs: seq<Event>, ps: seq<Hop>)
    requires Chain(Run(capacity, evs).history.pushes, ps) && ps != []
    ensures |ps| <= ps[0].received.ttl
    ensures ps[|ps| - 1].sent == ps[0].received.(ttl := ps[0].received.ttl - |ps|)
  {
    RunsKeepInv(capacity, evs);
    ChainShortens(Run(capacity, evs).history.pushes, ps);
  }

  /** In every run, two pushes of the same id by one node are separated by more than `capacity` fresh ids in
      that node's filter, all different from it and from each other. */
  lemma RepeatedPushesAreFarApart(capacity: nat, evs: seq<Event>, n: Key, i: nat, j: nat)
    requires n in Run(capacity, evs).nodes
    requires var node := Run(capacity, evs).nodes[n];
             i < j < |node.pushed| && node.pushed[i].messageId == node.pushed[j].messageId
    ensures var node := Run(capacity, evs).nodes[n];
            && |node.pushedAt| == |node.pushed|
            && node.pushedAt[i] < node.pushedAt[j] < |node.filter.inserted|
            && node.pushedAt[j] - node.pushedAt[i] - 1 > WindowSize(capacity)
            && forall p, q :: node.pushedAt[i] <= p < q <= node.pushedAt[i] + WindowSize(capacity) + 1
                              ==> node.filter.inserted[p] != node.filter.inserted[q]
  {
    RunsKeepInv(capacity, evs);
    var node := Run(capacity, evs).nodes[n];
    assert NodeValid(node, capacity) && NearbyDistinct(node.filter, capacity);
    hide Run, Windowed, TiersValid;
  }
}
