/** The mesh with every copy of an envelope tagged: where and with which ttl it was originated, and which nodes have
    pushed it since (src/gossip/protocol.rs). The tags ride along through queues, backlogs, rounds, replies and
    merges; they decide nothing, so every run of the mesh is a run with tags and the other way round. */
module MeshCopies {
  import opened Core
  import opened Messages
  import opened StableSort
  import opened PriorityQueue
  import opened GossipState
  import opened SyncExchange
  import opened FanoutRound
  import opened BloomFilter
  import M = Mesh

  datatype Copy = Copy(e: Envelope, source: Key, origin: Envelope, path: seq<Key>)

  /** A node's queue and backlog. */
  datatype Store = Store(tier: seq<Copy>, backlog: seq<Copy>)

  datatype Parcel =
    | TxParcel(to: Key, copy: Copy)
    | RequestParcel(to: Key, from: Key, known: seq<U32>)
    | ReplyParcel(to: Key, copies: seq<Copy>)

  /** The mesh, with the tagged copies it holds and carries, and every origination. */
  datatype Tagged = Tagged(m: M.Mesh, stores: map<Key, Store>, net: set<Parcel>, births: set<(Key, Envelope)>)

  type LocalEvent = ev: M.Event | !ev.DeliverTx? && !ev.DeliverRequest? && !ev.DeliverReply?
    witness M.RequestSync(0, 0)

  /** A delivery says which of the tagged parcels arrives. */
  datatype Event =
    | Local(ev: LocalEvent)
    | TxArrives(p: Parcel)
    | RequestArrives(p: Parcel)
    | ReplyArrives(p: Parcel)

  // ---- Forgetting the tags ------------------------------------------------------------------------

  ghost function EnvelopeOf(): Copy -> Envelope
  {
    (c: Copy) => c.e
  }

  ghost function MessageOf(): Copy -> ProtocolMessage
  {
    (c: Copy) => Transaction(c.e)
  }

  ghost function Envs(cs: seq<Copy>): seq<Envelope>
  {
    Mapped(cs, EnvelopeOf())
  }

  ghost function Msgs(cs: seq<Copy>): seq<ProtocolMessage>
  {
    Mapped(cs, MessageOf())
  }

  ghost predicate Projects(g: Gossip, s: Store)
  {
    g.tiers == Tiers([], Msgs(s.tier), []) && g.backlog == Envs(s.backlog) && |s.tier| <= NORMAL_CAPACITY
  }

  ghost function Plain(p: Parcel): M.Packet
  {
    match p
    case TxParcel(to, c) => M.TxPacket(to, c.e)
    case RequestParcel(to, from, known) => M.RequestPacket(to, from, known)
    case ReplyParcel(to, cs) => M.ReplyPacket(to, Envs(cs))
  }

  ghost function PlainEvent(ev: Event): M.Event
  {
    match ev
    case Local(e) => e
    case TxArrives(p) => M.DeliverTx(Plain(p))
    case RequestArrives(p) => M.DeliverRequest(Plain(p))
    case ReplyArrives(p) => M.DeliverReply(Plain(p))
  }

  // ---- The operations on copies -------------------------------------------------------------------

  ghost function Appended(s: Store, cs: seq<Copy>): Store
  {
    s.(tier := LastN(s.tier + cs, NORMAL_CAPACITY))
  }

  ghost function PacedIn(s: Store, batchSize: nat): Store
  {
    var k := Min(batchSize, |s.backlog|);
    Store(LastN(s.tier + s.backlog[..k], NORMAL_CAPACITY), s.backlog[k..])
  }

  ghost function Unlisted(cs: seq<Copy>, known: seq<U32>): seq<Copy>
  {
    if cs == [] then []
    else if Prefix4(cs[0].e.messageId) in known then Unlisted(cs[1..], known)
    else [cs[0]] + Unlisted(cs[1..], known)
  }

  ghost function WithReply(s: Store, cs: seq<Copy>): Store
  {
    if |cs| <= MACRO_MERGE_THRESHOLD then Appended(s, cs)
    else s.(backlog := Sort(cs, Composed(EnvelopeOf(), TimestampKey())))
  }

  ghost function Taken(s: Store, now: nat): (Store, seq<Copy>)
  {
    var all := Sort(s.tier, Composed(MessageOf(), UrgencyKey(now)));
    var k := Min(FANOUT_BATCH_SIZE, |all|);
    (s.(tier := all[k..]), all[..k])
  }

  /** The copy that node `n` sends on. */
  ghost function PushedBy(c: Copy, n: Key, outbound: Envelope): Copy
  {
    c.(e := outbound, path := c.path + [n])
  }

  ghost function Parcels(n: Key, batch: seq<Copy>, vs: seq<Verdict>, recipients: seq<Key>): set<Parcel>
    requires |batch| == |vs|
  {
    set i, k | 0 <= i < |recipients| && 0 <= k < |vs| && vs[k].Forwarded?
      :: TxParcel(recipients[i], PushedBy(batch[k], n, vs[k].outbound))
  }

  ghost function AfterRound(t: Tagged, capacity: nat, n: Key, recipients: seq<Key>, now: nat, hashes: nat -> Hash)
    : (map<Key, Store>, set<Parcel>)
    requires n in t.m.nodes && n in t.stores
  {
    var (s, batch) := Taken(t.stores[n], now);
    var vs := Verdicts(t.m.nodes[n].filter, capacity, Envs(batch), hashes);
    (t.stores[n := s], t.net + Parcels(n, batch, vs, recipients))
  }

  /** A delivery takes a parcel that was sent. */
  ghost predicate Possible(t: Tagged, ev: Event)
  {
    match ev
    case Local(_) => true
    case TxArrives(p) => p in t.net && p.TxParcel?
    case RequestArrives(p) => p in t.net && p.RequestParcel?
    case ReplyArrives(p) => p in t.net && p.ReplyParcel?
  }

  /** One step; an event that cannot happen changes nothing. */
  ghost function Step(t: Tagged, capacity: nat, ev: Event): Tagged
    requires t.stores.Keys == t.m.nodes.Keys
  {
    if !Possible(t, ev) then t
    else
      var t' := t.(m := M.Step(t.m, capacity, PlainEvent(ev)));
      match ev
      case Local(Join(n, _, _)) =>
        if n in t.m.nodes then t' else t'.(stores := t.stores[n := Store([], [])])
      case Local(Originate(n, e)) =>
        if n !in t.m.nodes then t'
        else t'.(stores := t.stores[n := Appended(t.stores[n], [Copy(e, n, e, [])])], births := t.births + {(n, e)})
      case Local(Round(n, recipients, now, hashes)) =>
        if n !in t.m.nodes then t'
        else
          var (stores, net) := AfterRound(t, capacity, n, recipients, now, hashes);
          t'.(stores := stores, net := net)
      case Local(RequestSync(n, peer)) =>
        if n !in t.m.nodes then t'
        else t'.(net := t.net + {RequestParcel(peer, n, KnownPrefixes(t.m.nodes[n].gossip))})
      case Local(PaceBacklog(n, k)) =>
        if n !in t.m.nodes then t' else t'.(stores := t.stores[n := PacedIn(t.stores[n], k)])
      case TxArrives(p) =>
        if p.to !in t.m.nodes then t' else t'.(stores := t.stores[p.to := Appended(t.stores[p.to], [p.copy])])
      case RequestArrives(p) =>
        if p.to !in t.m.nodes then t'
        else t'.(net := t.net + {ReplyParcel(p.from, Unlisted(t.stores[p.to].tier, p.known))})
      case ReplyArrives(p) =>
        if p.to !in t.m.nodes then t' else t'.(stores := t.stores[p.to := WithReply(t.stores[p.to], p.copies)])
  }

  // ---- The operations forget the tags correctly ---------------------------------------------------

  lemma MsgsAreTxs(cs: seq<Copy>)
    ensures Msgs(cs) == Txs(Envs(cs))
  {
  }

  lemma MsgsAppend(a: seq<Copy>, b: seq<Copy>, n: nat)
    ensures Msgs(LastN(a + b, n)) == LastN(Msgs(a) + Txs(Envs(b)), n)
  {
  }

  lemma EnvsSlices(cs: seq<Copy>, k: nat)
    requires k <= |cs|
    ensures Envs(cs[..k]) == Envs(cs)[..k] && Envs(cs[k..]) == Envs(cs)[k..] && |Envs(cs)| == |cs|
    ensures Msgs(cs[..k]) == Msgs(cs)[..k] && Msgs(cs[k..]) == Msgs(cs)[k..] && |Msgs(cs)| == |cs|
  {
  }

  lemma AppendProjects(g: Gossip, s: Store, cs: seq<Copy>)
    requires Projects(g, s)
    ensures Projects(AddAll(g, Envs(cs)), Appended(s, cs))
  {
    assert |Msgs(s.tier)| == |s.tier|;
    MsgsAppend(s.tier, cs, NORMAL_CAPACITY);
    hide Msgs, Envs, AddAll;
    AddAllKeepsNewest(g, Envs(cs));
  }

  lemma AddProjects(g: Gossip, s: Store, c: Copy)
    requires Projects(g, s)
    ensures Projects(WithEnvelope(g, c.e), Appended(s, [c]))
  {
    AppendProjects(g, s, [c]);
    assert Envs([c]) == [c.e] && [c.e][..0] == [];
    hide Projects, WithEnvelope, Appended;
  }

  lemma PacedProjects(g: Gossip, s: Store, k: nat)
    requires Projects(g, s)
    ensures Projects(Paced(g, k), PacedIn(s, k))
  {
    var n := Min(k, |s.backlog|);
    EnvsSlices(s.backlog, n);
    var rest := s.(backlog := s.backlog[n..]);
    assert Projects(g.(backlog := g.backlog[n..]), rest);
    hide Envs, Msgs, AddAll, LastN;
    AppendProjects(g.(backlog := g.backlog[n..]), rest, s.backlog[..n]);
  }

  lemma MergeProjects(g: Gossip, s: Store, cs: seq<Copy>)
    requires Projects(g, s)
    ensures Projects(MergeReply(g, Envs(cs)), WithReply(s, cs))
  {
    assert |Envs(cs)| == |cs|;
    if |cs| <= MACRO_MERGE_THRESHOLD {
      AppendProjects(g, s, cs);
    } else {
      SortMaps(cs, EnvelopeOf(), TimestampKey());
      hide Sort, Composed, TimestampKey;
    }
  }

  lemma {:induction false} UnlistedProjects(cs: seq<Copy>, known: seq<U32>)
    ensures Envs(Unlisted(cs, known)) == Unknown(Envs(cs), known)
  {
    if cs == [] {
      assert Envs(cs) == [];
    } else {
      MappedTail(cs, EnvelopeOf());
      UnlistedProjects(cs[1..], known);
      MappedCons(cs[0], Unlisted(cs[1..], known), EnvelopeOf());
      assert EnvelopeOf()(cs[0]) == cs[0].e;
      hide Mapped;
    }
  }

  lemma HeldProjects(g: Gossip, s: Store)
    requires Projects(g, s)
    ensures Envelopes(g.tiers) == Envs(s.tier)
  {
    MsgsAreTxs(s.tier);
    hide Msgs, Envs;
    EnvelopesOfTxs(Envs(s.tier));
    assert g.tiers.high + g.tiers.normal + g.tiers.low == g.tiers.normal;
  }

  lemma ReplyProjects(g: Gossip, s: Store, known: seq<U32>)
    requires Projects(g, s)
    ensures SyncReply(g, known) == Envs(Unlisted(s.tier, known))
  {
    HeldProjects(g, s);
    UnlistedProjects(s.tier, known);
  }

  lemma TakeProjects(g: Gossip, s: Store, now: nat)
    requires Projects(g, s)
    ensures var (g', batch) := TakeBatch(g, now);
            var (s', copies) := Taken(s, now);
            Projects(g', s') && batch == Envs(copies)
  {
    var all := Sort(s.tier, Composed(MessageOf(), UrgencyKey(now)));
    var k := Min(FANOUT_BATCH_SIZE, |all|);
    SortMaps(s.tier, MessageOf(), UrgencyKey(now));
    EnvsSlices(all, k);
    MsgsAreTxs(all[..k]);
    hide Sort, Envs, Composed, UrgencyKey;
    EnvelopesOfTxs(Envs(all[..k]));
  }

  // ---- Parcels forget the tags correctly ----------------------------------------------------------

  ghost function PlainNet(net: set<Parcel>): set<M.Packet>
  {
    set p | p in net :: Plain(p)
  }

  lemma PlainUnion(a: set<Parcel>, b: set<Parcel>)
    ensures PlainNet(a + b) == PlainNet(a) + PlainNet(b)
  {
    hide Plain;
  }

  lemma ParcelsProject(n: Key, batch: seq<Copy>, vs: seq<Verdict>, recipients: seq<Key>)
    requires |batch| == |vs|
    ensures PlainNet(Parcels(n, batch, vs, recipients))
         == set s | s in Sends(vs, recipients) :: M.TxPacket(s.0, s.1)
  {
    var parcels := Parcels(n, batch, vs, recipients);
    forall to: Key, e: Envelope ensures M.TxPacket(to, e) in PlainNet(parcels) <==> SentTo(vs, recipients, to, e) {
      if SentTo(vs, recipients, to, e) {
        var i, k :| 0 <= i < |recipients| && 0 <= k < |vs| && vs[k].Forwarded?
                    && recipients[i] == to && vs[k].outbound == e;
        var p := TxParcel(recipients[i], PushedBy(batch[k], n, vs[k].outbound));
        assert p in parcels && Plain(p) == M.TxPacket(to, e);
      }
    }
    forall to: Key, e: Envelope ensures (to, e) in Sends(vs, recipients) <==> SentTo(vs, recipients, to, e) {
      SendsMeaning(vs, recipients, to, e);
    }
    hide SentTo, Sends;
    forall q | q in PlainNet(parcels) ensures q.TxPacket? {}
  }

  // ---- Every step forgets the tags correctly ------------------------------------------------------

  ghost predicate Forgets(t: Tagged)
  {
    && t.stores.Keys == t.m.nodes.Keys
    && (forall n :: n in t.stores ==> Projects(t.m.nodes[n].gossip, t.stores[n]))
    && t.m.net == PlainNet(t.net)
    && t.m.history.originated == set b | b in t.births :: b.1
  }

  /** One node's store changes as its queue and backlog do. */
  lemma StoreChangeForgets(t: Tagged, t': Tagged, n: Key, s: Store)
    requires Forgets(t) && n in t.m.nodes && n in t'.m.nodes && Projects(t'.m.nodes[n].gossip, s)
    requires t'.m.nodes == t.m.nodes[n := t'.m.nodes[n]] && t'.stores == t.stores[n := s]
    requires t'.m.net == t.m.net && t'.net == t.net
    requires t'.births == t.births && t'.m.history.originated == t.m.history.originated
    ensures Forgets(t')
  {
    hide Projects, PlainNet;
  }

  lemma NetGrowsForgets(t: Tagged, t': Tagged, more: set<Parcel>, plain: set<M.Packet>)
    requires Forgets(t) && PlainNet(more) == plain
    requires t'.m.nodes == t.m.nodes && t'.stores == t.stores
    requires t'.m.net == t.m.net + plain && t'.net == t.net + more
    requires t'.births == t.births && t'.m.history.originated == t.m.history.originated
    ensures Forgets(t')
  {
    PlainUnion(t.net, more);
    hide Projects, PlainNet;
  }

  lemma OneParcel(p: Parcel)
    ensures PlainNet({p}) == {Plain(p)}
  {
    hide Plain;
  }

  lemma JoinForgets(t: Tagged, capacity: nat, n: Key, h: Hash, h': Hash)
    requires Forgets(t)
    ensures Forgets(Step(t, capacity, Local(M.Join(n, h, h'))))
  {
    assert Msgs([]) == [] && Envs([]) == [];
    hide PlainNet, Msgs, Envs;
  }

  lemma OriginateForgets(t: Tagged, capacity: nat, n: Key, e: Envelope)
    requires Forgets(t) && n in t.m.nodes
    ensures Forgets(Step(t, capacity, Local(M.Originate(n, e))))
  {
    AddProjects(t.m.nodes[n].gossip, t.stores[n], Copy(e, n, e, []));
    hide Projects, PlainNet, WithEnvelope, Appended;
    BirthRecorded(t.births, n, e);
  }

  lemma BirthRecorded(births: set<(Key, Envelope)>, n: Key, e: Envelope)
    ensures (set b | b in births + {(n, e)} :: b.1) == (set b | b in births :: b.1) + {e}
  {
    assert (n, e) in births + {(n, e)} && (n, e).1 == e;
  }

  lemma RoundForgets(t: Tagged, capacity: nat, n: Key, recipients: seq<Key>, now: nat, hashes: nat -> Hash)
    requires Forgets(t) && n in t.m.nodes
    ensures Forgets(Step(t, capacity, Local(M.Round(n, recipients, now, hashes))))
  {
    var node := t.m.nodes[n];
    TakeProjects(node.gossip, t.stores[n], now);
    var (s, batch) := Taken(t.stores[n], now);
    var vs := Verdicts(node.filter, capacity, Envs(batch), hashes);
    ParcelsProject(n, batch, vs, recipients);
    PlainUnion(t.net, Parcels(n, batch, vs, recipients));
    hide Projects, PlainNet, Taken, TakeBatch, Verdicts, Parcels, Sends, M.HopsOf, Outbound, PushIndices, FilterAfter;
  }

  lemma PaceForgets(t: Tagged, capacity: nat, n: Key, k: nat)
    requires Forgets(t) && n in t.m.nodes
    ensures Forgets(Step(t, capacity, Local(M.PaceBacklog(n, k))))
  {
    PacedProjects(t.m.nodes[n].gossip, t.stores[n], k);
    hide Projects, PlainNet, Paced, PacedIn;
    StoreChangeForgets(t, Step(t, capacity, Local(M.PaceBacklog(n, k))), n, PacedIn(t.stores[n], k));
  }

  lemma RequestForgets(t: Tagged, capacity: nat, n: Key, peer: Key)
    requires Forgets(t) && n in t.m.nodes
    ensures Forgets(Step(t, capacity, Local(M.RequestSync(n, peer))))
  {
    var p := RequestParcel(peer, n, KnownPrefixes(t.m.nodes[n].gossip));
    OneParcel(p);
    assert Plain(p) == M.RequestPacket(peer, n, KnownPrefixes(t.m.nodes[n].gossip));
    hide Projects, PlainNet, KnownPrefixes;
    NetGrowsForgets(t, Step(t, capacity, Local(M.RequestSync(n, peer))), {p}, {Plain(p)});
  }

  lemma ArrivedIsSent(t: Tagged, p: Parcel)
    requires Forgets(t) && p in t.net
    ensures Plain(p) in t.m.net
  {
  }

  lemma TxForgets(t: Tagged, capacity: nat, p: Parcel)
    requires Forgets(t) && p in t.net && p.TxParcel? && p.to in t.m.nodes
    ensures Forgets(Step(t, capacity, TxArrives(p)))
  {
    ArrivedIsSent(t, p);
    AddProjects(t.m.nodes[p.to].gossip, t.stores[p.to], p.copy);
    hide Projects, PlainNet, WithEnvelope, Appended;
    StoreChangeForgets(t, Step(t, capacity, TxArrives(p)), p.to, Appended(t.stores[p.to], [p.copy]));
  }

  lemma ReplyForgets(t: Tagged, capacity: nat, p: Parcel)
    requires Forgets(t) && p in t.net && p.ReplyParcel? && p.to in t.m.nodes
    ensures Forgets(Step(t, capacity, ReplyArrives(p)))
  {
    ArrivedIsSent(t, p);
    MergeProjects(t.m.nodes[p.to].gossip, t.stores[p.to], p.copies);
    hide Projects, PlainNet, MergeReply, WithReply, Envs;
    StoreChangeForgets(t, Step(t, capacity, ReplyArrives(p)), p.to, WithReply(t.stores[p.to], p.copies));
  }

  lemma AnswerForgets(t: Tagged, capacity: nat, p: Parcel)
    requires Forgets(t) && p in t.net && p.RequestParcel? && p.to in t.m.nodes
    ensures Forgets(Step(t, capacity, RequestArrives(p)))
  {
    ArrivedIsSent(t, p);
    ReplyProjects(t.m.nodes[p.to].gossip, t.stores[p.to], p.known);
    var q := ReplyParcel(p.from, Unlisted(t.stores[p.to].tier, p.known));
    OneParcel(q);
    assert Plain(q) == M.ReplyPacket(p.from, SyncReply(t.m.nodes[p.to].gossip, p.known));
    hide Projects, PlainNet, SyncReply, Unlisted, Envs;
    NetGrowsForgets(t, Step(t, capacity, RequestArrives(p)), {q}, {Plain(q)});
  }

  lemma LocalForgets(t: Tagged, capacity: nat, ev: LocalEvent)
    requires Forgets(t)
    ensures Forgets(Step(t, capacity, Local(ev)))
  {
    hide Forgets, AfterRound, Appended, PacedIn, KnownPrefixes;
    match ev
    case Join(n, h, h') => JoinForgets(t, capacity, n, h, h');
    case Originate(n, e) => if n in t.m.nodes { OriginateForgets(t, capacity, n, e); }
    case Round(n, recipients, now, hashes) =>
      if n in t.m.nodes { RoundForgets(t, capacity, n, recipients, now, hashes); }
    case RequestSync(n, peer) => if n in t.m.nodes { RequestForgets(t, capacity, n, peer); }
    case PaceBacklog(n, k) => if n in t.m.nodes { PaceForgets(t, capacity, n, k); }
  }

  lemma StepForgets(t: Tagged, capacity: nat, ev: Event)
    requires Forgets(t)
    ensures Forgets(Step(t, capacity, ev))
  {
    hide Forgets, Appended, WithReply, Unlisted;
    match ev
    case Local(e) => LocalForgets(t, capacity, e);
    case TxArrives(p) => if Possible(t, ev) && p.to in t.m.nodes { TxForgets(t, capacity, p); }
    case RequestArrives(p) => if Possible(t, ev) && p.to in t.m.nodes { AnswerForgets(t, capacity, p); }
    case ReplyArrives(p) => if Possible(t, ev) && p.to in t.m.nodes { ReplyForgets(t, capacity, p); }
  }

  // ---- Right tags ---------------------------------------------------------------------------------

  /** The tags of a copy are right: its source originated `origin`; it is `origin` in every field but the ttl, which
      with the pushes on its path makes the originating ttl; and each node of the path has pushed the envelope with
      the ttl it had there. */
  ghost predicate Right(births: set<(Key, Envelope)>, nodes: map<Key, M.Node>, c: Copy)
  {
    && (c.source, c.origin) in births
    && c.e == c.origin.(ttl := c.e.ttl)
    && c.e.ttl + |c.path| == c.origin.ttl
    && forall i :: 0 <= i < |c.path| ==>
         c.path[i] in nodes && c.origin.(ttl := c.origin.ttl - 1 - i) in nodes[c.path[i]].pushed
  }

  ghost predicate AllRight(births: set<(Key, Envelope)>, nodes: map<Key, M.Node>, cs: seq<Copy>)
  {
    forall i :: 0 <= i < |cs| ==> Right(births, nodes, cs[i])
  }

  ghost predicate StoreRight(births: set<(Key, Envelope)>, nodes: map<Key, M.Node>, s: Store)
  {
    AllRight(births, nodes, s.tier) && AllRight(births, nodes, s.backlog)
  }

  ghost predicate ParcelRight(births: set<(Key, Envelope)>, nodes: map<Key, M.Node>, p: Parcel)
  {
    match p
    case TxParcel(_, c) => Right(births, nodes, c)
    case RequestParcel(_, _, _) => true
    case ReplyParcel(_, cs) => AllRight(births, nodes, cs)
  }

  ghost predicate TagsRight(t: Tagged)
  {
    && (forall n :: n in t.stores ==> StoreRight(t.births, t.m.nodes, t.stores[n]))
    && (forall p :: p in t.net ==> ParcelRight(t.births, t.m.nodes, p))
  }

  // ---- Steps keep tags right ----------------------------------------------------------------------

  /** Nodes stay, and their pushes are only added to. */
  ghost predicate NodesGrow(nodes: map<Key, M.Node>, nodes': map<Key, M.Node>)
  {
    forall n :: n in nodes ==> n in nodes' && nodes[n].pushed <= nodes'[n].pushed
  }

  lemma StepGrowsNodes(m: M.Mesh, capacity: nat, ev: M.Event)
    ensures NodesGrow(m.nodes, M.Step(m, capacity, ev).nodes)
  {
    hide WithEnvelope, MergeReply, Paced, SyncReply, TakeBatch, Verdicts, FilterAfter, PushIndices, M.HopsOf, Sends;
  }

  lemma RightGrows(births: set<(Key, Envelope)>, nodes: map<Key, M.Node>, births': set<(Key, Envelope)>,
                   nodes': map<Key, M.Node>, c: Copy)
    requires Right(births, nodes, c) && births <= births' && NodesGrow(nodes, nodes')
    ensures Right(births', nodes', c)
  {
    forall i | 0 <= i < |c.path|
      ensures c.path[i] in nodes' && c.origin.(ttl := c.origin.ttl - 1 - i) in nodes'[c.path[i]].pushed
    {
      var n, e := c.path[i], c.origin.(ttl := c.origin.ttl - 1 - i);
      assert n in nodes && e in nodes[n].pushed;
      PrefixMember(nodes[n].pushed, nodes'[n].pushed, e);
    }
  }

  lemma PrefixMember(a: seq<Envelope>, b: seq<Envelope>, e: Envelope)
    requires a <= b && e in a
    ensures e in b
  {
    var i :| 0 <= i < |a| && a[i] == e;
    assert b[i] == e;
  }

  lemma AllRightGrows(births: set<(Key, Envelope)>, nodes: map<Key, M.Node>, births': set<(Key, Envelope)>,
                      nodes': map<Key, M.Node>, cs: seq<Copy>)
    requires AllRight(births, nodes, cs) && births <= births' && NodesGrow(nodes, nodes')
    ensures AllRight(births', nodes', cs)
  {
    hide Right, NodesGrow;
    forall i | 0 <= i < |cs| ensures Right(births', nodes', cs[i]) {
      RightGrows(births, nodes, births', nodes', cs[i]);
    }
  }

  /** What was held and travelling stays right. */
  lemma TagsGrow(t: Tagged, births': set<(Key, Envelope)>, nodes': map<Key, M.Node>)
    requires TagsRight(t) && t.births <= births' && NodesGrow(t.m.nodes, nodes')
    ensures forall n :: n in t.stores ==> StoreRight(births', nodes', t.stores[n])
    ensures forall p :: p in t.net ==> ParcelRight(births', nodes', p)
  {
    hide Right, AllRight, NodesGrow;
    forall n | n in t.stores ensures StoreRight(births', nodes', t.stores[n]) {
      AllRightGrows(t.births, t.m.nodes, births', nodes', t.stores[n].tier);
      AllRightGrows(t.births, t.m.nodes, births', nodes', t.stores[n].backlog);
    }
    forall p | p in t.net ensures ParcelRight(births', nodes', p) {
      match p
      case TxParcel(_, c) => RightGrows(t.births, t.m.nodes, births', nodes', c);
      case RequestParcel(_, _, _) =>
      case ReplyParcel(_, cs) => AllRightGrows(t.births, t.m.nodes, births', nodes', cs);
    }
  }

  /** Copies that are among right ones. */
  lemma AmongRight(births: set<(Key, Envelope)>, nodes: map<Key, M.Node>, cs: seq<Copy>, part: seq<Copy>)
    requires AllRight(births, nodes, cs) && forall i :: 0 <= i < |part| ==> part[i] in cs
    ensures AllRight(births, nodes, part)
  {
    hide Right;
    forall i | 0 <= i < |part| ensures Right(births, nodes, part[i]) {
      var j :| 0 <= j < |cs| && cs[j] == part[i];
    }
  }

  lemma AppendedRight(births: set<(Key, Envelope)>, nodes: map<Key, M.Node>, s: Store, cs: seq<Copy>)
    requires StoreRight(births, nodes, s) && AllRight(births, nodes, cs)
    ensures StoreRight(births, nodes, Appended(s, cs))
  {
    hide Right;
  }

  lemma PacedRight(births: set<(Key, Envelope)>, nodes: map<Key, M.Node>, s: Store, k: nat)
    requires StoreRight(births, nodes, s)
    ensures StoreRight(births, nodes, PacedIn(s, k))
  {
    hide Right;
  }

  lemma SortRight(births: set<(Key, Envelope)>, nodes: map<Key, M.Node>, cs: seq<Copy>, key: Copy -> SortKey)
    requires AllRight(births, nodes, cs)
    ensures AllRight(births, nodes, Sort(cs, key))
  {
    SortMembers(cs, key);
    hide Sort, AllRight;
    AmongRight(births, nodes, cs, Sort(cs, key));
  }

  lemma WithReplyRight(births: set<(Key, Envelope)>, nodes: map<Key, M.Node>, s: Store, cs: seq<Copy>)
    requires StoreRight(births, nodes, s) && AllRight(births, nodes, cs)
    ensures StoreRight(births, nodes, WithReply(s, cs))
  {
    AppendedRight(births, nodes, s, cs);
    SortRight(births, nodes, cs, Composed(EnvelopeOf(), TimestampKey()));
    hide Sort, Right, Appended, Composed;
  }

  lemma {:induction false} UnlistedRight(births: set<(Key, Envelope)>, nodes: map<Key, M.Node>, cs: seq<Copy>,
                                         known: seq<U32>)
    requires AllRight(births, nodes, cs)
    ensures AllRight(births, nodes, Unlisted(cs, known))
  {
    hide Right;
    if cs == [] {
    } else {
      assert AllRight(births, nodes, cs[1..]);
      UnlistedRight(births, nodes, cs[1..], known);
    }
  }

  lemma TakenRight(births: set<(Key, Envelope)>, nodes: map<Key, M.Node>, s: Store, now: nat)
    requires StoreRight(births, nodes, s)
    ensures StoreRight(births, nodes, Taken(s, now).0) && AllRight(births, nodes, Taken(s, now).1)
  {
    SortRight(births, nodes, s.tier, Composed(MessageOf(), UrgencyKey(now)));
    hide Sort, Right, Composed, UrgencyKey;
  }

  /** A push adds the node to the path and takes one hop off the ttl. */
  lemma PushedRight(births: set<(Key, Envelope)>, nodes: map<Key, M.Node>, c: Copy, n: Key, outbound: Envelope)
    requires Right(births, nodes, c) && n in nodes && outbound in nodes[n].pushed
    requires c.e.ttl > 0 && outbound == c.e.(ttl := c.e.ttl - 1)
    ensures Right(births, nodes, PushedBy(c, n, outbound))
  {
    var c' := PushedBy(c, n, outbound);
    assert c.origin.(ttl := c.origin.ttl - 1 - |c.path|) == outbound;
    forall i | 0 <= i < |c'.path|
      ensures c'.path[i] in nodes && c'.origin.(ttl := c'.origin.ttl - 1 - i) in nodes[c'.path[i]].pushed
    {
      assert i < |c.path| ==> c'.path[i] == c.path[i];
    }
  }

  lemma StoreChangeRight(t: Tagged, t': Tagged, n: Key, s: Store)
    requires TagsRight(t) && t.births <= t'.births && NodesGrow(t.m.nodes, t'.m.nodes)
    requires t'.stores == t.stores[n := s] && t'.net == t.net
    requires StoreRight(t'.births, t'.m.nodes, s)
    ensures TagsRight(t')
  {
    hide StoreRight, ParcelRight, NodesGrow;
    TagsGrow(t, t'.births, t'.m.nodes);
  }

  lemma NetGrowsRight(t: Tagged, t': Tagged, more: set<Parcel>)
    requires TagsRight(t) && t.births <= t'.births && NodesGrow(t.m.nodes, t'.m.nodes)
    requires t'.stores == t.stores && t'.net == t.net + more
    requires forall p :: p in more ==> ParcelRight(t'.births, t'.m.nodes, p)
    ensures TagsRight(t')
  {
    hide StoreRight, ParcelRight, NodesGrow;
    TagsGrow(t, t'.births, t'.m.nodes);
  }

  lemma NothingRight(births: set<(Key, Envelope)>, nodes: map<Key, M.Node>)
    ensures StoreRight(births, nodes, Store([], []))
  {
  }

  lemma OneRight(births: set<(Key, Envelope)>, nodes: map<Key, M.Node>, c: Copy)
    requires Right(births, nodes, c)
    ensures AllRight(births, nodes, [c])
  {
    hide Right;
  }

  lemma AllRightAfter(t: Tagged, t': Tagged, cs: seq<Copy>)
    requires AllRight(t.births, t.m.nodes, cs) && t.births <= t'.births && NodesGrow(t.m.nodes, t'.m.nodes)
    ensures AllRight(t'.births, t'.m.nodes, cs)
  {
    AllRightGrows(t.births, t.m.nodes, t'.births, t'.m.nodes, cs);
  }

  lemma StoreAfter(t: Tagged, t': Tagged, s: Store)
    requires StoreRight(t.births, t.m.nodes, s) && t.births <= t'.births && NodesGrow(t.m.nodes, t'.m.nodes)
    ensures StoreRight(t'.births, t'.m.nodes, s)
  {
    hide AllRight, NodesGrow;
    AllRightAfter(t, t', s.tier);
    AllRightAfter(t, t', s.backlog);
  }

  lemma OriginateRight(t: Tagged, capacity: nat, n: Key, e: Envelope)
    requires Forgets(t) && TagsRight(t) && n in t.m.nodes
    ensures TagsRight(Step(t, capacity, Local(M.Originate(n, e))))
  {
    var t', c := Step(t, capacity, Local(M.Originate(n, e))), Copy(e, n, e, []);
    StepGrowsNodes(t.m, capacity, M.Originate(n, e));
    assert Right(t'.births, t'.m.nodes, c);
    hide StoreRight, NodesGrow, Right, Appended;
    OneRight(t'.births, t'.m.nodes, c);
    StoreAfter(t, t', t.stores[n]);
    AppendedRight(t'.births, t'.m.nodes, t.stores[n], [c]);
    StoreChangeRight(t, t', n, Appended(t.stores[n], [c]));
  }

  lemma PaceRight(t: Tagged, capacity: nat, n: Key, k: nat)
    requires Forgets(t) && TagsRight(t) && n in t.m.nodes
    ensures TagsRight(Step(t, capacity, Local(M.PaceBacklog(n, k))))
  {
    var t' := Step(t, capacity, Local(M.PaceBacklog(n, k)));
    StepGrowsNodes(t.m, capacity, M.PaceBacklog(n, k));
    hide StoreRight, NodesGrow, PacedIn;
    StoreAfter(t, t', t.stores[n]);
    PacedRight(t'.births, t'.m.nodes, t.stores[n], k);
    StoreChangeRight(t, t', n, PacedIn(t.stores[n], k));
  }

  lemma TxRight(t: Tagged, capacity: nat, p: Parcel)
    requires Forgets(t) && TagsRight(t) && p in t.net && p.TxParcel? && p.to in t.m.nodes
    ensures TagsRight(Step(t, capacity, TxArrives(p)))
  {
    var t' := Step(t, capacity, TxArrives(p));
    StepGrowsNodes(t.m, capacity, PlainEvent(TxArrives(p)));
    assert ParcelRight(t.births, t.m.nodes, p);
    hide StoreRight, NodesGrow, Appended, Right;
    OneRight(t.births, t.m.nodes, p.copy);
    AllRightAfter(t, t', [p.copy]);
    StoreAfter(t, t', t.stores[p.to]);
    AppendedRight(t'.births, t'.m.nodes, t.stores[p.to], [p.copy]);
    StoreChangeRight(t, t', p.to, Appended(t.stores[p.to], [p.copy]));
  }

  lemma ReplyRight(t: Tagged, capacity: nat, p: Parcel)
    requires Forgets(t) && TagsRight(t) && p in t.net && p.ReplyParcel? && p.to in t.m.nodes
    ensures TagsRight(Step(t, capacity, ReplyArrives(p)))
  {
    var t' := Step(t, capacity, ReplyArrives(p));
    StepGrowsNodes(t.m, capacity, PlainEvent(ReplyArrives(p)));
    assert ParcelRight(t.births, t.m.nodes, p);
    hide StoreRight, NodesGrow, WithReply, AllRight;
    AllRightAfter(t, t', p.copies);
    StoreAfter(t, t', t.stores[p.to]);
    WithReplyRight(t'.births, t'.m.nodes, t.stores[p.to], p.copies);
    StoreChangeRight(t, t', p.to, WithReply(t.stores[p.to], p.copies));
  }

  lemma AnswerRight(t: Tagged, capacity: nat, p: Parcel)
    requires Forgets(t) && TagsRight(t) && p in t.net && p.RequestParcel? && p.to in t.m.nodes
    ensures TagsRight(Step(t, capacity, RequestArrives(p)))
  {
    var t', cs := Step(t, capacity, RequestArrives(p)), Unlisted(t.stores[p.to].tier, p.known);
    StepGrowsNodes(t.m, capacity, PlainEvent(RequestArrives(p)));
    assert StoreRight(t.births, t.m.nodes, t.stores[p.to]);
    UnlistedRight(t.births, t.m.nodes, t.stores[p.to].tier, p.known);
    hide NodesGrow, AllRight, Unlisted;
    AllRightAfter(t, t', cs);
    NetGrowsRight(t, t', {ReplyParcel(p.from, cs)});
  }

  lemma RequestRight(t: Tagged, capacity: nat, n: Key, peer: Key)
    requires Forgets(t) && TagsRight(t) && n in t.m.nodes
    ensures TagsRight(Step(t, capacity, Local(M.RequestSync(n, peer))))
  {
    var t' := Step(t, capacity, Local(M.RequestSync(n, peer)));
    StepGrowsNodes(t.m, capacity, M.RequestSync(n, peer));
    hide NodesGrow, StoreRight;
    NetGrowsRight(t, t', {RequestParcel(peer, n, KnownPrefixes(t.m.nodes[n].gossip))});
  }

  lemma JoinRight(t: Tagged, capacity: nat, n: Key, h: Hash, h': Hash)
    requires Forgets(t) && TagsRight(t)
    ensures TagsRight(Step(t, capacity, Local(M.Join(n, h, h'))))
  {
    var t' := Step(t, capacity, Local(M.Join(n, h, h')));
    StepGrowsNodes(t.m, capacity, M.Join(n, h, h'));
    NothingRight(t'.births, t'.m.nodes);
    hide NodesGrow, StoreRight;
    if n !in t.m.nodes { StoreChangeRight(t, t', n, Store([], [])); }
  }

  lemma RoundRight(t: Tagged, capacity: nat, n: Key, recipients: seq<Key>, now: nat, hashes: nat -> Hash)
    requires Forgets(t) && TagsRight(t) && n in t.m.nodes
    ensures TagsRight(Step(t, capacity, Local(M.Round(n, recipients, now, hashes))))
  {
    var t' := Step(t, capacity, Local(M.Round(n, recipients, now, hashes)));
    var (s, batch) := Taken(t.stores[n], now);
    var node := t.m.nodes[n];
    var vs := Verdicts(node.filter, capacity, Envs(batch), hashes);
    StepGrowsNodes(t.m, capacity, M.Round(n, recipients, now, hashes));
    TakeProjects(node.gossip, t.stores[n], now);
    assert t'.m.nodes[n].pushed == node.pushed + Outbound(vs);
    assert t'.births == t.births && t'.stores == t.stores[n := s];
    assert t'.net == t.net + Parcels(n, batch, vs, recipients);
    hide StoreRight, NodesGrow, Taken, TakeBatch, Step, Verdicts;
    StoreAfter(t, t', t.stores[n]);
    TakenRight(t'.births, t'.m.nodes, t.stores[n], now);
    ParcelsRight(t', node, capacity, n, batch, recipients, hashes);
    var mid := t'.(net := t.net);
    StoreChangeRight(t, mid, n, s);
    assert NodesGrow(mid.m.nodes, t'.m.nodes) by { SameNodesGrow(t'.m.nodes); }
    NetGrowsRight(mid, t', Parcels(n, batch, vs, recipients));
  }

  lemma SameNodesGrow(nodes: map<Key, M.Node>)
    ensures NodesGrow(nodes, nodes)
  {
  }

  lemma ParcelsRight(t: Tagged, node: M.Node, capacity: nat, n: Key, batch: seq<Copy>, recipients: seq<Key>,
                     hashes: nat -> Hash)
    requires AllRight(t.births, t.m.nodes, batch) && n in t.m.nodes
    requires var vs := Verdicts(node.filter, capacity, Envs(batch), hashes);
             t.m.nodes[n].pushed == node.pushed + Outbound(vs)
    ensures var vs := Verdicts(node.filter, capacity, Envs(batch), hashes);
            forall p :: p in Parcels(n, batch, vs, recipients) ==> ParcelRight(t.births, t.m.nodes, p)
  {
    var vs := Verdicts(node.filter, capacity, Envs(batch), hashes);
    forall p | p in Parcels(n, batch, vs, recipients) ensures ParcelRight(t.births, t.m.nodes, p) {
      var i, k :| 0 <= i < |recipients| && 0 <= k < |vs| && vs[k].Forwarded?
                  && p == TxParcel(recipients[i], PushedBy(batch[k], n, vs[k].outbound));
      VerdictIff(node.filter, capacity, Envs(batch), hashes, k);
      ForwardedIsPushed(vs, k);
      assert Envs(batch)[k] == batch[k].e;
      hide Verdicts, Outbound, Right;
      PushedRight(t.births, t.m.nodes, batch[k], n, vs[k].outbound);
    }
  }

  lemma StepRight(t: Tagged, capacity: nat, ev: Event)
    requires Forgets(t) && TagsRight(t)
    ensures TagsRight(Step(t, capacity, ev))
  {
    hide Forgets, TagsRight, AfterRound, Appended, PacedIn, WithReply, Unlisted, KnownPrefixes;
    if Possible(t, ev) {
      match ev
      case Local(Join(n, h, h')) => JoinRight(t, capacity, n, h, h');
      case Local(Originate(n, e)) => if n in t.m.nodes { OriginateRight(t, capacity, n, e); }
      case Local(Round(n, recipients, now, hashes)) =>
        if n in t.m.nodes { RoundRight(t, capacity, n, recipients, now, hashes); }
      case Local(RequestSync(n, peer)) => if n in t.m.nodes { RequestRight(t, capacity, n, peer); }
      case Local(PaceBacklog(n, k)) => if n in t.m.nodes { PaceRight(t, capacity, n, k); }
      case TxArrives(p) => if p.to in t.m.nodes { TxRight(t, capacity, p); }
      case RequestArrives(p) => if p.to in t.m.nodes { AnswerRight(t, capacity, p); }
      case ReplyArrives(p) => if p.to in t.m.nodes { ReplyRight(t, capacity, p); }
    }
  }

  // ---- Runs ---------------------------------------------------------------------------------------

  ghost function Start(): (t: Tagged)
    ensures Forgets(t)
  {
    Tagged(M.Mesh(map[], {}, M.History({}, {})), map[], {}, {})
  }

  ghost function Run(capacity: nat, evs: seq<Event>): (t: Tagged)
    ensures Forgets(t)
  {
    if evs == [] then Start()
    else
      var t := Run(capacity, evs[..|evs| - 1]);
      StepForgets(t, capacity, evs[|evs| - 1]);
      Step(t, capacity, evs[|evs| - 1])
  }

  /** The events of the run that could happen, without tags. */
  ghost function PlainRun(capacity: nat, evs: seq<Event>): seq<M.Event>
  {
    if evs == [] then []
    else
      var pre, ev := evs[..|evs| - 1], evs[|evs| - 1];
      if !Possible(Run(capacity, pre), ev) then PlainRun(capacity, pre)
      else PlainRun(capacity, pre) + [PlainEvent(ev)]
  }

  lemma PlainRunOfLast(capacity: nat, evs: seq<M.Event>, ev: M.Event)
    ensures M.Run(capacity, evs + [ev]) == M.Step(M.Run(capacity, evs), capacity, ev)
  {
    assert (evs + [ev])[..|evs|] == evs;
  }

  /** Without its tags, a run with tags is a run of the mesh. */
  lemma {:induction false} TaggedRunIsRun(capacity: nat, evs: seq<Event>)
    ensures Run(capacity, evs).m == M.Run(capacity, PlainRun(capacity, evs))
  {
    if evs == [] {
    } else {
      var pre, ev := evs[..|evs| - 1], evs[|evs| - 1];
      TaggedRunIsRun(capacity, pre);
      PlainRunOfLast(capacity, PlainRun(capacity, pre), PlainEvent(ev));
      hide M.Run, M.Step, PlainEvent, Forgets, Possible;
      StepIsPlain(Run(capacity, pre), capacity, ev);
    }
  }

  lemma StepIsPlain(t: Tagged, capacity: nat, ev: Event)
    requires Forgets(t)
    ensures Step(t, capacity, ev).m == if Possible(t, ev) then M.Step(t.m, capacity, PlainEvent(ev)) else t.m
  {
    hide M.Step, AfterRound, Appended, PacedIn, WithReply, Unlisted, KnownPrefixes;
  }

  lemma {:induction false} RunTagsRight(capacity: nat, evs: seq<Event>)
    ensures TagsRight(Run(capacity, evs))
  {
    if evs == [] {
    } else {
      var pre := evs[..|evs| - 1];
      RunTagsRight(capacity, pre);
      hide TagsRight, Forgets, Step;
      StepRight(Run(capacity, pre), capacity, evs[|evs| - 1]);
    }
  }

  /** In every run, every copy in a queue, in a backlog or in a parcel carries where it was originated, with which
      ttl, and by which nodes it has been pushed since: its ttl plus the length of that path is the originating ttl,
      and each node of the path did push it. Tags aside, the run is a run of the mesh. */
  lemma CopiesCarryTheirPath(capacity: nat, evs: seq<Event>)
    ensures var t := Run(capacity, evs);
            && t.m == M.Run(capacity, PlainRun(capacity, evs)) && Forgets(t)
            && (forall n, i :: n in t.stores && 0 <= i < |t.stores[n].tier| ==>
                  Right(t.births, t.m.nodes, t.stores[n].tier[i]))
            && (forall n, i :: n in t.stores && 0 <= i < |t.stores[n].backlog| ==>
                  Right(t.births, t.m.nodes, t.stores[n].backlog[i]))
            && (forall p :: p in t.net ==> ParcelRight(t.births, t.m.nodes, p))
  {
    TaggedRunIsRun(capacity, evs);
    RunTagsRight(capacity, evs);
    hide Run, M.Run, PlainRun, Forgets, Right, ParcelRight;
    var t := Run(capacity, evs);
    forall n | n in t.stores ensures StoreRight(t.births, t.m.nodes, t.stores[n]) {}
  }

  lemma ParcelBehind(t: Tagged, p: M.Packet) returns (q: Parcel)
    requires Forgets(t) && p in t.m.net
    ensures q in t.net && Plain(q) == p
  {
    hide Projects, Plain;
    q :| q in t.net && Plain(q) == p;
  }

  /** A mesh event as a tagged one with the same effect on the mesh, or nothing if it has none. */
  lemma TaggedEvent(t: Tagged, capacity: nat, ev: M.Event) returns (evs: seq<Event>)
    requires Forgets(t)
    ensures evs == [] ==> M.Step(t.m, capacity, ev) == t.m
    ensures evs != [] ==> |evs| == 1 && Possible(t, evs[0]) && PlainEvent(evs[0]) == ev
  {
    hide Forgets, WithEnvelope, MergeReply, SyncReply;
    evs := [];
    match ev
    case DeliverTx(p) =>
      if p in t.m.net && p.TxPacket? {
        var q := ParcelBehind(t, p);
        evs := [TxArrives(q)];
      }
    case DeliverRequest(p) =>
      if p in t.m.net && p.RequestPacket? {
        var q := ParcelBehind(t, p);
        evs := [RequestArrives(q)];
      }
    case DeliverReply(p) =>
      if p in t.m.net && p.ReplyPacket? {
        var q := ParcelBehind(t, p);
        evs := [ReplyArrives(q)];
      }
    case _ => evs := [Local(ev)];
  }

  lemma RunOfLast(capacity: nat, evs: seq<Event>, ev: Event)
    ensures Run(capacity, evs + [ev]) == Step(Run(capacity, evs), capacity, ev)
  {
    hide Step, Forgets;
    assert (evs + [ev])[..|evs|] == evs;
  }

  /** And every run of the mesh is one: its copies can be tagged so. */
  lemma {:induction false} EveryRunIsTagged(capacity: nat, evs: seq<M.Event>) returns (tagged: seq<Event>)
    ensures Run(capacity, tagged).m == M.Run(capacity, evs)
  {
    tagged := [];
    if evs == [] {
    } else {
      var pre, ev := evs[..|evs| - 1], evs[|evs| - 1];
      tagged := EveryRunIsTagged(capacity, pre);
      var t := Run(capacity, tagged);
      hide Step, M.Step, Forgets, Run;
      var one := TaggedEvent(t, capacity, ev);
      if one != [] {
        RunOfLast(capacity, tagged, one[0]);
        StepIsPlain(t, capacity, one[0]);
        tagged := tagged + [one[0]];
      }
    }
  }
}
