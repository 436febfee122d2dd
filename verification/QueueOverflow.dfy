/** Which message an overflow of the Normal tier drops (src/gossip/queue.rs): "the oldest", as documented, or not. */
module QueueOverflow {
  import opened Core
  import opened Messages
  import opened StableSort
  import opened PriorityQueue

  /** A queued message with its place in the order of arrival. */
  datatype Arrived = Arrived(at: nat, m: ProtocolMessage)

  /** A drain: how many messages had arrived before it, and its clock. */
  datatype DrainPoint = DrainPoint(arrivals: nat, now: nat)

  ghost function MessageOf(): Arrived -> ProtocolMessage
  {
    (a: Arrived) => a.m
  }

  ghost function MessagesOf(p: seq<Arrived>): seq<ProtocolMessage>
  {
    Mapped(p, MessageOf())
  }

  ghost function ArrivedKey(now: nat): Arrived -> SortKey
  {
    Composed(MessageOf(), UrgencyKey(now))
  }

  /** What an operation does to the Normal tier, when each message keeps its place of arrival. */
  ghost function TierStep(t: seq<Arrived>, op: Op, highEmpty: bool, arrivals: nat): seq<Arrived>
  {
    match op
    case Push(m) =>
      if !m.Transaction? then t
      else if |t| + 1 > NORMAL_CAPACITY then (t + [Arrived(arrivals, m)])[1..]
      else t + [Arrived(arrivals, m)]
    case Pop => if highEmpty && t != [] then t[1..] else t
    case Drain(n, now) => if n == 0 then t else Sort(t, ArrivedKey(now))[Min(n, |t|)..]
  }

  /** The Normal tier after a run, with the place of each message among the transactions pushed. */
  ghost function ArrivedTier(ops: seq<Op>): seq<Arrived>
  {
    if ops == [] then []
    else
      var pre := ops[..|ops| - 1];
      TierStep(ArrivedTier(pre), ops[|ops| - 1], Run(pre).tiers.high == [], |PushedTxs(pre)|)
  }

  /** The drains of a run that take a batch. */
  ghost function DrainsOf(ops: seq<Op>): seq<DrainPoint>
  {
    if ops == [] then []
    else
      var pre, op := ops[..|ops| - 1], ops[|ops| - 1];
      if op.Drain? && op.batchSize > 0 then DrainsOf(pre) + [DrainPoint(|PushedTxs(pre)|, op.now)] else DrainsOf(pre)
  }

  /** At the latest of the drains both were present for and at which their urgency differs, `x` was the more
      urgent one; if there is none, `x` arrived first. */
  ghost predicate Before(x: Arrived, y: Arrived, drains: seq<DrainPoint>)
  {
    if drains == [] then x.at < y.at
    else
      var d := drains[|drains| - 1];
      if x.at < d.arrivals && y.at < d.arrivals && UrgencyScore(x.m, d.now) != UrgencyScore(y.m, d.now)
      then UrgencyScore(x.m, d.now) > UrgencyScore(y.m, d.now)
      else Before(x, y, drains[..|drains| - 1])
  }

  ghost predicate IsOldest(p: seq<Arrived>, k: nat)
    requires k < |p|
  {
    forall j :: 0 <= j < |p| ==> p[k].at <= p[j].at
  }

  // ---- Pushing until the tier overflows -----------------------------------------------------------

  ghost function Pushes(ms: seq<ProtocolMessage>): seq<Op>
  {
    seq(|ms|, i requires 0 <= i < |ms| => Push(ms[i]))
  }

  /** One more transaction: appended while there is room, and otherwise the front makes room for it. */
  lemma PushTransaction(l: Ledger, m: ProtocolMessage)
    requires m.Transaction?
    ensures var (s, out) := Append(l.tiers.normal, m, NORMAL_CAPACITY);
            && Step(l, Push(m)).tiers == l.tiers.(normal := s)
            && Step(l, Push(m)).dropped == l.dropped + OptionSet(out)
  {
  }

  lemma PushFits(l: Ledger, m: ProtocolMessage)
    requires m.Transaction? && |l.tiers.normal| < NORMAL_CAPACITY
    ensures Step(l, Push(m)).tiers.normal == l.tiers.normal + [m]
    ensures Step(l, Push(m)).dropped == l.dropped
  {
    PushTransaction(l, m);
  }

  lemma PushesSnoc(ops: seq<Op>, ms: seq<ProtocolMessage>, m: ProtocolMessage)
    ensures ops + Pushes(ms + [m]) == (ops + Pushes(ms)) + [Push(m)]
  {
  }

  lemma RunOfLast(ops: seq<Op>, op: Op)
    ensures Run(ops + [op]) == Step(Run(ops), op)
  {
    assert (ops + [op])[..|ops|] == ops;
  }

  ghost predicate AllTransactions(ms: seq<ProtocolMessage>)
  {
    forall i :: 0 <= i < |ms| ==> ms[i].Transaction?
  }

  lemma OneMoreFits(ops: seq<Op>, ms: seq<ProtocolMessage>, m: ProtocolMessage)
    requires m.Transaction? && |Run(ops + Pushes(ms)).tiers.normal| < NORMAL_CAPACITY
    ensures Run(ops + Pushes(ms + [m])).tiers.normal == Run(ops + Pushes(ms)).tiers.normal + [m]
    ensures Run(ops + Pushes(ms + [m])).dropped == Run(ops + Pushes(ms)).dropped
  {
    hide Run, Step, Pushes;
    PushesSnoc(ops, ms, m);
    RunOfLast(ops + Pushes(ms), Push(m));
    PushFits(Run(ops + Pushes(ms)), m);
  }

  lemma {:induction false} PushesFill(ops: seq<Op>, ms: seq<ProtocolMessage>)
    requires AllTransactions(ms)
    requires |Run(ops).tiers.normal| + |ms| <= NORMAL_CAPACITY
    ensures Run(ops + Pushes(ms)).tiers.normal == Run(ops).tiers.normal + ms
    ensures Run(ops + Pushes(ms)).dropped == Run(ops).dropped
    decreases |ms|
  {
    if ms == [] {
      assert ops + Pushes(ms) == ops;
    } else {
      var pre, m := ms[..|ms| - 1], ms[|ms| - 1];
      assert AllTransactions(pre) && m.Transaction?;
      hide Run, Pushes, AllTransactions;
      PushesFill(ops, pre);
      OneMoreFits(ops, pre, m);
      LastSplit(Run(ops).tiers.normal, ms);
    }
  }

  lemma LastSplit<T>(s: seq<T>, ms: seq<T>)
    requires ms != []
    ensures var pre, last := ms[..|ms| - 1], [ms[|ms| - 1]];
            ms == pre + last && s + ms == (s + pre) + last
  {
  }

  /** The push that finds the tier full. */
  lemma PushOverflows(l: Ledger, m: ProtocolMessage)
    requires m.Transaction? && |l.tiers.normal| == NORMAL_CAPACITY
    ensures Step(l, Push(m)).tiers.normal == (l.tiers.normal + [m])[1..]
    ensures Step(l, Push(m)).dropped == l.dropped + multiset{(l.tiers.normal + [m])[0]}
  {
    PushTransaction(l, m);
  }

  // ---- The order of the tier ----------------------------------------------------------------------

  ghost predicate Ordered(t: seq<Arrived>, drains: seq<DrainPoint>)
  {
    forall i, j :: 0 <= i < j < |t| ==> t[i].at != t[j].at && Before(t[i], t[j], drains)
  }

  /** Each message is the one that arrived at its place. */
  ghost predicate Placed(t: seq<Arrived>, txs: seq<ProtocolMessage>)
  {
    forall i :: 0 <= i < |t| ==> t[i].at < |txs| && txs[t[i].at] == t[i].m
  }

  ghost predicate Past(drains: seq<DrainPoint>, arrivals: nat)
  {
    forall i :: 0 <= i < |drains| ==> drains[i].arrivals <= arrivals
  }

  ghost predicate OrderInv(t: seq<Arrived>, drains: seq<DrainPoint>, txs: seq<ProtocolMessage>)
  {
    Ordered(t, drains) && Placed(t, txs) && Past(drains, |txs|)
  }

  lemma {:induction false} BeforeIsAsymmetric(x: Arrived, y: Arrived, drains: seq<DrainPoint>)
    requires Before(x, y, drains)
    ensures !Before(y, x, drains)
    decreases |drains|
  {
    if drains == [] {
    } else {
      var d := drains[|drains| - 1];
      if !(x.at < d.arrivals && y.at < d.arrivals && UrgencyScore(x.m, d.now) != UrgencyScore(y.m, d.now)) {
        BeforeIsAsymmetric(x, y, drains[..|drains| - 1]);
      }
    }
  }

  /** What has just arrived was present for no drain, so it is behind everything. */
  lemma {:induction false} NewIsLast(x: Arrived, y: Arrived, drains: seq<DrainPoint>)
    requires Past(drains, y.at) && x.at < y.at
    ensures Before(x, y, drains)
    decreases |drains|
  {
    if drains == [] {
    } else {
      NewIsLast(x, y, drains[..|drains| - 1]);
    }
  }

  lemma AppendKeepsOrder(t: seq<Arrived>, drains: seq<DrainPoint>, txs: seq<ProtocolMessage>, m: ProtocolMessage)
    requires OrderInv(t, drains, txs)
    ensures OrderInv(t + [Arrived(|txs|, m)], drains, txs + [m])
  {
    var x := Arrived(|txs|, m);
    hide Before;
    forall i | 0 <= i < |t| ensures t[i].at != x.at && Before(t[i], x, drains) { NewIsLast(t[i], x, drains); }
  }

  lemma TailKeepsOrder(t: seq<Arrived>, k: nat, drains: seq<DrainPoint>, txs: seq<ProtocolMessage>)
    requires OrderInv(t, drains, txs) && k <= |t|
    ensures OrderInv(t[k..], drains, txs)
  {
    hide Before;
  }

  /** The order after one more drain, for messages present at it. */
  lemma BeforeAfterDrain(x: Arrived, y: Arrived, drains: seq<DrainPoint>, d: DrainPoint)
    requires x.at < d.arrivals && y.at < d.arrivals
    ensures Before(x, y, drains + [d])
        <==> UrgencyScore(x.m, d.now) > UrgencyScore(y.m, d.now)
             || (UrgencyScore(x.m, d.now) == UrgencyScore(y.m, d.now) && Before(x, y, drains))
  {
    assert (drains + [d])[..|drains|] == drains;
    hide UrgencyScore;
  }

  lemma KeyOrder(x: Arrived, y: Arrived, now: nat)
    ensures Leq(ArrivedKey(now)(x), ArrivedKey(now)(y)) <==> UrgencyScore(x.m, now) >= UrgencyScore(y.m, now)
  {
    assert ArrivedKey(now)(x) == UrgencyKey(now)(x.m) == Finite(-UrgencyScore(x.m, now));
    assert ArrivedKey(now)(y) == UrgencyKey(now)(y.m) == Finite(-UrgencyScore(y.m, now));
  }

  ghost predicate AllPresent(t: seq<Arrived>, d: DrainPoint)
  {
    forall i :: 0 <= i < |t| ==> t[i].at < d.arrivals
  }

  /** `x` comes before all of `p`. */
  ghost predicate Leads(x: Arrived, p: seq<Arrived>, drains: seq<DrainPoint>)
  {
    forall i :: 0 <= i < |p| ==> x.at != p[i].at && Before(x, p[i], drains)
  }

  lemma LeadsOrdered(x: Arrived, p: seq<Arrived>, drains: seq<DrainPoint>)
    requires Leads(x, p, drains) && Ordered(p, drains)
    ensures Ordered([x] + p, drains)
  {
    hide Before;
  }

  lemma OrderedParts(p: seq<Arrived>, drains: seq<DrainPoint>)
    requires Ordered(p, drains) && p != []
    ensures Ordered(p[1..], drains) && Leads(p[0], p[1..], drains)
  {
    hide Before;
  }

  /** What precedes `p` before the drain and is at least as urgent as its front at the drain leads it afterwards. */
  lemma UrgentLeads(x: Arrived, p: seq<Arrived>, drains: seq<DrainPoint>, d: DrainPoint)
    requires x.at < d.arrivals && AllPresent(p, d) && p != []
    requires Leads(x, p, drains) && Ordered(p, drains + [d])
    requires UrgencyScore(x.m, d.now) >= UrgencyScore(p[0].m, d.now)
    ensures Leads(x, p, drains + [d])
  {
    hide Before, UrgencyScore;
    forall i | 0 <= i < |p| ensures x.at != p[i].at && Before(x, p[i], drains + [d]) {
      if i > 0 { BeforeAfterDrain(p[0], p[i], drains, d); }
      BeforeAfterDrain(x, p[i], drains, d);
    }
  }

  /** The front stays in front of a less urgent message put behind it. */
  lemma FrontLeads(x: Arrived, p: seq<Arrived>, r: seq<Arrived>, drains: seq<DrainPoint>, d: DrainPoint)
    requires x.at < d.arrivals && AllPresent(p, d) && p != []
    requires Leads(x, p, drains) && Ordered(p, drains + [d])
    requires UrgencyScore(x.m, d.now) < UrgencyScore(p[0].m, d.now)
    requires forall i :: 0 <= i < |r| ==> r[i] == x || r[i] in p[1..]
    ensures Leads(p[0], r, drains + [d])
  {
    OrderedParts(p, drains + [d]);
    BeforeAfterDrain(p[0], x, drains, d);
    hide Before, UrgencyScore, Ordered;
    assert x.at != p[0].at;
  }

  lemma {:induction false} InsertKeepsOrder(x: Arrived, p: seq<Arrived>, drains: seq<DrainPoint>, d: DrainPoint)
    requires x.at < d.arrivals && AllPresent(p, d)
    requires Leads(x, p, drains) && Ordered(p, drains + [d])
    ensures Ordered(Insert(x, p, ArrivedKey(d.now)), drains + [d])
    ensures forall i :: 0 <= i < |p| + 1 ==>
              Insert(x, p, ArrivedKey(d.now))[i] == x || Insert(x, p, ArrivedKey(d.now))[i] in p
    decreases |p|
  {
    if p == [] {
    } else {
      KeyOrder(x, p[0], d.now);
      OrderedParts(p, drains + [d]);
      hide ArrivedKey, UrgencyScore, Leq, Ordered, Before;
      if Leq(ArrivedKey(d.now)(x), ArrivedKey(d.now)(p[0])) {
        UrgentLeads(x, p, drains, d);
        LeadsOrdered(x, p, drains + [d]);
      } else {
        InsertKeepsOrder(x, p[1..], drains, d);
        var r := Insert(x, p[1..], ArrivedKey(d.now));
        FrontLeads(x, p, r, drains, d);
        LeadsOrdered(p[0], r, drains + [d]);
      }
    }
  }

  lemma LeadsSorted(x: Arrived, p: seq<Arrived>, r: seq<Arrived>, drains: seq<DrainPoint>)
    requires Leads(x, p, drains) && forall i :: 0 <= i < |r| ==> r[i] in p
    ensures Leads(x, r, drains)
  {
    hide Before;
  }

  lemma PresentSorted(p: seq<Arrived>, r: seq<Arrived>, d: DrainPoint)
    requires AllPresent(p, d) && forall i :: 0 <= i < |r| ==> r[i] in p
    ensures AllPresent(r, d)
  {
  }

  /** A drain's stable sort turns the order into the one that counts the drain. */
  lemma {:induction false} SortKeepsOrder(p: seq<Arrived>, drains: seq<DrainPoint>, d: DrainPoint)
    requires Ordered(p, drains) && AllPresent(p, d)
    ensures Ordered(Sort(p, ArrivedKey(d.now)), drains + [d])
    decreases |p|
  {
    if p == [] {
    } else {
      var key, r := ArrivedKey(d.now), Sort(p[1..], ArrivedKey(d.now));
      OrderedParts(p, drains);
      SortKeepsOrder(p[1..], drains, d);
      SortMembers(p[1..], key);
      hide Before, Ordered, Insert, ArrivedKey;
      LeadsSorted(p[0], p[1..], r, drains);
      PresentSorted(p[1..], r, d);
      InsertKeepsOrder(p[0], r, drains, d);
    }
  }

  lemma DrainKeepsOrder(t: seq<Arrived>, drains: seq<DrainPoint>, txs: seq<ProtocolMessage>, n: nat, now: nat)
    requires OrderInv(t, drains, txs)
    ensures OrderInv(Sort(t, ArrivedKey(now))[Min(n, |t|)..], drains + [DrainPoint(|txs|, now)], txs)
  {
    var d, r := DrainPoint(|txs|, now), Sort(t, ArrivedKey(now));
    SortMembers(t, ArrivedKey(now));
    assert AllPresent(t, d);
    hide Before, Sort, ArrivedKey;
    SortKeepsOrder(t, drains, d);
    assert Placed(r, txs);
    TailKeepsOrder(r, Min(n, |t|), drains + [d], txs);
  }

  // ---- Every run ----------------------------------------------------------------------------------

  lemma PushProjects(t: seq<Arrived>, l: Ledger, m: ProtocolMessage, arrivals: nat)
    requires MessagesOf(t) == l.tiers.normal && m.Transaction?
    ensures MessagesOf(TierStep(t, Push(m), l.tiers.high == [], arrivals)) == Step(l, Push(m)).tiers.normal
  {
    HeldMessages(t, m, arrivals);
    assert |MessagesOf(t)| == |t|;
    PushTransaction(l, m);
    hide MessagesOf, Step;
  }

  lemma OtherPushProjects(t: seq<Arrived>, l: Ledger, m: ProtocolMessage, arrivals: nat)
    requires MessagesOf(t) == l.tiers.normal && !m.Transaction?
    ensures MessagesOf(TierStep(t, Push(m), l.tiers.high == [], arrivals)) == Step(l, Push(m)).tiers.normal
  {
    hide MessagesOf;
  }

  lemma PopProjects(t: seq<Arrived>, l: Ledger, arrivals: nat)
    requires MessagesOf(t) == l.tiers.normal
    ensures MessagesOf(TierStep(t, Pop, l.tiers.high == [], arrivals)) == Step(l, Pop).tiers.normal
  {
    if t != [] { assert MessagesOf(t[1..]) == MessagesOf(t)[1..]; }
  }

  lemma DrainProjects(t: seq<Arrived>, l: Ledger, n: nat, now: nat, arrivals: nat)
    requires MessagesOf(t) == l.tiers.normal
    ensures MessagesOf(TierStep(t, Drain(n, now), l.tiers.high == [], arrivals)) == Step(l, Drain(n, now)).tiers.normal
  {
    SortMaps(t, MessageOf(), UrgencyKey(now));
    hide Sort;
    var all, k := Sort(t, ArrivedKey(now)), Min(n, |t|);
    assert MessagesOf(all[k..]) == MessagesOf(all)[k..];
  }

  lemma StepProjects(t: seq<Arrived>, l: Ledger, op: Op, arrivals: nat)
    requires MessagesOf(t) == l.tiers.normal
    ensures MessagesOf(TierStep(t, op, l.tiers.high == [], arrivals)) == Step(l, op).tiers.normal
  {
    hide TierStep, Step, MessagesOf;
    match op
    case Push(m) =>
      if m.Transaction? { PushProjects(t, l, m, arrivals); } else { OtherPushProjects(t, l, m, arrivals); }
    case Pop => PopProjects(t, l, arrivals);
    case Drain(n, now) => DrainProjects(t, l, n, now, arrivals);
  }

  /** The run with places is the run of the queue. */
  lemma {:induction false} TierMatches(ops: seq<Op>)
    ensures MessagesOf(ArrivedTier(ops)) == Run(ops).tiers.normal
  {
    if ops == [] {
    } else {
      var pre := ops[..|ops| - 1];
      TierMatches(pre);
      hide TierStep, Step, MessagesOf;
      StepProjects(ArrivedTier(pre), Run(pre), ops[|ops| - 1], |PushedTxs(pre)|);
    }
  }

  /** In every run, whatever is pushed, popped and drained, the Normal tier is ordered by `Before`. */
  lemma {:induction false} TierIsOrdered(ops: seq<Op>)
    ensures OrderInv(ArrivedTier(ops), DrainsOf(ops), PushedTxs(ops))
  {
    if ops == [] {
    } else {
      var pre, op := ops[..|ops| - 1], ops[|ops| - 1];
      var t, drains, txs := ArrivedTier(pre), DrainsOf(pre), PushedTxs(pre);
      TierIsOrdered(pre);
      hide OrderInv, Sort;
      match op
      case Push(m) =>
        if m.Transaction? {
          AppendKeepsOrder(t, drains, txs, m);
          TailKeepsOrder(t + [Arrived(|txs|, m)], 1, drains, txs + [m]);
        }
      case Pop => if t != [] { TailKeepsOrder(t, 1, drains, txs); }
      case Drain(n, now) => if n > 0 { DrainKeepsOrder(t, drains, txs, n, now); }
    }
  }

  // ---- The documented promise ---------------------------------------------------------------------

  /** No other message comes before the oldest one. */
  ghost predicate OldestComesFirst(p: seq<Arrived>, drains: seq<DrainPoint>)
  {
    forall k, j :: 0 <= k < |p| && 0 <= j < |p| && j != k && IsOldest(p, k) ==> !Before(p[j], p[k], drains)
  }

  lemma {:induction false} OldestExists(p: seq<Arrived>) returns (k: nat)
    requires p != []
    ensures k < |p| && IsOldest(p, k)
    decreases |p|
  {
    k := 0;
    if |p| == 1 {
    } else {
      var i := OldestExists(p[1..]);
      k := if p[0].at <= p[i + 1].at then 0 else i + 1;
      forall j | 0 <= j < |p| ensures p[k].at <= p[j].at {
        if j > 0 { assert p[1..][i].at <= p[1..][j - 1].at; }
      }
    }
  }

  lemma FrontIsOldestIff(p: seq<Arrived>, drains: seq<DrainPoint>)
    requires p != [] && Ordered(p, drains)
    ensures IsOldest(p, 0) <==> OldestComesFirst(p, drains)
  {
    hide Before;
    var k := OldestExists(p);
    if IsOldest(p, 0) {
      forall j | 0 < j < |p| ensures !Before(p[j], p[0], drains) { BeforeIsAsymmetric(p[0], p[j], drains); }
      forall i | 0 <= i < |p| && IsOldest(p, i) ensures i == 0 { assert p[i].at <= p[0].at; }
    } else {
      assert k != 0 && Before(p[0], p[k], drains);
    }
  }

  /** In every run: a push that finds the tier full drops the message that comes before all others held. It is the
      oldest one held, as documented, if and only if no other message held comes before the oldest: at the latest
      drain both were present for and at which their urgency differed, the oldest was the more urgent one. */
  lemma OverflowDropsOldestIff(ops: seq<Op>, m: ProtocolMessage)
    requires m.Transaction? && |Run(ops).tiers.normal| == NORMAL_CAPACITY
    ensures var held, drains := ArrivedTier(ops) + [Arrived(|PushedTxs(ops)|, m)], DrainsOf(ops);
            && MessagesOf(held) == Run(ops).tiers.normal + [m]
            && Placed(held, PushedTxs(ops) + [m])
            && Step(Run(ops), Push(m)).tiers.normal == MessagesOf(held[1..])
            && Step(Run(ops), Push(m)).dropped == Run(ops).dropped + multiset{held[0].m}
            && (forall j :: 0 < j < |held| ==> Before(held[0], held[j], drains))
            && (IsOldest(held, 0) <==> OldestComesFirst(held, drains))
  {
    var t, txs := ArrivedTier(ops), PushedTxs(ops);
    var held := t + [Arrived(|txs|, m)];
    TierMatches(ops);
    TierIsOrdered(ops);
    hide Run, ArrivedTier, DrainsOf, PushedTxs, Step, Before, IsOldest, OldestComesFirst;
    HeldMessages(t, m, |txs|);
    hide MessagesOf;
    AppendKeepsOrder(t, DrainsOf(ops), txs, m);
    hide Placed;
    FrontIsOldestIff(held, DrainsOf(ops));
    hide Past;
    PushOverflows(Run(ops), m);
  }

  lemma HeldMessages(t: seq<Arrived>, m: ProtocolMessage, at: nat)
    ensures var held := t + [Arrived(at, m)];
            && MessagesOf(held) == MessagesOf(t) + [m]
            && MessagesOf(held)[0] == held[0].m
            && MessagesOf(held[1..]) == MessagesOf(held)[1..]
  {
  }

  // ---- A run that breaks the promise --------------------------------------------------------------

  ghost function Tx(id: Key, ttl: U8): ProtocolMessage
  {
    Transaction(Envelope(id, 0, "xdr", ttl, 1, []))
  }

  ghost function ThreeTxs(): seq<ProtocolMessage>
  {
    [Tx(1, 15), Tx(2, 5), Tx(3, 1)]
  }

  /** Three arrivals, of which one is drained. */
  ghost function ThreeThenDrainOne(): seq<Op>
  {
    Pushes(ThreeTxs()) + [Drain(1, 1)]
  }

  lemma {:induction false} PushesArrive(ms: seq<ProtocolMessage>)
    requires AllTransactions(ms)
    ensures PushedTxs(Pushes(ms)) == ms
    decreases |ms|
  {
    if ms == [] {
    } else {
      var pre := ms[..|ms| - 1];
      assert Pushes(ms)[..|ms| - 1] == Pushes(pre);
      PushesArrive(pre);
      assert ms == pre + [ms[|ms| - 1]];
    }
  }

  lemma ThreeArrive()
    ensures PushedTxs(Pushes(ThreeTxs())) == ThreeTxs()
    ensures Run(Pushes(ThreeTxs())).tiers.normal == ThreeTxs() && Run(Pushes(ThreeTxs())).dropped == multiset{}
  {
    assert AllTransactions(ThreeTxs()) && |ThreeTxs()| == 3;
    assert Run([]).tiers.normal == [] && Run([]).dropped == multiset{};
    hide Run, ThreeTxs, PushedTxs, Pushes;
    assert [] + Pushes(ThreeTxs()) == Pushes(ThreeTxs()) && [] + ThreeTxs() == ThreeTxs();
    PushesFill([], ThreeTxs());
    PushesArrive(ThreeTxs());
  }

  lemma ThreeSorted()
    ensures Sort(ThreeTxs(), UrgencyKey(1)) == [Tx(3, 1), Tx(2, 5), Tx(1, 15)]
  {
    var s, key := ThreeTxs(), UrgencyKey(1);
    assert s[1..] == [Tx(2, 5), Tx(3, 1)] && s[1..][1..] == [Tx(3, 1)] && s[1..][1..][1..] == [];
    assert Sort(s[1..][1..], key) == [Tx(3, 1)];
    assert Insert(Tx(2, 5), [], key) == [Tx(2, 5)];
    assert Sort(s[1..], key) == [Tx(3, 1), Tx(2, 5)];
    assert [Tx(3, 1), Tx(2, 5)][1..] == [Tx(2, 5)] && [Tx(2, 5)][1..] == [];
    assert Insert(Tx(1, 15), [], key) == [Tx(1, 15)];
    assert Insert(Tx(1, 15), [Tx(2, 5)], key) == [Tx(2, 5), Tx(1, 15)];
  }

  /** Messages 1, 2 and 3 arrive in this order, 3 is drained, the tier is filled to 10 000 and one more comes:
      the overflow drops 2, while 1, which arrived before it, is still held. */
  lemma OverflowDropsNewerExample(filler: ProtocolMessage)
    requires filler.Transaction?
    ensures var ops := ThreeThenDrainOne() + Pushes(Copies(filler, NORMAL_CAPACITY - 1));
            && PushedTxs(ThreeThenDrainOne()) == [Tx(1, 15), Tx(2, 5), Tx(3, 1)]
            && Run(ops).dropped == multiset{Tx(2, 5)}
            && |Run(ops).tiers.normal| == NORMAL_CAPACITY && Run(ops).tiers.normal[0] == Tx(1, 15)
  {
    AfterDrain();
    hide Run, PushedTxs, ThreeThenDrainOne;
    var start, fill := ThreeThenDrainOne(), Copies(filler, NORMAL_CAPACITY - 2);
    CopiesSnoc(filler, NORMAL_CAPACITY - 2);
    hide Copies;
    OneTooMany(start, fill, filler);
  }

  ghost function Copies(m: ProtocolMessage, n: nat): (s: seq<ProtocolMessage>)
    ensures |s| == n
  {
    seq(n, _ => m)
  }

  lemma CopiesSnoc(m: ProtocolMessage, n: nat)
    requires m.Transaction?
    ensures Copies(m, n + 1) == Copies(m, n) + [m] && AllTransactions(Copies(m, n))
  {
  }

  /** Filling the tier and pushing once more. */
  lemma OneTooMany(ops: seq<Op>, fill: seq<ProtocolMessage>, m: ProtocolMessage)
    requires AllTransactions(fill) && m.Transaction?
    requires |Run(ops).tiers.normal| + |fill| == NORMAL_CAPACITY
    ensures var held := Run(ops).tiers.normal + fill + [m];
            && Run(ops + Pushes(fill + [m])).tiers.normal == held[1..]
            && Run(ops + Pushes(fill + [m])).dropped == Run(ops).dropped + multiset{held[0]}
  {
    hide Run, Step, Pushes;
    PushesSnoc(ops, fill, m);
    PushesFill(ops, fill);
    RunOfLast(ops + Pushes(fill), Push(m));
    PushOverflows(Run(ops + Pushes(fill)), m);
  }

  lemma AfterDrain()
    ensures Run(ThreeThenDrainOne()).tiers.normal == [Tx(2, 5), Tx(1, 15)]
    ensures Run(ThreeThenDrainOne()).dropped == multiset{}
    ensures PushedTxs(ThreeThenDrainOne()) == [Tx(1, 15), Tx(2, 5), Tx(3, 1)]
  {
    var start, three := ThreeThenDrainOne(), Pushes(ThreeTxs());
    ThreeArrive();
    ThreeSorted();
    assert start[..|start| - 1] == three;
    RunOfLast(three, Drain(1, 1));
    hide Run, Pushes, Sort;
  }
}
