/** The three-tier message queue (src/gossip/queue.rs). */
module PriorityQueue {
  import opened Core
  import opened Messages
  import opened StableSort

  const NORMAL_CAPACITY := 10_000
  const LOW_CAPACITY := 500

  datatype Priority = High | Normal | Low

  function PriorityOf(m: ProtocolMessage): Priority
  {
    match m
    case TopologyUpdate(_, _, hops) => if hops > 5 then Low else High
    case SyncRequest(_) => High
    case SyncResponse(_) => High
    case Transaction(_) => Normal
    case Handshake(_) => Low
  }

  /** Higher goes first: few hops left and old age both raise it; `now` in seconds. */
  function UrgencyScore(m: ProtocolMessage, now: nat): int
  {
    match m
    case Transaction(e) => Max(16 - e.ttl, 0) + Min(Max(now - e.timestamp, 0) / 60, 10)
    case _ => 0
  }

  /** The key `Reverse(urgency_score)`. */
  function UrgencyKey(now: nat): ProtocolMessage -> SortKey
  {
    (m: ProtocolMessage) => Finite(-UrgencyScore(m, now))
  }

  datatype Tiers = Tiers(high: seq<ProtocolMessage>, normal: seq<ProtocolMessage>, low: seq<ProtocolMessage>)

  const EMPTY_TIERS := Tiers([], [], [])

  /** Append to a bounded tier; on overflow its front falls out. */
  function Append(s: seq<ProtocolMessage>, m: ProtocolMessage, capacity: nat)
    : (seq<ProtocolMessage>, Option<ProtocolMessage>)
  {
    if |s| + 1 > capacity then ((s + [m])[1..], Some((s + [m])[0])) else (s + [m], None)
  }

  function Pushed(t: Tiers, m: ProtocolMessage): (Tiers, Option<ProtocolMessage>)
  {
    match PriorityOf(m)
    case High => (t.(high := t.high + [m]), None)
    case Normal => var (s, dropped) := Append(t.normal, m, NORMAL_CAPACITY); (t.(normal := s), dropped)
    case Low => var (s, dropped) := Append(t.low, m, LOW_CAPACITY); (t.(low := s), dropped)
  }

  function Popped(t: Tiers): (Tiers, Option<ProtocolMessage>)
  {
    if t.high != [] then (t.(high := t.high[1..]), Some(t.high[0]))
    else if t.normal != [] then (t.(normal := t.normal[1..]), Some(t.normal[0]))
    else if t.low != [] then (t.(low := t.low[1..]), Some(t.low[0]))
    else (t, None)
  }

  function Drained(t: Tiers, batchSize: nat, now: nat): (Tiers, seq<ProtocolMessage>)
  {
    if batchSize == 0 then (t, [])
    else
      var all := Sort(t.normal, UrgencyKey(now));
      var take := Min(batchSize, |all|);
      (t.(normal := all[take..]), all[..take])
  }

  function EnvelopesOf(s: seq<ProtocolMessage>): seq<Envelope>
  {
    if s == [] then []
    else if s[0].Transaction? then [s[0].envelope] + EnvelopesOf(s[1..])
    else EnvelopesOf(s[1..])
  }

  /** `iter_envelopes`: all transactions, High before Normal before Low. */
  function Envelopes(t: Tiers): seq<Envelope>
  {
    EnvelopesOf(t.high + t.normal + t.low)
  }

  lemma {:induction false} EnvelopesSplit(a: seq<ProtocolMessage>, b: seq<ProtocolMessage>)
    ensures EnvelopesOf(a + b) == EnvelopesOf(a) + EnvelopesOf(b)
  {
    if a == [] {
      assert a + b == b;
    } else {
      EnvelopesSplit(a[1..], b);
      assert (a + b)[1..] == a[1..] + b;
    }
  }

  class PriorityQueue {
    var high: seq<ProtocolMessage>
    var normal: seq<ProtocolMessage>
    var low: seq<ProtocolMessage>

    ghost function View(): Tiers
      reads this
    {
      Tiers(high, normal, low)
    }

    constructor ()
      ensures View() == EMPTY_TIERS
    {
      high, normal, low := [], [], [];
    }

    method Push(m: ProtocolMessage) returns (dropped: Option<ProtocolMessage>)
      modifies this
      ensures (View(), dropped) == Pushed(old(View()), m)
    {
      dropped := None;
      match PriorityOf(m) {
        case High =>
          high := high + [m];
        case Normal =>
          normal := normal + [m];
          if |normal| > NORMAL_CAPACITY {
            dropped := Some(normal[0]);
            normal := normal[1..];
          }
        case Low =>
          low := low + [m];
          if |low| > LOW_CAPACITY {
            dropped := Some(low[0]);
            low := low[1..];
          }
      }
    }

    method Pop() returns (m: Option<ProtocolMessage>)
      modifies this
      ensures (View(), m) == Popped(old(View()))
    {
      if high != [] {
        m := Some(high[0]);
        high := high[1..];
        return;
      }
      if normal != [] {
        m := Some(normal[0]);
        normal := normal[1..];
        return;
      }
      if low != [] {
        m := Some(low[0]);
        low := low[1..];
        return;
      }
      return None;
    }

    method DrainBatch(batchSize: nat, now: nat) returns (batch: seq<ProtocolMessage>)
      modifies this`normal
      ensures (View(), batch) == Drained(old(View()), batchSize, now)
    {
      if batchSize == 0 { return []; }
      var all := Sort(normal, UrgencyKey(now));
      normal := [];
      var take := Min(batchSize, |all|);
      batch := all[..take];
      normal := normal + all[take..];
      assert normal == all[take..];
    }

    method IterEnvelopes() returns (es: seq<Envelope>)
      ensures es == Envelopes(View())
    {
      es := [];
      var all := high + normal + low;
      for i := 0 to |all|
        invariant es == EnvelopesOf(all[..i])
      {
        EnvelopesSplit(all[..i], [all[i]]);
        assert all[..i + 1] == all[..i] + [all[i]];
        if all[i].Transaction? { es := es + [all[i].envelope]; }
      }
      assert all[..|all|] == all;
    }
  }

  // ---- Draining -----------------------------------------------------------------------------------

  /** One drain: the batch followed by the remainder is the tier, stably sorted by falling urgency. */
  lemma DrainIsStablePrefix(t: Tiers, n: nat, now: nat)
    requires n > 0
    ensures var (t', batch) := Drained(t, n, now);
            && IsStableSort(t.normal, batch + t'.normal, UrgencyKey(now))
            && |batch| == Min(n, |t.normal|)
            && t'.high == t.high && t'.low == t.low
  {
    var all := Sort(t.normal, UrgencyKey(now));
    SortCorrect(t.normal, UrgencyKey(now));
    hide IsStableSort, Sort, UrgencyKey;
    assert all[..Min(n, |all|)] + all[Min(n, |all|)..] == all;
  }

  lemma SlicesCompose<T>(s: seq<T>, a: nat, b: nat)
    ensures var k := Min(a, |s|);
            var k' := Min(b, |s| - k);
            var n := Min(a + b, |s|);
            s[..k] + s[k..][..k'] == s[..n] && s[k..][k'..] == s[n..]
  {
  }

  lemma DrainAfterDrain(t: Tiers, a: nat, b: nat, now: nat)
    requires a > 0 && b > 0
    ensures var all := Sort(t.normal, UrgencyKey(now));
            var left := all[Min(a, |all|)..];
            Drained(Drained(t, a, now).0, b, now) == (t.(normal := left[Min(b, |left|)..]), left[..Min(b, |left|)])
  {
    var all := Sort(t.normal, UrgencyKey(now));
    SortCorrect(t.normal, UrgencyKey(now));
    SortOfSorted(all[Min(a, |all|)..], UrgencyKey(now));
  }

  /** Under one clock reading, draining `a` and then `b` is draining `a + b`. */
  lemma DrainsCompose(t: Tiers, a: nat, b: nat, now: nat)
    ensures var (t1, first) := Drained(t, a, now);
            var (t2, second) := Drained(t1, b, now);
            Drained(t, a + b, now) == (t2, first + second)
  {
    if a > 0 && b > 0 {
      DrainAfterDrain(t, a, b, now);
      SlicesCompose(Sort(t.normal, UrgencyKey(now)), a, b);
    } else if a > 0 {
      assert Drained(t, a, now).1 + [] == Drained(t, a, now).1;
    } else {
      assert [] + Drained(t, b, now).1 == Drained(t, b, now).1;
    }
  }

  // ---- Runs ---------------------------------------------------------------------------------------

  datatype Op = Push(m: ProtocolMessage) | Pop | Drain(batchSize: nat, now: nat)

  /** Where every message went: a queue together with everything that entered and left it. */
  datatype Ledger = Ledger(tiers: Tiers, pushed: multiset<ProtocolMessage>, popped: multiset<ProtocolMessage>,
                           drained: multiset<ProtocolMessage>, dropped: multiset<ProtocolMessage>)

  ghost function OptionSet(m: Option<ProtocolMessage>): multiset<ProtocolMessage>
  {
    if m.Some? then multiset{m.value} else multiset{}
  }

  ghost function Held(t: Tiers): multiset<ProtocolMessage>
  {
    multiset(t.high) + multiset(t.normal) + multiset(t.low)
  }

  ghost function Step(l: Ledger, op: Op): Ledger
  {
    match op
    case Push(m) =>
      var (t, out) := Pushed(l.tiers, m);
      l.(tiers := t, pushed := l.pushed + multiset{m}, dropped := l.dropped + OptionSet(out))
    case Pop =>
      var (t, out) := Popped(l.tiers);
      l.(tiers := t, popped := l.popped + OptionSet(out))
    case Drain(n, now) =>
      var (t, batch) := Drained(l.tiers, n, now);
      l.(tiers := t, drained := l.drained + multiset(batch))
  }

  ghost function Run(ops: seq<Op>): Ledger
  {
    if ops == [] then Ledger(EMPTY_TIERS, multiset{}, multiset{}, multiset{}, multiset{})
    else Step(Run(ops[..|ops| - 1]), ops[|ops| - 1])
  }

  /** The bounds, and every message is in its own tier; the Normal one holds the transactions and nothing else. */
  ghost predicate TiersValid(t: Tiers)
  {
    && |t.normal| <= NORMAL_CAPACITY && |t.low| <= LOW_CAPACITY
    && (forall i :: 0 <= i < |t.high| ==> PriorityOf(t.high[i]) == High)
    && (forall i :: 0 <= i < |t.normal| ==> PriorityOf(t.normal[i]) == Normal)
    && (forall i :: 0 <= i < |t.low| ==> PriorityOf(t.low[i]) == Low)
  }

  ghost predicate Balanced(l: Ledger)
  {
    l.pushed == l.popped + l.drained + l.dropped + Held(l.tiers)
  }

  lemma SplitFront(s: seq<ProtocolMessage>, k: nat)
    requires k <= |s|
    ensures multiset(s) == multiset(s[..k]) + multiset(s[k..])
  {
    assert s == s[..k] + s[k..];
  }

  lemma AppendConserves(s: seq<ProtocolMessage>, m: ProtocolMessage, capacity: nat)
    ensures var (s', out) := Append(s, m, capacity);
            multiset(s') + OptionSet(out) == multiset(s) + multiset{m}
  {
    SplitFront(s + [m], 1);
    assert (s + [m])[..1] == [(s + [m])[0]];
  }

  lemma ReplacePart<T>(a: multiset<T>, part: multiset<T>, part': multiset<T>, b: multiset<T>, gone: multiset<T>,
                       come: multiset<T>)
    requires part' + gone == part + come
    ensures (a + part' + b) + gone == (a + part + b) + come
  {
    forall x ensures ((a + part' + b) + gone)[x] == ((a + part + b) + come)[x] {
      assert (part' + gone)[x] == (part + come)[x];
    }
  }

  lemma ReplaceLast<T>(a: multiset<T>, part: multiset<T>, part': multiset<T>, gone: multiset<T>, come: multiset<T>)
    requires part' + gone == part + come
    ensures (a + part') + gone == (a + part) + come
  {
    forall x ensures ((a + part') + gone)[x] == ((a + part) + come)[x] {
      assert (part' + gone)[x] == (part + come)[x];
    }
  }

  lemma PushConserves(t: Tiers, m: ProtocolMessage)
    ensures var (t', out) := Pushed(t, m);
            Held(t') + OptionSet(out) == Held(t) + multiset{m}
  {
    var (t', out) := Pushed(t, m);
    match PriorityOf(m)
    case High =>
      assert multiset(t.high + [m]) == multiset(t.high) + multiset{m};
    case Normal =>
      AppendConserves(t.normal, m, NORMAL_CAPACITY);
      ReplacePart(multiset(t.high), multiset(t.normal), multiset(t'.normal), multiset(t.low), OptionSet(out),
                  multiset{m});
    case Low =>
      AppendConserves(t.low, m, LOW_CAPACITY);
      ReplaceLast(multiset(t.high) + multiset(t.normal), multiset(t.low), multiset(t'.low), OptionSet(out),
                  multiset{m});
  }

  lemma TakeFront(s: seq<ProtocolMessage>)
    requires s != []
    ensures multiset(s[1..]) + multiset{s[0]} == multiset(s)
  {
    SplitFront(s, 1);
    assert s[..1] == [s[0]];
  }

  lemma PopConserves(t: Tiers)
    ensures var (t', out) := Popped(t);
            Held(t') + OptionSet(out) == Held(t)
  {
    var (t', out) := Popped(t);
    var high, normal, low := multiset(t.high), multiset(t.normal), multiset(t.low);
    if t.high != [] {
      TakeFront(t.high);
      ReplacePart(multiset{}, high, multiset(t'.high), normal + low, OptionSet(out), multiset{});
      Regroup(multiset(t'.high), normal, low);
      Regroup(high, normal, low);
    } else if t.normal != [] {
      TakeFront(t.normal);
      ReplacePart(high, normal, multiset(t'.normal), low, OptionSet(out), multiset{});
    } else if t.low != [] {
      TakeFront(t.low);
      ReplaceLast(high + normal, low, multiset(t'.low), OptionSet(out), multiset{});
    }
  }

  lemma Regroup<T>(a: multiset<T>, b: multiset<T>, c: multiset<T>)
    ensures multiset{} + a + (b + c) == a + b + c
  {
  }

  lemma DrainConserves(t: Tiers, n: nat, now: nat)
    ensures var (t', batch) := Drained(t, n, now);
            Held(t') + multiset(batch) == Held(t)
  {
    var all := Sort(t.normal, UrgencyKey(now));
    SortCorrect(t.normal, UrgencyKey(now));
    if n > 0 { SplitFront(all, Min(n, |all|)); }
  }

  lemma DrainKeepsValid(t: Tiers, n: nat, now: nat)
    requires TiersValid(t)
    ensures TiersValid(Drained(t, n, now).0)
    ensures forall m :: m in Drained(t, n, now).1 ==> m in t.normal
    ensures forall m :: m in Drained(t, n, now).0.normal ==> m in t.normal
  {
    if n > 0 {
      DrainIsStablePrefix(t, n, now);
      var (t', batch) := Drained(t, n, now);
      forall m | m in batch || m in t'.normal ensures m in t.normal {
        assert m in multiset(batch + t'.normal);
      }
      assert |batch + t'.normal| == |multiset(batch + t'.normal)| == |multiset(t.normal)| == |t.normal|;
      forall i | 0 <= i < |t'.normal| ensures PriorityOf(t'.normal[i]) == Normal {
        assert t'.normal[i] in t'.normal;
      }
    }
  }

  /** Accounting of one step: `come` enters, `gone` leaves by one of the three ways. */
  lemma AccountFor<T>(pushed: multiset<T>, popped: multiset<T>, drained: multiset<T>, dropped: multiset<T>,
                      held: multiset<T>, held': multiset<T>, gone: multiset<T>, come: multiset<T>)
    requires pushed == popped + drained + dropped + held && held' + gone == held + come
    ensures pushed + come == popped + drained + (dropped + gone) + held'
    ensures pushed + come == popped + (drained + gone) + dropped + held'
    ensures pushed + come == (popped + gone) + drained + dropped + held'
  {
    forall x ensures held'[x] + gone[x] == held[x] + come[x] {
      assert (held' + gone)[x] == (held + come)[x];
    }
  }

  lemma StepBalances(l: Ledger, op: Op)
    requires Balanced(l)
    ensures Balanced(Step(l, op))
  {
    var held, held' := Held(l.tiers), Held(Step(l, op).tiers);
    match op
    case Push(m) =>
      PushConserves(l.tiers, m);
      AccountFor(l.pushed, l.popped, l.drained, l.dropped, held, held', OptionSet(Pushed(l.tiers, m).1), multiset{m});
    case Pop =>
      PopConserves(l.tiers);
      AccountFor(l.pushed, l.popped, l.drained, l.dropped, held, held', OptionSet(Popped(l.tiers).1), multiset{});
    case Drain(n, now) =>
      DrainConserves(l.tiers, n, now);
      var batch := multiset(Drained(l.tiers, n, now).1);
      AccountFor(l.pushed, l.popped, l.drained, l.dropped, held, held', batch, multiset{});
  }

  lemma PushKeepsValid(t: Tiers, m: ProtocolMessage)
    requires TiersValid(t)
    ensures TiersValid(Pushed(t, m).0)
  {
  }

  lemma PopKeepsValid(t: Tiers)
    requires TiersValid(t)
    ensures TiersValid(Popped(t).0)
  {
  }

  lemma StepKeepsValid(l: Ledger, op: Op)
    requires TiersValid(l.tiers)
    ensures TiersValid(Step(l, op).tiers)
  {
    hide Drained, Pushed, Popped;
    match op
    case Push(m) => PushKeepsValid(l.tiers, m);
    case Pop => PopKeepsValid(l.tiers);
    case Drain(n, now) => DrainKeepsValid(l.tiers, n, now);
  }

  /** Over every run: pushed = popped + drained + dropped + held, the tiers respect their capacities, and the
      Normal tier holds transactions only. */
  lemma {:induction false} RunConserves(ops: seq<Op>)
    ensures TiersValid(Run(ops).tiers) && Balanced(Run(ops))
    ensures forall m :: m in Run(ops).tiers.normal ==> m.Transaction?
  {
    if ops == [] {
    } else {
      RunConserves(ops[..|ops| - 1]);
      StepBalances(Run(ops[..|ops| - 1]), ops[|ops| - 1]);
      StepKeepsValid(Run(ops[..|ops| - 1]), ops[|ops| - 1]);
    }
  }

  /** The transactions pushed by the run, in arrival order. */
  ghost function PushedTxs(ops: seq<Op>): seq<ProtocolMessage>
  {
    if ops == [] then []
    else
      var op := ops[|ops| - 1];
      if op.Push? && op.m.Transaction? then PushedTxs(ops[..|ops| - 1]) + [op.m] else PushedTxs(ops[..|ops| - 1])
  }

  /** No drain of the run leaves anything behind. */
  ghost predicate DrainsCompletely(ops: seq<Op>)
  {
    forall i :: 0 <= i < |ops| && ops[i].Drain? && ops[i].batchSize > 0
                ==> |Run(ops[..i]).tiers.normal| <= ops[i].batchSize
  }

  /** `s` is the tail of `all`. */
  ghost predicate TailOf(s: seq<ProtocolMessage>, all: seq<ProtocolMessage>)
  {
    |s| <= |all| && s == all[|all| - |s|..]
  }

  lemma StepKeepsTail(t: Tiers, op: Op, all: seq<ProtocolMessage>)
    requires TailOf(t.normal, all)
    requires op.Drain? && op.batchSize > 0 ==> |t.normal| <= op.batchSize
    ensures op.Push? ==> TailOf(Pushed(t, op.m).0.normal, if op.m.Transaction? then all + [op.m] else all)
    ensures op.Pop? ==> TailOf(Popped(t).0.normal, all)
    ensures op.Drain? ==> TailOf(Drained(t, op.batchSize, op.now).0.normal, all)
  {
  }

  /** "The oldest is dropped" does hold while no drain leaves a remainder: the Normal tier is then the latest
      transactions in arrival order, so its front, which an overflow drops, is the oldest one held. */
  lemma {:induction false} ArrivalOrderWithoutPartialDrains(ops: seq<Op>)
    requires DrainsCompletely(ops)
    ensures TailOf(Run(ops).tiers.normal, PushedTxs(ops))
  {
    if ops == [] {
    } else {
      var pre, op := ops[..|ops| - 1], ops[|ops| - 1];
      forall i | 0 <= i < |pre| && pre[i].Drain? && pre[i].batchSize > 0
        ensures |Run(pre[..i]).tiers.normal| <= pre[i].batchSize
      {
        assert pre[..i] == ops[..i] && pre[i] == ops[i];
      }
      ArrivalOrderWithoutPartialDrains(pre);
      StepKeepsTail(Run(pre).tiers, op, PushedTxs(pre));
      hide TailOf, Pushed, Popped, Drained;
    }
  }

  function Rank(p: Priority): nat
  {
    match p case High => 0 case Normal => 1 case Low => 2
  }

  /** In every run, `pop` returns a message of the best priority held, and nothing only from an empty queue. */
  lemma PopTakesBestPriority(ops: seq<Op>)
    ensures var t := Run(ops).tiers;
            var out := Popped(t).1;
            && (out.None? <==> Held(t) == multiset{})
            && (out.Some? ==> forall m :: m in Held(t) ==> Rank(PriorityOf(out.value)) <= Rank(PriorityOf(m)))
  {
    RunConserves(ops);
    PopIsBest(Run(ops).tiers);
  }

  lemma PopIsBest(t: Tiers)
    requires TiersValid(t)
    ensures var out := Popped(t).1;
            && (out.None? <==> Held(t) == multiset{})
            && (out.Some? ==> forall m :: m in Held(t) ==> Rank(PriorityOf(out.value)) <= Rank(PriorityOf(m)))
  {
    hide PriorityOf, Rank;
    if t.high != [] { assert t.high[0] in Held(t); }
    if t.normal != [] { assert t.normal[0] in Held(t); }
    if t.low != [] { assert t.low[0] in Held(t); }
    RankOrder();
    forall m | m in Held(t) ensures Popped(t).1.Some? && Rank(PriorityOf(Popped(t).1.value)) <= Rank(PriorityOf(m)) {
      assert m in t.high || m in t.normal || m in t.low;
    }
  }

  lemma RankOrder()
    ensures Rank(High) <= Rank(Normal) <= Rank(Low)
  {
  }

  /** Urgency rises strictly as hops run out (up to 16 hops) and never falls with age. */
  lemma UrgencyOrders(e: Envelope, e': Envelope, now: nat)
    requires e.ttl <= e'.ttl && e.timestamp <= e'.timestamp
    ensures UrgencyScore(Transaction(e), now) >= UrgencyScore(Transaction(e'), now)
    ensures e.ttl < e'.ttl && e.ttl < 16 ==> UrgencyScore(Transaction(e), now) > UrgencyScore(Transaction(e'), now)
  {
    var a, b := Max(now - e.timestamp, 0), Max(now - e'.timestamp, 0);
    assert b / 60 <= a / 60;
  }

  // ---- Urgency in minutes and hops ----------------------------------------------------------------

  /** Every full minute of age, up to ten, counts as much as one hop less (up to 16 hops); within a minute, and beyond
      ten, age makes no difference; and a new message with 16 or more hops left has urgency 0. */
  lemma MinuteCountsAsHop(e: Envelope, now: U64)
    ensures 1 <= e.ttl <= 16 && 60 <= now - e.timestamp < 660 ==>
              UrgencyScore(Transaction(e.(ttl := e.ttl - 1, timestamp := e.timestamp + 60)), now)
              == UrgencyScore(Transaction(e), now)
    ensures 0 <= now - e.timestamp ==>
              UrgencyScore(Transaction(e.(timestamp := e.timestamp + (now - e.timestamp) % 60)), now)
              == UrgencyScore(Transaction(e), now)
    ensures now - e.timestamp >= 600 ==>
              UrgencyScore(Transaction(e.(timestamp := now - 600)), now) == UrgencyScore(Transaction(e), now)
    ensures e.ttl >= 16 && now - e.timestamp < 60 ==> UrgencyScore(Transaction(e), now) == 0
    ensures e.ttl < 16 && now - e.timestamp < 60 ==>
              UrgencyScore(Transaction(e), now) == UrgencyScore(Transaction(e.(ttl := e.ttl + 1)), now) + 1
  {
    assert (now - e.timestamp - 60) / 60 == (now - e.timestamp) / 60 - 1;
  }

  // ---- Which tier, and in which order -------------------------------------------------------------

  ghost predicate GoesHigh(m: ProtocolMessage)
  {
    m.SyncRequest? || m.SyncResponse? || (m.TopologyUpdate? && m.hopsToRelay <= 5)
  }

  ghost predicate GoesLow(m: ProtocolMessage)
  {
    m.Handshake? || (m.TopologyUpdate? && m.hopsToRelay > 5)
  }

  /** In every run: the High tier holds synchronisation and topology within five hops of a relay, the Low tier
      handshakes and farther topology, the Normal tier transactions; Normal at most 10 000 and Low at most 500. */
  lemma TiersByKind(ops: seq<Op>)
    ensures var t := Run(ops).tiers;
            && (forall i :: 0 <= i < |t.high| ==> GoesHigh(t.high[i]))
            && (forall i :: 0 <= i < |t.normal| ==> t.normal[i].Transaction?)
            && (forall i :: 0 <= i < |t.low| ==> GoesLow(t.low[i]))
            && |t.normal| <= 10_000 && |t.low| <= 500
  {
    RunConserves(ops);
  }

  /** A push drops a message exactly when it finds its tier full, and then the front of that tier. */
  lemma DropsIff(ops: seq<Op>, m: ProtocolMessage)
    ensures var t := Run(ops).tiers;
            var dropped := Pushed(t, m).1;
            && (dropped.Some? <==> (m.Transaction? && |t.normal| == 10_000) || (GoesLow(m) && |t.low| == 500))
            && (dropped.Some? ==> dropped.value == if m.Transaction? then t.normal[0] else t.low[0])
  {
    RunConserves(ops);
    hide Run;
  }

  /** The messages for the High tier pushed by the run, and those popped, in order. */
  ghost function HighPushed(ops: seq<Op>): seq<ProtocolMessage>
  {
    if ops == [] then []
    else
      var pre, op := HighPushed(ops[..|ops| - 1]), ops[|ops| - 1];
      if op.Push? && GoesHigh(op.m) then pre + [op.m] else pre
  }

  ghost function HighPopped(ops: seq<Op>): seq<ProtocolMessage>
  {
    if ops == [] then []
    else
      var pre, out := HighPopped(ops[..|ops| - 1]), Popped(Run(ops[..|ops| - 1]).tiers).1;
      if ops[|ops| - 1].Pop? && out.Some? && GoesHigh(out.value) then pre + [out.value] else pre
  }

  /** The messages for the Low tier pushed by the run, and those that left it by a pop or an overflow, in order. */
  ghost function LowPushed(ops: seq<Op>): seq<ProtocolMessage>
  {
    if ops == [] then []
    else
      var pre, op := LowPushed(ops[..|ops| - 1]), ops[|ops| - 1];
      if op.Push? && GoesLow(op.m) then pre + [op.m] else pre
  }

  ghost function LowLeft(ops: seq<Op>): seq<ProtocolMessage>
  {
    if ops == [] then []
    else
      var pre, t, op := LowLeft(ops[..|ops| - 1]), Run(ops[..|ops| - 1]).tiers, ops[|ops| - 1];
      var out := if op.Push? then Pushed(t, op.m).1 else if op.Pop? then Popped(t).1 else None;
      Left(pre, out)
  }

  ghost function Left(left: seq<ProtocolMessage>, out: Option<ProtocolMessage>): seq<ProtocolMessage>
  {
    if out.Some? && GoesLow(out.value) then left + [out.value] else left
  }

  lemma FifoPush(t: Tiers, m: ProtocolMessage, high: seq<ProtocolMessage>, low: seq<ProtocolMessage>)
    requires TiersValid(t)
    ensures var (t', out) := Pushed(t, m);
            && high + t'.high == (if GoesHigh(m) then (high + t.high) + [m] else high + t.high)
            && Left(low, out) + t'.low == (if GoesLow(m) then (low + t.low) + [m] else low + t.low)
  {
    var (t', out) := Pushed(t, m);
    if GoesLow(m) && |t.low| + 1 > LOW_CAPACITY {
      assert (t.low + [m])[0] == t.low[0] && [t.low[0]] + (t.low + [m])[1..] == t.low + [m];
      assert (low + [t.low[0]]) + t'.low == low + ([t.low[0]] + t'.low);
      assert low + (t.low + [m]) == (low + t.low) + [m];
    }
    if m.Transaction? && out.Some? { assert out.value == (t.normal + [m])[0] && out.value.Transaction?; }
  }

  lemma FifoPop(t: Tiers, high: seq<ProtocolMessage>, low: seq<ProtocolMessage>)
    requires TiersValid(t)
    ensures var (t', out) := Popped(t);
            && (if out.Some? && GoesHigh(out.value) then high + [out.value] else high) + t'.high == high + t.high
            && Left(low, out) + t'.low == low + t.low
  {
    if t.high != [] {
      assert t.high == [t.high[0]] + t.high[1..];
      assert (high + [t.high[0]]) + t.high[1..] == high + ([t.high[0]] + t.high[1..]);
    } else if t.normal != [] {
      assert t.normal[0].Transaction?;
    } else if t.low != [] {
      assert t.low == [t.low[0]] + t.low[1..];
      assert (low + [t.low[0]]) + t.low[1..] == low + ([t.low[0]] + t.low[1..]);
    }
  }

  /** Both tiers are first in, first out: what has left and what is held make up, in order, what was pushed. */
  lemma {:induction false} OuterTiersAreFifo(ops: seq<Op>)
    ensures HighPopped(ops) + Run(ops).tiers.high == HighPushed(ops)
    ensures LowLeft(ops) + Run(ops).tiers.low == LowPushed(ops)
  {
    if ops == [] {
    } else {
      var pre, op := ops[..|ops| - 1], ops[|ops| - 1];
      OuterTiersAreFifo(pre);
      RunConserves(pre);
      var t := Run(pre).tiers;
      hide Pushed, Popped, GoesHigh, GoesLow, TiersValid;
      match op
      case Push(m) => FifoPush(t, m, HighPopped(pre), LowLeft(pre));
      case Pop => FifoPop(t, HighPopped(pre), LowLeft(pre));
      case Drain(n, now) => assert Drained(t, n, now).0.high == t.high && Drained(t, n, now).0.low == t.low;
    }
  }

  // ---- What a drain takes -------------------------------------------------------------------------

  /** The messages of one urgency, in order. */
  ghost function OfScore(s: seq<ProtocolMessage>, score: int, now: nat): seq<ProtocolMessage>
  {
    if s == [] then []
    else if UrgencyScore(s[0], now) == score then [s[0]] + OfScore(s[1..], score, now)
    else OfScore(s[1..], score, now)
  }

  lemma {:induction false} OfScoreIsWithKey(s: seq<ProtocolMessage>, score: int, now: nat)
    ensures OfScore(s, score, now) == WithKey(s, UrgencyKey(now), Finite(-score))
  {
    if s == [] {
    } else {
      OfScoreIsWithKey(s[1..], score, now);
      assert UrgencyKey(now)(s[0]) == Finite(-UrgencyScore(s[0], now));
    }
  }

  /** A drain takes the most urgent messages first: batch and remainder together are the messages held, by falling
      urgency, those of one urgency in the order in which they were held. */
  lemma DrainTakesMostUrgent(t: Tiers, n: nat, now: nat, score: int)
    requires n > 0
    ensures var (t', batch) := Drained(t, n, now);
            var all := batch + t'.normal;
            && multiset(all) == multiset(t.normal)
            && (forall i, j :: 0 <= i < j < |all| ==> UrgencyScore(all[i], now) >= UrgencyScore(all[j], now))
            && OfScore(all, score, now) == OfScore(t.normal, score, now)
  {
    DrainIsStablePrefix(t, n, now);
    var (t', batch) := Drained(t, n, now);
    var all, key := batch + t'.normal, UrgencyKey(now);
    OfScoreIsWithKey(all, score, now);
    OfScoreIsWithKey(t.normal, score, now);
    hide Drained, WithKey, OfScore, UrgencyScore;
    forall i, j | 0 <= i < j < |all| ensures UrgencyScore(all[i], now) >= UrgencyScore(all[j], now) {
      assert Leq(key(all[i]), key(all[j]));
    }
  }

  lemma {:induction false} NoEnvelopes(s: seq<ProtocolMessage>)
    requires forall i :: 0 <= i < |s| ==> !s[i].Transaction?
    ensures EnvelopesOf(s) == []
  {
    if s == [] {
    } else {
      NoEnvelopes(s[1..]);
    }
  }

  lemma {:induction false} EnvelopeOfEach(s: seq<ProtocolMessage>)
    requires forall i :: 0 <= i < |s| ==> s[i].Transaction?
    ensures |EnvelopesOf(s)| == |s|
    ensures forall i :: 0 <= i < |s| ==> EnvelopesOf(s)[i] == s[i].envelope
  {
    if s == [] {
    } else {
      EnvelopeOfEach(s[1..]);
    }
  }

  lemma DrainedAreTransactions(t: Tiers, n: nat, now: nat)
    requires TiersValid(t)
    ensures var batch := Drained(t, n, now).1; forall i :: 0 <= i < |batch| ==> batch[i].Transaction?
  {
    DrainKeepsValid(t, n, now);
    var batch := Drained(t, n, now).1;
    hide Drained;
    forall i | 0 <= i < |batch| ensures batch[i].Transaction? { assert batch[i] in t.normal; }
  }

  /** In every run the envelopes iterated over are exactly those of the Normal tier, in its order. */
  lemma EnvelopesAreNormal(ops: seq<Op>)
    ensures var t := Run(ops).tiers;
            && |Envelopes(t)| == |t.normal|
            && (forall i :: 0 <= i < |t.normal| ==> t.normal[i] == Transaction(Envelopes(t)[i]))
  {
    var t := Run(ops).tiers;
    TiersByKind(ops);
    hide Run, EnvelopesOf;
    NoEnvelopes(t.high);
    NoEnvelopes(t.low);
    EnvelopeOfEach(t.normal);
    EnvelopesSplit(t.high + t.normal, t.low);
    EnvelopesSplit(t.high, t.normal);
  }
}
