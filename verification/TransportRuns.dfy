/** Whole runs of the transport manager: deferred transactions are not lost, stranded or overtaken, and the
    peer counter is exact (src/transport/unified.rs with src/transport/power.rs). */
module TransportRuns {
  import opened Core
  import opened Messages
  import opened PowerManager
  import opened TransportManager

  datatype Event =
    | Connect(peer: Key, kind: Option<Kind>)
    | Send(peer: Key, message: ProtocolMessage, now: nat, env: TickEnv, net: SendEnv)
    | Receive(now: nat, env: TickEnv, polls: seq<Poll>)
    | PowerTick(now: nat, env: TickEnv)
    | RegisterInbound(peer: Key, conn: Conn)
    | Disconnect(peer: Key)
    | RotateMac
    | Shutdown

  /** The manager with the history of its transactions: those deferred, the sends attempted by flushes, and the
      transactions accepted by `send`. The manager itself records every attempt to send. */
  datatype Logged = Logged(t: Transport, deferred: seq<Pending>, flushed: seq<Attempt>, submitted: seq<Pending>)

  /** A new manager over a power machine in any state. */
  ghost function Start(p: Power): Logged
  {
    Logged(Transport(map[], 0, [], p, []), [], [], [])
  }

  /** The sends attempted between two states. */
  ghost function NewAttempts(t: Transport, t': Transport): seq<Attempt>
  {
    if |t.attempts| <= |t'.attempts| then t'.attempts[|t.attempts|..] else []
  }

  ghost function AfterTick(l: Logged, now: nat, env: TickEnv): Logged
  {
    var t := TickDone(l.t, now, env).0;
    l.(t := t, flushed := l.flushed + NewAttempts(l.t, t))
  }

  ghost function AfterSend(l: Logged, ev: Event): Logged
    requires ev.Send?
  {
    var item := Pending(ev.peer, ev.message);
    var (t, outcome) := SentTo(l.t, ev.peer, ev.message, ev.now, ev.env, ev.net);
    var l1 := AfterTick(l, ev.now, ev.env).(t := t);
    match outcome
    case TickFailed => l1
    case Deferred => l1.(deferred := l1.deferred + [item], submitted := l1.submitted + [item])
    case Direct(_) => if ev.message.Transaction? then l1.(submitted := l1.submitted + [item]) else l1
  }

  ghost function Step(l: Logged, ev: Event): Logged
  {
    match ev
    case Connect(peer, kind) => l.(t := Connected(l.t, peer, kind))
    case Send(_, _, _, _, _) => AfterSend(l, ev)
    case Receive(now, env, polls) => AfterTick(l, now, env).(t := ReceivedAny(l.t, now, env, polls).0)
    case PowerTick(now, env) => AfterTick(l, now, env)
    case RegisterInbound(peer, c) => l.(t := Inserted(l.t, peer, c))
    case Disconnect(peer) => l.(t := Removed(l.t, peer))
    case RotateMac => l.(t := BleDropped(l.t))
    case Shutdown => l.(t := ShutDown(l.t))
  }

  ghost function Run(start: Power, evs: seq<Event>): Logged
  {
    if evs == [] then Start(start) else Step(Run(start, evs[..|evs| - 1]), evs[|evs| - 1])
  }

  // ---- The peer counter ---------------------------------------------------------------------------

  ghost predicate Counted(t: Transport)
  {
    t.peerCount == |t.conns|
  }

  lemma InsertedCounted(t: Transport, k: Key, c: Conn)
    requires Counted(t)
    ensures Counted(Inserted(t, k, c))
  {
    InsertedSize(t.conns, k, c);
  }

  lemma RemovedCounted(t: Transport, k: Key)
    requires Counted(t)
    ensures Counted(Removed(t, k))
  {
    if k in t.conns { RemovedSize(t.conns, k); }
  }

  lemma {:induction false} RemovedAllSize(conns: map<Key, Conn>, keys: set<Key>)
    requires keys <= conns.Keys
    ensures |conns - keys| == |conns| - |keys|
  {
    if keys == {} {
      assert conns - keys == conns;
    } else {
      var k :| k in keys;
      RemovedAllSize(conns, keys - {k});
      RemovedSize(conns - (keys - {k}), k);
      assert conns - (keys - {k}) - {k} == conns - keys;
    }
  }

  lemma DroppedCounted(t: Transport)
    requires Counted(t)
    ensures Counted(BleDropped(t))
  {
    RemovedAllSize(t.conns, BleKeys(t.conns));
  }

  lemma SentCounted(t: Transport, peer: Key, m: ProtocolMessage, env: SendEnv)
    requires Counted(t)
    ensures Counted(SentNow(t, peer, m, env).0)
  {
    RemovedCounted(t, peer);
    InsertedCounted(Removed(t, peer), peer, Conn(Ble, peer));
  }

  lemma {:induction false} FlushedCounted(t: Transport, net: nat -> SendEnv, k: nat)
    requires Counted(t)
    ensures Counted(Flushed(t, net, k).0)
    decreases |t.pending|
  {
    if t.pending == [] {
    } else {
      SentCounted(t.(pending := t.pending[1..]), t.pending[0].peer, t.pending[0].message, net(k));
      FirstFlushedQueue(t, net(k));
      FlushedCounted(FirstFlushed(t, net(k)).0, net, k + 1);
    }
  }

  lemma {:induction false} AllInsertedCounted(t: Transport, inbound: seq<(Key, Conn)>)
    requires Counted(t)
    ensures Counted(AllInserted(t, inbound))
  {
    if inbound == [] {
    } else {
      var i := |inbound| - 1;
      AllInsertedCounted(t, inbound[..i]);
      InsertedCounted(AllInserted(t, inbound[..i]), inbound[i].0, inbound[i].1);
    }
  }

  lemma TickCounted(t: Transport, now: nat, env: TickEnv)
    requires Counted(t)
    ensures Counted(TickDone(t, now, env).0)
  {
    AllInsertedCounted(t, env.inbound);
    var t1 := AllInserted(t, env.inbound);
    DroppedCounted(t1.(power := Ticked(t1.power, now).0));
    FlushedCounted(BeforeFlush(t, now, env), env.net, 0);
  }

  lemma {:induction false} PolledCounted(t: Transport, polls: seq<Poll>, now: nat)
    requires Counted(t)
    ensures Counted(Polled(t, polls, now).0)
    decreases |polls|
  {
    if polls == [] {
    } else {
      var rest := polls[1..];
      if polls[0].key !in t.conns || polls[0].outcome.Quiet? {
        PolledCounted(t, rest, now);
      } else if polls[0].outcome.Broken? {
        var remote := t.conns[polls[0].key].remote;
        var t1 := Removed(t, polls[0].key);
        RemovedCounted(t, polls[0].key);
        InsertedCounted(t1, remote, Conn(Ble, remote));
        var t2 := if polls[0].outcome.fallbackConnects then Inserted(t1, remote, Conn(Ble, remote)) else t1;
        PolledCounted(t2, rest, now);
      }
    }
  }

  lemma SentToCounted(t: Transport, ev: Event)
    requires Counted(t) && ev.Send?
    ensures Counted(SentTo(t, ev.peer, ev.message, ev.now, ev.env, ev.net).0)
  {
    TickCounted(t, ev.now, ev.env);
    var t1 := TickDone(t, ev.now, ev.env).0;
    SentCounted(t1.(power := OutboundRecorded(t1.power, ev.now).0), ev.peer, ev.message, ev.net);
  }

  lemma StepCounted(l: Logged, ev: Event)
    requires Counted(l.t)
    ensures Counted(Step(l, ev).t)
  {
    hide TickDone, SentTo, Polled, Flushed;
    match ev
    case Connect(peer, kind) => if kind.Some? { InsertedCounted(l.t, peer, Conn(kind.value, peer)); }
    case Send(_, _, _, _, _) => SentToCounted(l.t, ev);
    case Receive(now, env, polls) =>
      TickCounted(l.t, now, env);
      PolledCounted(TickDone(l.t, now, env).0, polls, now);
    case PowerTick(now, env) => TickCounted(l.t, now, env);
    case RegisterInbound(peer, c) => InsertedCounted(l.t, peer, c);
    case Disconnect(peer) => RemovedCounted(l.t, peer);
    case RotateMac => DroppedCounted(l.t);
    case Shutdown =>
  }

  /** Over every run, shutdown included, with any failures: the counter is the number of active connections. */
  lemma {:induction false} PeerCountIsExact(start: Power, evs: seq<Event>)
    ensures Run(start, evs).t.peerCount == |Run(start, evs).t.conns|
  {
    if evs == [] {
    } else {
      PeerCountIsExact(start, evs[..|evs| - 1]);
      StepCounted(Run(start, evs[..|evs| - 1]), evs[|evs| - 1]);
    }
  }

  // ---- The queue of deferred transactions ---------------------------------------------------------

  /** What the attempts tried to send, in order. */
  ghost function Items(h: seq<Attempt>): seq<Pending>
  {
    seq(|h|, i requires 0 <= i < |h| => Pending(h[i].peer, h[i].message))
  }

  lemma ItemsConcat(g: seq<Attempt>, h: seq<Attempt>)
    ensures Items(g + h) == Items(g) + Items(h)
  {
  }

  predicate IsDelivered(a: Attempt)
  {
    a.delivery == OnConnection(Sent) || a.delivery == OnFallback(Sent)
  }

  /** A send is recorded as one attempt with its peer and message, delivered exactly if the send succeeds. */
  lemma SendRecorded(t: Transport, peer: Key, m: ProtocolMessage, env: SendEnv) returns (a: Attempt)
    ensures SentNow(t, peer, m, env).0.attempts == t.attempts + [a]
    ensures a.peer == peer && a.message == m && (IsDelivered(a) <==> SentNow(t, peer, m, env).1)
  {
    a := SentNow(t, peer, m, env).0.attempts[|t.attempts|];
  }

  /** The attempts `h` took their messages from the front of the queue, in order, and were recorded. */
  ghost predicate TookFromQueue(t: Transport, t': Transport, h: seq<Attempt>)
  {
    t'.attempts == t.attempts + h && Items(h) + t'.pending == t.pending
  }

  lemma TookMore(t: Transport, t1: Transport, t2: Transport, a: Attempt, more: seq<Attempt>)
    requires TookFromQueue(t, t1, [a]) && TookFromQueue(t1, t2, more)
    ensures TookFromQueue(t, t2, [a] + more)
  {
    ItemsConcat([a], more);
    hide Items;
    assert Items([a]) + (Items(more) + t2.pending) == (Items([a]) + Items(more)) + t2.pending;
    assert t.attempts + ([a] + more) == (t.attempts + [a]) + more;
  }

  lemma FirstTaken(t: Transport, env: SendEnv) returns (a: Attempt)
    requires t.pending != []
    ensures TookFromQueue(t, FirstFlushed(t, env).0, [a]) && (IsDelivered(a) <==> FirstFlushed(t, env).1)
    ensures FirstFlushed(t, env).0.power == t.power && |FirstFlushed(t, env).0.pending| < |t.pending|
  {
    a := SendRecorded(t.(pending := t.pending[1..]), t.pending[0].peer, t.pending[0].message, env);
    FirstFlushedQueue(t, env);
    assert Items([a]) == [t.pending[0]];
    hide SentNow, IsDelivered, Items;
  }

  /** A flush attempts the front of the queue, message by message; it stops at the first attempt that is not
      delivered, and then fails. */
  lemma {:induction false} FlushAttempts(t: Transport, net: nat -> SendEnv, k: nat) returns (h: seq<Attempt>)
    ensures var (t', ok) := Flushed(t, net, k);
            && TookFromQueue(t, t', h) && t'.power == t.power
            && (forall i :: 0 <= i < |h| - 1 ==> IsDelivered(h[i]))
            && (ok ==> t'.pending == [] && forall i :: 0 <= i < |h| ==> IsDelivered(h[i]))
            && (!ok ==> h != [] && !IsDelivered(h[|h| - 1]))
    decreases |t.pending|
  {
    h := [];
    if t.pending == [] {
      assert t.attempts + [] == t.attempts && Items([]) + [] == [];
    } else {
      var (t1, ok) := FirstFlushed(t, net(k));
      var a := FirstTaken(t, net(k));
      hide FirstFlushed, IsDelivered, TookFromQueue;
      h := [a];
      if ok {
        var more := FlushAttempts(t1, net, k + 1);
        TookMore(t, t1, Flushed(t1, net, k + 1).0, a, more);
        h := [a] + more;
      }
    }
  }

  lemma BeforeFlushKeepsQueue(t: Transport, now: nat, env: TickEnv)
    ensures BeforeFlush(t, now, env).pending == t.pending
    ensures BeforeFlush(t, now, env).attempts == t.attempts
    ensures BeforeFlush(t, now, env).power == Ticked(t.power, now).0
  {
    InsertsKeepQueue(t, env.inbound);
  }

  /** A tick attempts to send a prefix of the queue, all of it if it wakes and succeeds, and nothing if it does
      not wake. */
  lemma TickOnQueue(t: Transport, now: nat, env: TickEnv)
    ensures var (t', outcome) := TickDone(t, now, env);
            && t'.attempts == t.attempts + NewAttempts(t, t')
            && t.pending == Items(NewAttempts(t, t')) + t'.pending
            && t'.power == Ticked(t.power, now).0
            && (Ticked(t.power, now).1.wakeNetwork && outcome.Some? ==> t'.pending == [])
            && (!Ticked(t.power, now).1.wakeNetwork ==> outcome.Some? && t'.pending == t.pending)
            && (outcome.Some? ==> outcome.value.interfaces == Ticked(t.power, now).1.interfaces)
  {
    BeforeFlushKeepsQueue(t, now, env);
    hide BeforeFlush, Ticked, Flushed;
    var h := FlushAttempts(BeforeFlush(t, now, env), env.net, 0);
    assert (t.attempts + h)[|t.attempts|..] == h;
    assert t.attempts + [] == t.attempts && Items([]) + t.pending == t.pending;
  }

  lemma {:induction false} PollKeepsQueue(t: Transport, polls: seq<Poll>, now: nat)
    ensures var t' := Polled(t, polls, now).0;
            && t'.pending == t.pending && t'.attempts == t.attempts
            && (t'.power == t.power || t'.power == IncomingRecorded(t.power, now).0)
    decreases |polls|
  {
    if polls == [] {
    } else {
      var rest := polls[1..];
      if polls[0].key !in t.conns || polls[0].outcome.Quiet? {
        PollKeepsQueue(t, rest, now);
      } else if polls[0].outcome.Broken? {
        var remote := t.conns[polls[0].key].remote;
        var t1 := Removed(t, polls[0].key);
        var t2 := if polls[0].outcome.fallbackConnects then Inserted(t1, remote, Conn(Ble, remote)) else t1;
        PollKeepsQueue(t2, rest, now);
      }
    }
  }

  /** What a send does after its tick: it queues the message or attempts to send it, and nothing else. */
  lemma SendOnQueue(t: Transport, ev: Event) returns (a: Attempt)
    requires ev.Send?
    ensures a.peer == ev.peer && a.message == ev.message
    ensures var (t1, tick) := TickDone(t, ev.now, ev.env);
            var (t', outcome) := SentTo(t, ev.peer, ev.message, ev.now, ev.env, ev.net);
            && (outcome == TickFailed <==> tick.None?)
            && (outcome == TickFailed ==> t' == t1)
            && (outcome != TickFailed ==> t'.power == OutboundRecorded(t1.power, ev.now).0)
            && (outcome != TickFailed ==> (outcome == Deferred <==> Defers(t1, ev.message, ev.now)))
            && t'.pending == (if outcome == Deferred then t1.pending + [Pending(ev.peer, ev.message)] else t1.pending)
            && t'.attempts == (if outcome.Direct? then t1.attempts + [a] else t1.attempts)
            && (outcome.Direct? ==> (outcome.ok <==> IsDelivered(a)))
  {
    var t1 := TickDone(t, ev.now, ev.env).0;
    hide TickDone, OutboundRecorded, SentNow, IsDelivered;
    SendKeepsQueue(t1.(power := OutboundRecorded(t1.power, ev.now).0), ev.peer, ev.message, ev.net);
    a := SendRecorded(t1.(power := OutboundRecorded(t1.power, ev.now).0), ev.peer, ev.message, ev.net);
  }

  ghost predicate NoShutdown(evs: seq<Event>)
  {
    forall i :: 0 <= i < |evs| ==> !evs[i].Shutdown?
  }

  /** A tick turns transactions at the front of the queue into attempts. */
  lemma TickShifts(l: Logged, now: nat, env: TickEnv)
    ensures var l' := AfterTick(l, now, env);
            Items(l'.flushed) + l'.t.pending == Items(l.flushed) + l.t.pending
  {
    TickOnQueue(l.t, now, env);
    hide TickDone, Items;
    var h := NewAttempts(l.t, TickDone(l.t, now, env).0);
    ItemsConcat(l.flushed, h);
  }

  lemma SendAccounts(l: Logged, ev: Event)
    requires ev.Send? && l.deferred == Items(l.flushed) + l.t.pending
    ensures var l' := Step(l, ev); l'.deferred == Items(l'.flushed) + l'.t.pending
  {
    TickShifts(l, ev.now, ev.env);
    var a := SendOnQueue(l.t, ev);
    hide TickDone, SentTo, Defers, Items, NewAttempts;
  }

  lemma StepAccounts(l: Logged, ev: Event)
    requires l.deferred == Items(l.flushed) + l.t.pending && !ev.Shutdown?
    ensures var l' := Step(l, ev); l'.deferred == Items(l'.flushed) + l'.t.pending
  {
    match ev
    case Send(_, _, _, _, _) => SendAccounts(l, ev);
    case Receive(now, env, polls) =>
      TickShifts(l, now, env);
      PollKeepsQueue(TickDone(l.t, now, env).0, polls, now);
      hide TickDone, Polled, Items, NewAttempts;
    case PowerTick(now, env) => TickShifts(l, now, env);
    case _ =>
  }

  /** Over every run before shutdown: the transactions ever deferred are, in order, those a flush has attempted
      to send, each once, to its own peer and unchanged, followed by those still queued. */
  lemma {:induction false} DeferredAreAccountedFor(start: Power, evs: seq<Event>)
    requires NoShutdown(evs)
    ensures var l := Run(start, evs); l.deferred == Items(l.flushed) + l.t.pending
  {
    if evs == [] {
    } else {
      DeferredAreAccountedFor(start, evs[..|evs| - 1]);
      StepAccounts(Run(start, evs[..|evs| - 1]), evs[|evs| - 1]);
    }
  }

  // ---- When a flush fails -------------------------------------------------------------------------

  /** A send to this peer succeeds: it is connected, and the connection takes the message or breaks and the BLE
      fallback takes it. */
  predicate SendWorks(connected: set<Key>, peer: Key, env: SendEnv)
  {
    && peer in connected
    && (env.first == Sent || (env.first == BrokenPipe && env.fallbackConnects && env.second == Sent))
  }

  /** Successful sends leave the set of connected peers unchanged. */
  lemma FirstFlushedWorks(t: Transport, env: SendEnv)
    requires t.pending != []
    ensures FirstFlushed(t, env).1 <==> SendWorks(t.conns.Keys, t.pending[0].peer, env)
    ensures FirstFlushed(t, env).1 ==> FirstFlushed(t, env).0.conns.Keys == t.conns.Keys
  {
  }

  /** All sends of a flush but the last work; the first one is the `k`-th of the tick. */
  ghost predicate AllButLastWork(connected: set<Key>, queue: seq<Pending>, net: nat -> SendEnv, k: nat)
  {
    forall j :: 0 <= j < |queue| - 1 ==> SendWorks(connected, queue[j].peer, net(k + j))
  }

  lemma AllButLastAfterFirst(connected: set<Key>, queue: seq<Pending>, net: nat -> SendEnv, k: nat)
    requires queue != []
    ensures AllButLastWork(connected, queue, net, k)
        <==> |queue| == 1
             || (SendWorks(connected, queue[0].peer, net(k)) && AllButLastWork(connected, queue[1..], net, k + 1))
  {
    hide SendWorks;
    var rest := queue[1..];
    if AllButLastWork(connected, queue, net, k) {
      assert |queue| > 1 ==> SendWorks(connected, queue[0].peer, net(k + 0));
      forall j | 0 <= j < |rest| - 1 ensures SendWorks(connected, rest[j].peer, net(k + 1 + j)) {
        assert rest[j] == queue[j + 1] && SendWorks(connected, queue[j + 1].peer, net(k + (j + 1)));
      }
    } else {
      var j :| 0 <= j < |queue| - 1 && !SendWorks(connected, queue[j].peer, net(k + j));
      assert j > 0 ==> rest[j - 1] == queue[j] && net(k + j) == net(k + 1 + (j - 1));
    }
  }

  /** A flush empties the queue exactly if no send but the last fails. */
  lemma {:induction false} FlushEmptiesIff(t: Transport, net: nat -> SendEnv, k: nat)
    ensures Flushed(t, net, k).0.pending == [] <==> AllButLastWork(t.conns.Keys, t.pending, net, k)
    decreases |t.pending|
  {
    if t.pending == [] {
    } else {
      var t1 := FirstFlushed(t, net(k)).0;
      FirstFlushedQueue(t, net(k));
      FirstFlushedWorks(t, net(k));
      AllButLastAfterFirst(t.conns.Keys, t.pending, net, k);
      hide FirstFlushed, SendWorks, AllButLastWork;
      if FirstFlushed(t, net(k)).1 {
        FlushEmptiesIff(t1, net, k + 1);
        if t1.pending == [] { NothingLeft(t.conns.Keys, net, k + 1); }
      }
    }
  }

  lemma NothingLeft(connected: set<Key>, net: nat -> SendEnv, k: nat)
    ensures AllButLastWork(connected, [], net, k)
  {
  }

  /** What stays behind is everything after the first message whose send fails. */
  lemma {:induction false} FlushStopsAt(t: Transport, net: nat -> SendEnv, k: nat, j: nat)
    requires j < |t.pending| && !SendWorks(t.conns.Keys, t.pending[j].peer, net(k + j))
    requires forall i :: 0 <= i < j ==> SendWorks(t.conns.Keys, t.pending[i].peer, net(k + i))
    ensures Flushed(t, net, k).0.pending == t.pending[j + 1..] && !Flushed(t, net, k).1
    decreases j
  {
    var t1 := FirstFlushed(t, net(k)).0;
    FirstFlushedQueue(t, net(k));
    FirstFlushedWorks(t, net(k));
    hide FirstFlushed, SendWorks;
    assert j > 0 ==> SendWorks(t.conns.Keys, t.pending[0].peer, net(k + 0));
    if j == 0 {
    } else {
      forall i | 0 <= i < j - 1 ensures SendWorks(t1.conns.Keys, t1.pending[i].peer, net(k + 1 + i)) {
        assert t1.pending[i] == t.pending[i + 1] && net(k + (i + 1)) == net(k + 1 + i);
      }
      FlushStopsAt(t1, net, k + 1, j - 1);
    }
  }

  /** The send of some queued message other than the last one fails: its peer is not connected, or the network
      refuses the message. */
  ghost predicate EarlySendFails(t: Transport, net: nat -> SendEnv)
  {
    exists j :: 0 <= j < |t.pending| - 1 && !SendWorks(t.conns.Keys, t.pending[j].peer, net(j))
  }

  lemma FlushLeavesIff(t: Transport, net: nat -> SendEnv)
    ensures Flushed(t, net, 0).0.pending != [] <==> EarlySendFails(t, net)
  {
    FlushEmptiesIff(t, net, 0);
    hide Flushed, SendWorks;
    forall j: nat ensures net(0 + j) == net(j) {}
  }

  // ---- No stranding, no overtaking ----------------------------------------------------------------

  /** A waiting transaction has the wake-up flag set in low-power mode. */
  ghost predicate NoStranding(t: Transport)
  {
    t.pending != [] ==> t.power.mode == SynchronizedLowPower && t.power.pendingOutbound
  }

  /** A waiting transaction without the flag. */
  ghost predicate Stranded(t: Transport)
  {
    t.pending != [] && !t.power.pendingOutbound
  }

  /** The transactions among the attempts, in order. */
  ghost function TxItems(h: seq<Attempt>): seq<Pending>
  {
    if h == [] then []
    else
      var a := h[|h| - 1];
      if a.message.Transaction? then TxItems(h[..|h| - 1]) + [Pending(a.peer, a.message)] else TxItems(h[..|h| - 1])
  }

  ghost predicate OnlyTransactions(s: seq<Pending>)
  {
    forall i :: 0 <= i < |s| ==> s[i].message.Transaction?
  }

  lemma {:induction false} TxItemsOf(g: seq<Attempt>, h: seq<Attempt>)
    requires OnlyTransactions(Items(h))
    ensures TxItems(g + h) == TxItems(g) + Items(h)
  {
    if h == [] {
      assert g + h == g;
    } else {
      var pre, a := h[..|h| - 1], h[|h| - 1];
      assert Items(h) == Items(pre) + [Pending(a.peer, a.message)];
      PartsOnlyTransactions(Items(pre), [Pending(a.peer, a.message)]);
      TxItemsOf(g, pre);
      assert Items(h)[|h| - 1].message.Transaction?;
      assert (g + h)[..|g + h| - 1] == g + pre;
    }
  }

  lemma TxItemsSnoc(h: seq<Attempt>, a: Attempt)
    ensures TxItems(h + [a])
         == if a.message.Transaction? then TxItems(h) + [Pending(a.peer, a.message)] else TxItems(h)
  {
    assert (h + [a])[..|h|] == h;
  }

  /** Nothing is stranded, and the transactions attempted so far followed by those queued are, in order, the
      transactions accepted. */
  ghost predicate Orderly(l: Logged)
  {
    && NoStranding(l.t) && OnlyTransactions(l.t.pending)
    && TxItems(l.t.attempts) + l.t.pending == l.submitted
  }

  /** A tick now wakes the network, and a send other than the last of its flush fails. */
  ghost predicate FailsEarly(t: Transport, now: nat, env: TickEnv)
  {
    Ticked(t.power, now).1.wakeNetwork && EarlySendFails(BeforeFlush(t, now, env), env.net)
  }

  ghost predicate EventFailsEarly(t: Transport, ev: Event)
  {
    match ev
    case Send(_, _, now, env, _) => FailsEarly(t, now, env)
    case Receive(now, env, _) => FailsEarly(t, now, env)
    case PowerTick(now, env) => FailsEarly(t, now, env)
    case _ => false
  }

  /** No flush of the run fails before its last send. */
  ghost predicate NoEarlyFailure(start: Power, evs: seq<Event>)
  {
    forall i :: 0 <= i < |evs| ==> !EventFailsEarly(Run(start, evs[..i]).t, evs[i])
  }

  lemma TickKeepsItems(t: Transport, now: nat, env: TickEnv)
    requires OnlyTransactions(t.pending)
    ensures var t' := TickDone(t, now, env).0;
            OnlyTransactions(t'.pending) && TxItems(t'.attempts) + t'.pending == TxItems(t.attempts) + t.pending
  {
    TickOnQueue(t, now, env);
    hide TickDone, TxItems, Items;
    var t' := TickDone(t, now, env).0;
    var h := Items(NewAttempts(t, t'));
    PartsOnlyTransactions(h, t'.pending);
    TxItemsOf(t.attempts, NewAttempts(t, t'));
    assert (TxItems(t.attempts) + h) + t'.pending == TxItems(t.attempts) + (h + t'.pending);
  }

  lemma PartsOnlyTransactions(a: seq<Pending>, b: seq<Pending>)
    requires OnlyTransactions(a + b)
    ensures OnlyTransactions(a) && OnlyTransactions(b)
  {
    forall i | 0 <= i < |a| ensures a[i].message.Transaction? { assert (a + b)[i] == a[i]; }
    forall i | 0 <= i < |b| ensures b[i].message.Transaction? { assert (a + b)[|a| + i] == b[i]; }
  }

  lemma WakingTickEmpties(t: Transport, now: nat, env: TickEnv)
    requires Ticked(t.power, now).1.wakeNetwork
    ensures TickDone(t, now, env).0.pending != [] <==> EarlySendFails(BeforeFlush(t, now, env), env.net)
  {
    FlushLeavesIff(BeforeFlush(t, now, env), env.net);
    hide Ticked, BeforeFlush, Flushed, EarlySendFails;
  }

  /** After a tick that does not fail early, a queue that is not empty means low power, the flag set and no awake
      window. */
  lemma TickKeepsOrder(t: Transport, now: nat, env: TickEnv)
    requires NoStranding(t) && !FailsEarly(t, now, env)
    ensures var (t', outcome) := TickDone(t, now, env);
            && NoStranding(t')
            && (t'.pending != [] ==> !IsAwakeWindow(now))
            && (t'.power.mode == SynchronizedLowPower && IsAwakeWindow(now) ==> !t'.power.pendingOutbound)
            && (outcome.None? ==> t'.pending == [])
            && (outcome.Some? ==> outcome.value.interfaces == InterfacesAt(t'.power, now))
  {
    TickOnQueue(t, now, env);
    if Ticked(t.power, now).1.wakeNetwork { WakingTickEmpties(t, now, env); }
    hide TickDone, NewAttempts, Items, EarlySendFails, BeforeFlush;
  }

  lemma SendKeepsFlags(l: Logged, ev: Event)
    requires ev.Send? && Orderly(l) && !EventFailsEarly(l.t, ev)
    ensures NoStranding(Step(l, ev).t)
    ensures ev.message.Transaction? && !SentTo(l.t, ev.peer, ev.message, ev.now, ev.env, ev.net).1.Deferred?
            ==> TickDone(l.t, ev.now, ev.env).0.pending == []
  {
    TickKeepsOrder(l.t, ev.now, ev.env);
    var a := SendOnQueue(l.t, ev);
    var t1 := TickDone(l.t, ev.now, ev.env).0;
    if t1.power.mode == SynchronizedLowPower && !IsAwakeWindow(ev.now) { OutboundOnPower(t1.power, ev.now); }
    hide TickDone, NewAttempts, SentTo, OutboundRecorded, Ticked, TxItems, OnlyTransactions;
  }

  lemma SendKeepsOrder(l: Logged, ev: Event)
    requires ev.Send? && Orderly(l) && !EventFailsEarly(l.t, ev)
    ensures Orderly(Step(l, ev))
  {
    SendKeepsFlags(l, ev);
    SendKeepsItems(l, ev);
    hide TickDone, SentTo, Step, NoStranding, OnlyTransactions, TxItems;
  }

  lemma SendKeepsItems(l: Logged, ev: Event)
    requires ev.Send? && OnlyTransactions(l.t.pending) && TxItems(l.t.attempts) + l.t.pending == l.submitted
    requires ev.message.Transaction? && !SentTo(l.t, ev.peer, ev.message, ev.now, ev.env, ev.net).1.Deferred?
             ==> TickDone(l.t, ev.now, ev.env).0.pending == []
    ensures var l' := Step(l, ev);
            OnlyTransactions(l'.t.pending) && TxItems(l'.t.attempts) + l'.t.pending == l'.submitted
  {
    TickKeepsItems(l.t, ev.now, ev.env);
    var a := SendOnQueue(l.t, ev);
    DeferredIsTransaction(l.t, ev);
    SendStep(l, ev);
    var t1, x := TickDone(l.t, ev.now, ev.env).0, Pending(ev.peer, ev.message);
    var outcome := SentTo(l.t, ev.peer, ev.message, ev.now, ev.env, ev.net).1;
    hide TickDone, NewAttempts, SentTo, Defers, TxItems, OnlyTransactions, Step;
    if outcome.Deferred? {
      DeferredItems(t1.attempts, t1.pending, l.submitted, x);
    } else if outcome.Direct? {
      DirectItems(t1.attempts, t1.pending, l.submitted, a);
    }
  }

  lemma DeferredItems(h: seq<Attempt>, pending: seq<Pending>, submitted: seq<Pending>, x: Pending)
    requires TxItems(h) + pending == submitted && OnlyTransactions(pending) && x.message.Transaction?
    ensures TxItems(h) + (pending + [x]) == submitted + [x] && OnlyTransactions(pending + [x])
  {
    SnocOnlyTransactions(pending, x);
    hide TxItems, OnlyTransactions;
  }

  lemma DirectItems(h: seq<Attempt>, pending: seq<Pending>, submitted: seq<Pending>, a: Attempt)
    requires TxItems(h) + pending == submitted && (a.message.Transaction? ==> pending == [])
    ensures TxItems(h + [a]) + pending
         == if a.message.Transaction? then submitted + [Pending(a.peer, a.message)] else submitted
  {
    TxItemsSnoc(h, a);
    hide TxItems;
  }

  lemma SendStep(l: Logged, ev: Event)
    requires ev.Send?
    ensures var (t, outcome) := SentTo(l.t, ev.peer, ev.message, ev.now, ev.env, ev.net);
            && Step(l, ev).t == t
            && Step(l, ev).submitted == if outcome.Deferred? || (outcome.Direct? && ev.message.Transaction?)
                                        then l.submitted + [Pending(ev.peer, ev.message)] else l.submitted
  {
    hide TickDone, NewAttempts;
  }

  lemma SnocOnlyTransactions(s: seq<Pending>, x: Pending)
    requires OnlyTransactions(s)
    ensures x.message.Transaction? ==> OnlyTransactions(s + [x])
  {
  }

  lemma DeferredIsTransaction(t: Transport, ev: Event)
    requires ev.Send?
    ensures SentTo(t, ev.peer, ev.message, ev.now, ev.env, ev.net).1.Deferred? ==> ev.message.Transaction?
  {
    hide TickDone, SentNow;
  }

  lemma OutboundOnPower(p: Power, now: nat)
    requires p.mode == SynchronizedLowPower && !IsAwakeWindow(now)
    ensures OutboundRecorded(p, now).0.mode == SynchronizedLowPower && OutboundRecorded(p, now).0.pendingOutbound
  {
  }

  lemma ReceiveKeepsOrder(l: Logged, now: nat, env: TickEnv, polls: seq<Poll>)
    requires Orderly(l) && !FailsEarly(l.t, now, env)
    ensures Orderly(Step(l, Receive(now, env, polls)))
  {
    TickKeepsItems(l.t, now, env);
    TickKeepsOrder(l.t, now, env);
    var t1 := TickDone(l.t, now, env).0;
    PollKeepsQueue(t1, polls, now);
    hide TickDone, NewAttempts, Polled, IncomingRecorded, Ticked, TxItems;
  }

  lemma TickEventKeepsOrder(l: Logged, now: nat, env: TickEnv)
    requires Orderly(l) && !FailsEarly(l.t, now, env)
    ensures Orderly(Step(l, PowerTick(now, env)))
  {
    TickKeepsItems(l.t, now, env);
    TickKeepsOrder(l.t, now, env);
    hide TickDone, NewAttempts, TxItems;
  }

  lemma StepKeepsOrder(l: Logged, ev: Event)
    requires Orderly(l) && !EventFailsEarly(l.t, ev) && !ev.Shutdown?
    ensures Orderly(Step(l, ev))
  {
    hide TickDone, SentTo, ReceivedAny, AfterSend, AfterTick, TxItems;
    match ev
    case Send(_, _, _, _, _) => SendKeepsOrder(l, ev);
    case Receive(now, env, polls) => ReceiveKeepsOrder(l, now, env, polls);
    case PowerTick(now, env) => TickEventKeepsOrder(l, now, env);
    case _ =>
  }

  lemma EarlierPrefix(start: Power, evs: seq<Event>)
    requires evs != [] && NoEarlyFailure(start, evs)
    ensures NoEarlyFailure(start, evs[..|evs| - 1])
    ensures !EventFailsEarly(Run(start, evs[..|evs| - 1]).t, evs[|evs| - 1])
  {
    var pre := evs[..|evs| - 1];
    hide Run, EventFailsEarly;
    forall i | 0 <= i < |pre| ensures !EventFailsEarly(Run(start, pre[..i]).t, pre[i]) {
      assert pre[..i] == evs[..i] && !EventFailsEarly(Run(start, evs[..i]).t, evs[i]);
    }
  }

  lemma LaterEvent(start: Power, evs: seq<Event>)
    requires evs != [] && NoEarlyFailure(start, evs[..|evs| - 1])
    requires !EventFailsEarly(Run(start, evs[..|evs| - 1]).t, evs[|evs| - 1])
    ensures NoEarlyFailure(start, evs)
  {
    var pre := evs[..|evs| - 1];
    hide Run, EventFailsEarly;
    forall i | 0 <= i < |evs| ensures !EventFailsEarly(Run(start, evs[..i]).t, evs[i]) {
      if i < |pre| { assert pre[..i] == evs[..i] && !EventFailsEarly(Run(start, pre[..i]).t, pre[i]); }
    }
  }

  lemma EarlierFailure(start: Power, evs: seq<Event>)
    requires evs != []
    ensures NoEarlyFailure(start, evs)
        <==> NoEarlyFailure(start, evs[..|evs| - 1])
             && !EventFailsEarly(Run(start, evs[..|evs| - 1]).t, evs[|evs| - 1])
  {
    var pre, ev := evs[..|evs| - 1], evs[|evs| - 1];
    hide *;
    if NoEarlyFailure(start, evs) { EarlierPrefix(start, evs); }
    if NoEarlyFailure(start, pre) && !EventFailsEarly(Run(start, pre).t, ev) { LaterEvent(start, evs); }
  }

  /** If no flush fails before its last send, then over every run before shutdown no deferred transaction is stranded
      (a non-empty queue implies low power with the wake-up flag set), and none is overtaken: the transactions that
      `send_now` has been called with, followed by those queued, are the accepted ones in order. */
  lemma {:induction false} NeverStrandedNorOvertaken(start: Power, evs: seq<Event>)
    requires NoShutdown(evs) && NoEarlyFailure(start, evs)
    ensures Orderly(Run(start, evs))
  {
    if evs == [] {
    } else {
      var pre, ev := evs[..|evs| - 1], evs[|evs| - 1];
      EarlierFailure(start, evs);
      NeverStrandedNorOvertaken(start, pre);
      hide Orderly, Step, NoEarlyFailure;
      StepKeepsOrder(Run(start, pre), ev);
    }
  }

  /** Nothing is stranded at any point of the run. */
  ghost predicate NeverStranded(start: Power, evs: seq<Event>)
  {
    forall i :: 0 <= i <= |evs| ==> NoStranding(Run(start, evs[..i]).t)
  }

  lemma StrandingEvent(l: Logged, ev: Event)
    requires EventFailsEarly(l.t, ev)
    ensures !NoStranding(Step(l, ev).t)
  {
    hide TickDone, SentTo, FailsEarly, NewAttempts;
    match ev
    case Send(_, _, now, env, _) =>
      TickStrands(l.t, now, env);
      var a := SendOnQueue(l.t, ev);
    case Receive(now, env, _) => TickStrands(l.t, now, env);
    case PowerTick(now, env) => TickStrands(l.t, now, env);
  }

  /** A tick that fails early reports an error and strands. */
  lemma TickStrands(t: Transport, now: nat, env: TickEnv)
    requires FailsEarly(t, now, env)
    ensures var (t', outcome) := TickDone(t, now, env);
            outcome.None? && !NoStranding(t') && Stranded(t')
  {
    TickOnQueue(t, now, env);
    WakingTickEmpties(t, now, env);
    hide TickDone, NewAttempts, Items, EarlySendFails, BeforeFlush;
  }

  /** Exactly when nothing is ever stranded: no flush fails before its last send. */
  lemma {:induction false} NeverStrandedIff(start: Power, evs: seq<Event>)
    requires NoShutdown(evs)
    ensures NeverStranded(start, evs) <==> NoEarlyFailure(start, evs)
  {
    if evs == [] {
      assert evs[..0] == [];
    } else {
      var pre, ev := evs[..|evs| - 1], evs[|evs| - 1];
      NeverStrandedIff(start, pre);
      EarlierFailure(start, evs);
      EarlierStranding(start, evs);
      hide NeverStranded, NoEarlyFailure, Step;
      if NoEarlyFailure(start, pre) {
        NeverStrandedNorOvertaken(start, pre);
        var l := Run(start, pre);
        if EventFailsEarly(l.t, ev) { StrandingEvent(l, ev); } else { StepKeepsOrder(l, ev); }
      }
    }
  }

  lemma EarlierStranding(start: Power, evs: seq<Event>)
    requires evs != []
    ensures NeverStranded(start, evs)
        <==> NeverStranded(start, evs[..|evs| - 1]) && NoStranding(Run(start, evs).t)
  {
    var pre := evs[..|evs| - 1];
    hide Run, NoStranding;
    assert forall i :: 0 <= i <= |pre| ==> pre[..i] == evs[..i];
    assert evs[..|evs|] == evs;
    if NeverStranded(start, pre) && NoStranding(Run(start, evs).t) {
      forall i | 0 <= i <= |evs| ensures NoStranding(Run(start, evs[..i]).t) {
        assert i < |evs| ==> pre[..i] == evs[..i];
      }
    }
  }

  /** The transactions that a connection took, in order. */
  ghost function DeliveredTxs(h: seq<Attempt>): seq<Pending>
  {
    if h == [] then []
    else
      var a := h[|h| - 1];
      if a.message.Transaction? && IsDelivered(a) then DeliveredTxs(h[..|h| - 1]) + [Pending(a.peer, a.message)]
      else DeliveredTxs(h[..|h| - 1])
  }

  /** `part` is made of the entries of `all` at the increasing positions `at`. */
  ghost predicate PickedInOrder(part: seq<Pending>, all: seq<Pending>, at: seq<nat>)
  {
    && |at| == |part|
    && (forall i :: 0 <= i < |at| ==> at[i] < |all| && part[i] == all[at[i]])
    && (forall i, j :: 0 <= i < j < |at| ==> at[i] < at[j])
  }

  lemma PickedSnoc(part: seq<Pending>, all: seq<Pending>, at: seq<nat>, x: Pending)
    requires PickedInOrder(part, all, at)
    ensures PickedInOrder(part, all + [x], at)
    ensures PickedInOrder(part + [x], all + [x], at + [|all|])
  {
  }

  lemma {:induction false} DeliveredArePicked(h: seq<Attempt>) returns (at: seq<nat>)
    ensures PickedInOrder(DeliveredTxs(h), TxItems(h), at)
  {
    at := [];
    if h == [] {
      assert PickedInOrder([], [], []);
    } else {
      var pre, a := h[..|h| - 1], h[|h| - 1];
      at := DeliveredArePicked(pre);
      hide PickedInOrder, IsDelivered;
      PickedSnoc(DeliveredTxs(pre), TxItems(pre), at, Pending(a.peer, a.message));
      if a.message.Transaction? && IsDelivered(a) { at := at + [|TxItems(pre)|]; }
    }
  }

  /** Under the same condition the transactions that connections took were accepted in that order. */
  lemma DeliveredInSubmissionOrder(start: Power, evs: seq<Event>) returns (at: seq<nat>)
    requires NoShutdown(evs) && NoEarlyFailure(start, evs)
    ensures var l := Run(start, evs); PickedInOrder(DeliveredTxs(l.t.attempts), l.submitted, at)
  {
    NeverStrandedNorOvertaken(start, evs);
    hide Run, DeliveredTxs, TxItems, NoEarlyFailure;
    at := DeliveredArePicked(Run(start, evs).t.attempts);
  }

  /** The first tick in an awake window that does not fail early empties the queue; the next window starts within
      5 s. */
  lemma AwakeTickEmptiesQueue(start: Power, evs: seq<Event>, now: nat, env: TickEnv)
    requires NoShutdown(evs) && NoEarlyFailure(start, evs)
    requires IsAwakeWindow(now) && !FailsEarly(Run(start, evs).t, now, env)
    ensures TickDone(Run(start, evs).t, now, env).0.pending == []
  {
    NeverStrandedNorOvertaken(start, evs);
    TickKeepsOrder(Run(start, evs).t, now, env);
  }

  // ---- The power machine in runs of the manager ---------------------------------------------------

  lemma StepKeepsPowerInv(l: Logged, ev: Event)
    requires PowerInv(l.t.power)
    ensures PowerInv(Step(l, ev).t.power)
  {
    match ev
    case Send(_, _, now, env, _) =>
      TickOnQueue(l.t, now, env);
      var a := SendOnQueue(l.t, ev);
      OpsKeepPowerInv(l.t.power, now);
      OpsKeepPowerInv(TickDone(l.t, now, env).0.power, now);
      hide TickDone, SentTo, NewAttempts, Items, PowerInv, Ticked, OutboundRecorded;
    case Receive(now, env, polls) =>
      TickOnQueue(l.t, now, env);
      PollKeepsQueue(TickDone(l.t, now, env).0, polls, now);
      OpsKeepPowerInv(l.t.power, now);
      OpsKeepPowerInv(TickDone(l.t, now, env).0.power, now);
      hide TickDone, Polled, NewAttempts, Items, PowerInv, Ticked, IncomingRecorded;
    case PowerTick(now, env) =>
      TickOnQueue(l.t, now, env);
      OpsKeepPowerInv(l.t.power, now);
    case _ =>
  }

  /** Over every run that starts so, a pending wake-up implies low power, and the sleep flag marks low power. */
  lemma {:induction false} RunKeepsPowerInv(start: Power, evs: seq<Event>)
    requires PowerInv(start)
    ensures PowerInv(Run(start, evs).t.power)
  {
    if evs == [] {
    } else {
      RunKeepsPowerInv(start, evs[..|evs| - 1]);
      hide PowerInv, Step;
      StepKeepsPowerInv(Run(start, evs[..|evs| - 1]), evs[|evs| - 1]);
    }
  }

  // ---- When a tick strands ------------------------------------------------------------------------

  /** Exactly when a tick strands transactions: it wakes the network, and among the connections held just before
      the flush and what the network does, the send of some queued message other than the last one fails. */
  lemma StrandsIff(t: Transport, now: nat, env: TickEnv)
    requires NoStranding(t)
    ensures !NoStranding(TickDone(t, now, env).0)
        <==> Ticked(t.power, now).1.wakeNetwork && EarlySendFails(BeforeFlush(t, now, env), env.net)
  {
    if FailsEarly(t, now, env) { TickStrands(t, now, env); } else { TickKeepsOrder(t, now, env); }
    hide TickDone, NoStranding;
  }

  /** With `j` the first failing send, its message is lost and exactly the messages behind it are stranded. */
  lemma StrandedAreBehindFailure(t: Transport, now: nat, env: TickEnv, j: nat)
    requires Ticked(t.power, now).1.wakeNetwork && j < |t.pending|
    requires var connected := BeforeFlush(t, now, env).conns.Keys;
             && !SendWorks(connected, t.pending[j].peer, env.net(j))
             && forall i :: 0 <= i < j ==> SendWorks(connected, t.pending[i].peer, env.net(i))
    ensures var (t', outcome) := TickDone(t, now, env);
            && t'.pending == t.pending[j + 1..] && outcome.None? && t'.power.mode == HighPower
            && Items(NewAttempts(t, t')) == t.pending[..j + 1]
  {
    var t0 := BeforeFlush(t, now, env);
    BeforeFlushKeepsQueue(t, now, env);
    TickOnQueue(t, now, env);
    hide BeforeFlush, Flushed, SendWorks;
    FlushStopsAt(t0, env.net, 0, j);
    FrontOf(Items(NewAttempts(t, TickDone(t, now, env).0)), t.pending, j + 1);
  }

  lemma FrontOf(a: seq<Pending>, s: seq<Pending>, k: nat)
    requires k <= |s| && s == a + s[k..]
    ensures a == s[..k]
  {
    assert |a| == k;
  }

  /** Once stranded, a queued transaction is overtaken: within the idle timeout no tick flushes it, and a new
      transaction goes straight to the connection. */
  lemma StrandedIsOvertaken(t: Transport, ev: Event)
    requires Stranded(t) && t.power.mode == HighPower
    requires ev.Send? && ev.message.Transaction? && ev.now < t.power.lastActivity + IDLE_SLEEP_TIMEOUT
    ensures var (t', outcome) := SentTo(t, ev.peer, ev.message, ev.now, ev.env, ev.net);
            t'.pending == t.pending && outcome.Direct?
  {
    TickOnQueue(t, ev.now, ev.env);
    var a := SendOnQueue(t, ev);
    hide TickDone, NewAttempts, SentTo, OutboundRecorded;
  }

  /** The event sends some message, of any kind, in low power outside the awake window. */
  ghost predicate Marks(t: Transport, ev: Event)
  {
    ev.Send? && Ticked(t.power, ev.now).0.mode == SynchronizedLowPower && !IsAwakeWindow(ev.now)
  }

  lemma StrandedTick(t: Transport, now: nat, env: TickEnv)
    requires Stranded(t)
    ensures var (t', outcome) := TickDone(t, now, env);
            && outcome.Some? && t'.pending == t.pending && Stranded(t')
            && t'.power == Ticked(t.power, now).0 && NewAttempts(t, t') == []
  {
    TickOnQueue(t, now, env);
    var t' := TickDone(t, now, env).0;
    hide TickDone, NewAttempts;
    assert |Items(NewAttempts(t, t'))| + |t'.pending| == |t.pending|;
  }

  lemma StrandedSend(l: Logged, ev: Event)
    requires Stranded(l.t) && ev.Send?
    ensures var l' := Step(l, ev);
            && l'.flushed == l.flushed && l.t.pending <= l'.t.pending
            && (!Marks(l.t, ev) ==> Stranded(l'.t) && l'.t.pending == l.t.pending)
            && (Marks(l.t, ev) ==> NoStranding(l'.t))
  {
    StrandedTick(l.t, ev.now, ev.env);
    var a := SendOnQueue(l.t, ev);
    var p1 := TickDone(l.t, ev.now, ev.env).0.power;
    StrandedOutbound(p1, ev.now);
    assert l.flushed + [] == l.flushed;
    hide TickDone, NewAttempts, SentTo, OutboundRecorded, Ticked;
  }

  lemma StrandedOutbound(p: Power, now: nat)
    requires !p.pendingOutbound
    ensures var p' := OutboundRecorded(p, now).0;
            if Ticked(p, now).0.mode == SynchronizedLowPower && !IsAwakeWindow(now)
            then p'.mode == SynchronizedLowPower && p'.pendingOutbound else !p'.pendingOutbound
  {
  }

  lemma StrandedReceive(l: Logged, now: nat, env: TickEnv, polls: seq<Poll>)
    requires Stranded(l.t)
    ensures var l' := Step(l, Receive(now, env, polls));
            l'.flushed == l.flushed && Stranded(l'.t) && l'.t.pending == l.t.pending
  {
    StrandedTick(l.t, now, env);
    var t1 := TickDone(l.t, now, env).0;
    PollKeepsQueue(t1, polls, now);
    assert !IncomingRecorded(t1.power, now).0.pendingOutbound && l.flushed + [] == l.flushed;
    hide TickDone, NewAttempts, Polled, IncomingRecorded, Ticked;
  }

  /** What any event other than a shutdown does to a stranded queue: nothing, unless it sends a message in low power
      outside the awake window; then the wake-up flag is set again. */
  lemma StrandedStep(l: Logged, ev: Event)
    requires Stranded(l.t) && !ev.Shutdown?
    ensures var l' := Step(l, ev);
            && l'.flushed == l.flushed && l.t.pending <= l'.t.pending
            && (!Marks(l.t, ev) ==> Stranded(l'.t) && l'.t.pending == l.t.pending)
            && (Marks(l.t, ev) ==> NoStranding(l'.t))
  {
    hide TickDone, SentTo, ReceivedAny;
    match ev
    case Send(_, _, _, _, _) => StrandedSend(l, ev);
    case Receive(now, env, polls) => StrandedReceive(l, now, env, polls);
    case PowerTick(now, env) =>
      StrandedTick(l.t, now, env);
      assert l.flushed + [] == l.flushed;
    case _ =>
  }

  ghost function RunFrom(l: Logged, evs: seq<Event>): Logged
  {
    if evs == [] then l else Step(RunFrom(l, evs[..|evs| - 1]), evs[|evs| - 1])
  }

  /** No event of the run sends a message in low power outside the awake window. */
  ghost predicate NoneMarks(l: Logged, evs: seq<Event>)
  {
    forall i :: 0 <= i < |evs| ==> !Marks(RunFrom(l, evs[..i]).t, evs[i])
  }

  lemma EarlierMarks(l: Logged, evs: seq<Event>)
    requires evs != [] && NoneMarks(l, evs)
    ensures NoneMarks(l, evs[..|evs| - 1]) && !Marks(RunFrom(l, evs[..|evs| - 1]).t, evs[|evs| - 1])
  {
    var pre := evs[..|evs| - 1];
    hide RunFrom, Marks;
    forall i | 0 <= i < |pre| ensures !Marks(RunFrom(l, pre[..i]).t, pre[i]) {
      assert pre[..i] == evs[..i] && !Marks(RunFrom(l, evs[..i]).t, evs[i]);
    }
  }

  /** A stranded queue stays as it is, and no flush attempts any of it, through any run in which no message is sent
      in low power outside the awake window. */
  lemma {:induction false} StrandedUntilMarked(l: Logged, evs: seq<Event>)
    requires Stranded(l.t) && NoShutdown(evs) && NoneMarks(l, evs)
    ensures var l' := RunFrom(l, evs);
            l'.t.pending == l.t.pending && l'.flushed == l.flushed && Stranded(l'.t)
  {
    if evs == [] {
    } else {
      var pre, ev := evs[..|evs| - 1], evs[|evs| - 1];
      EarlierMarks(l, evs);
      assert NoShutdown(pre) && !ev.Shutdown?;
      hide Step, Stranded, NoneMarks, NoShutdown, Marks;
      StrandedUntilMarked(l, pre);
      StrandedStep(RunFrom(l, pre), ev);
    }
  }

  /** Such a message rescues the queue: the next tick in an awake window that does not fail early empties it. */
  lemma MarkedIsFlushed(l: Logged, ev: Event, now: nat, env: TickEnv)
    requires Stranded(l.t) && Marks(l.t, ev) && IsAwakeWindow(now)
    ensures var t := Step(l, ev).t;
            && Ticked(t.power, now).1.wakeNetwork
            && (!FailsEarly(t, now, env) ==> TickDone(t, now, env).0.pending == [])
  {
    StrandedStep(l, ev);
    var t := Step(l, ev).t;
    assert t.pending != [];
    hide Step, TickDone, FailsEarly, Marks;
    if !FailsEarly(t, now, env) { TickKeepsOrder(t, now, env); }
  }

  /** The quiet environment: no inbound connection, no rotation. */
  ghost function Quietly(net: nat -> SendEnv): TickEnv
  {
    TickEnv([], false, net)
  }

  /** A transaction sent while the device is idle, outside the awake window, is deferred. */
  lemma IdleSendDefers(t: Transport, peer: Key, m: ProtocolMessage, now: nat, env: TickEnv, send: SendEnv)
    requires m.Transaction? && !IsAwakeWindow(now) && env.inbound == [] && !env.macRotates && PowerInv(t.power)
    requires t.power.mode == HighPower ==> now >= t.power.lastActivity + IDLE_SLEEP_TIMEOUT
    ensures var (t', outcome) := SentTo(t, peer, m, now, env, send);
            && outcome == Deferred
            && t'.conns == t.conns && t'.attempts == t.attempts && t'.pending == t.pending + [Pending(peer, m)]
            && t'.power.mode == SynchronizedLowPower && t'.power.pendingOutbound && PowerInv(t'.power)
  {
    IdlePower(t.power, now);
    hide Ticked, OutboundRecorded, PowerInv;
  }

  lemma IdlePower(p: Power, now: nat)
    requires PowerInv(p) && !IsAwakeWindow(now)
    requires p.mode == HighPower ==> now >= p.lastActivity + IDLE_SLEEP_TIMEOUT
    ensures var (p1, d) := Ticked(p, now);
            && !d.wakeNetwork && p1.mode == SynchronizedLowPower && !InterfacesAt(p1, now).ble
            && OutboundRecorded(p1, now).0.mode == SynchronizedLowPower
            && OutboundRecorded(p1, now).0.pendingOutbound && PowerInv(OutboundRecorded(p1, now).0)
  {
  }

  lemma RunOfLast(start: Power, evs: seq<Event>, ev: Event)
    ensures Run(start, evs + [ev]) == Step(Run(start, evs), ev)
  {
    assert (evs + [ev])[..|evs|] == evs;
  }

  /** Two transactions submitted to a new manager after the idle timeout, outside the awake window. */
  ghost function TwoSends(a: ProtocolMessage, b: ProtocolMessage, net: nat -> SendEnv, send: SendEnv): seq<Event>
  {
    [Send(1, a, 301_000, Quietly(net), send), Send(2, b, 301_001, Quietly(net), send)]
  }

  lemma TwoSendsDeferred(a: ProtocolMessage, b: ProtocolMessage, net: nat -> SendEnv, send: SendEnv)
    requires a.Transaction? && b.Transaction?
    ensures var t := Run(NewPower(0), TwoSends(a, b, net, send)).t;
            && t.conns == map[] && t.attempts == [] && t.pending == [Pending(1, a), Pending(2, b)]
            && t.power.mode == SynchronizedLowPower && t.power.pendingOutbound
  {
    var l0, env := Start(NewPower(0)), Quietly(net);
    var first, second := Send(1, a, 301_000, env, send), Send(2, b, 301_001, env, send);
    assert TwoSends(a, b, net, send) == [first] + [second] && [first] == [] + [first] && Run(NewPower(0), []) == l0;
    hide Run, SentTo, TickDone;
    RunOfLast(NewPower(0), [], first);
    RunOfLast(NewPower(0), [first], second);
    IdleSendDefers(l0.t, 1, a, 301_000, env, send);
    IdleSendDefers(Run(NewPower(0), [first]).t, 2, b, 301_001, env, send);
  }

  /** Stranding in a run of a new manager: two transactions for unconnected peers are submitted while the device
      sleeps, and the tick of the next awake window loses the first and strands the second. */
  lemma StrandingExample(a: ProtocolMessage, b: ProtocolMessage, net: nat -> SendEnv, send: SendEnv)
    requires a.Transaction? && b.Transaction?
    ensures var t := Run(NewPower(0), TwoSends(a, b, net, send) + [PowerTick(305_000, Quietly(net))]).t;
            && t.attempts == [Attempt(1, a, NotConnected)]
            && t.pending == [Pending(2, b)] && t.power.mode == HighPower && !NoStranding(t)
  {
    var evs, env := TwoSends(a, b, net, send), Quietly(net);
    TwoSendsDeferred(a, b, net, send);
    RunOfLast(NewPower(0), evs, PowerTick(305_000, env));
    var t := Run(NewPower(0), evs).t;
    hide Run, TwoSends;
    assert BeforeFlush(t, 305_000, env).conns == map[];
    assert t.pending[1..] == [Pending(2, b)];
  }

  // ---- Which message a receive returns ------------------------------------------------------------

  /** What a poll does to the connections: a broken one goes, and a BLE fallback for its remote peer may come. */
  ghost function AfterPoll(conns: map<Key, Conn>, p: Poll): map<Key, Conn>
  {
    if p.key !in conns || !p.outcome.Broken? then conns
    else if p.outcome.fallbackConnects then (conns - {p.key})[conns[p.key].remote := Conn(Ble, conns[p.key].remote)]
    else conns - {p.key}
  }

  ghost function AfterPolls(conns: map<Key, Conn>, polls: seq<Poll>): map<Key, Conn>
    decreases |polls|
  {
    if polls == [] then conns else AfterPolls(AfterPoll(conns, polls[0]), polls[1..])
  }

  /** The `i`-th poll is of a connection then held, and yields a message. */
  ghost predicate Yields(conns: map<Key, Conn>, polls: seq<Poll>, i: nat)
    requires i < |polls|
  {
    polls[i].key in AfterPolls(conns, polls[..i]) && polls[i].outcome.Message?
  }

  ghost predicate YieldsFirst(conns: map<Key, Conn>, polls: seq<Poll>, i: nat)
    requires i < |polls|
  {
    Yields(conns, polls, i) && forall j: nat :: j < i ==> !Yields(conns, polls, j)
  }

  lemma YieldsLater(conns: map<Key, Conn>, polls: seq<Poll>, i: nat)
    requires i + 1 < |polls|
    ensures Yields(conns, polls, i + 1) <==> Yields(AfterPoll(conns, polls[0]), polls[1..], i)
    ensures AfterPolls(conns, polls[..i + 1]) == AfterPolls(AfterPoll(conns, polls[0]), polls[1..][..i])
  {
    assert polls[..i + 1][1..] == polls[1..][..i] && polls[..i + 1][0] == polls[0];
    hide AfterPoll;
  }

  lemma YieldsNow(conns: map<Key, Conn>, polls: seq<Poll>)
    requires polls != []
    ensures Yields(conns, polls, 0) <==> polls[0].key in conns && polls[0].outcome.Message?
    ensures AfterPolls(conns, polls[..0]) == conns
  {
  }

  lemma ShiftFirst(conns: map<Key, Conn>, polls: seq<Poll>, i: nat)
    requires i < |polls| && YieldsFirst(conns, polls, i) && !Yields(conns, polls, 0)
    ensures i > 0 && YieldsFirst(AfterPoll(conns, polls[0]), polls[1..], i - 1)
    ensures AfterPolls(conns, polls[..i]) == AfterPolls(AfterPoll(conns, polls[0]), polls[1..][..i - 1])
  {
    YieldsLater(conns, polls, i - 1);
    forall j: nat | j < i - 1 ensures !Yields(AfterPoll(conns, polls[0]), polls[1..], j) {
      YieldsLater(conns, polls, j);
      assert !Yields(conns, polls, j + 1);
    }
  }

  /** The first poll that yields, if any. */
  lemma {:induction false} FirstYield(conns: map<Key, Conn>, polls: seq<Poll>) returns (i: nat)
    ensures i <= |polls|
    ensures i < |polls| ==> YieldsFirst(conns, polls, i)
    ensures i == |polls| ==> forall j: nat :: j < |polls| ==> !Yields(conns, polls, j)
  {
    i := 0;
    while i < |polls| && !Yields(conns, polls, i)
      invariant i <= |polls| && forall j: nat :: j < i ==> !Yields(conns, polls, j)
    {
      i := i + 1;
    }
  }

  lemma {:induction false} PolledMeaning(t: Transport, polls: seq<Poll>, now: nat, i: nat)
    requires i <= |polls|
    requires i < |polls| ==> YieldsFirst(t.conns, polls, i)
    requires i == |polls| ==> forall j: nat :: j < |polls| ==> !Yields(t.conns, polls, j)
    ensures var (t', r) := Polled(t, polls, now);
            && t'.conns == AfterPolls(t.conns, polls[..i])
            && (i == |polls| ==> r == None && t'.power == t.power)
            && (i < |polls| ==>
                  && polls[i].key in t'.conns && polls[i].outcome.Message?
                  && r == Some((t'.conns[polls[i].key].remote, polls[i].outcome.message))
                  && t'.power == if polls[i].outcome.message.Transaction? then IncomingRecorded(t.power, now).0
                                 else t.power)
    decreases |polls|
  {
    if polls == [] {
    } else {
      YieldsNow(t.conns, polls);
      if i == 0 {
      } else {
        assert !Yields(t.conns, polls, 0);
        if i < |polls| { ShiftFirst(t.conns, polls, i); } else { ShiftNone(t.conns, polls); }
        OnePolled(t, polls, now);
        hide Polled, Yields, AfterPoll, AfterPolls, IncomingRecorded;
        PolledMeaning(AfterOne(t, polls[0]), polls[1..], now, i - 1);
      }
    }
  }

  lemma ShiftNone(conns: map<Key, Conn>, polls: seq<Poll>)
    requires polls != [] && forall j: nat :: j < |polls| ==> !Yields(conns, polls, j)
    ensures forall j: nat :: j < |polls| - 1 ==> !Yields(AfterPoll(conns, polls[0]), polls[1..], j)
    ensures AfterPolls(conns, polls[..|polls|]) == AfterPolls(AfterPoll(conns, polls[0]), polls[1..][..|polls| - 1])
  {
    forall j: nat | j < |polls| - 1 ensures !Yields(AfterPoll(conns, polls[0]), polls[1..], j) {
      YieldsLater(conns, polls, j);
      assert !Yields(conns, polls, j + 1);
    }
    assert polls[..|polls|] == polls && polls[1..][..|polls| - 1] == polls[1..];
  }

  /** The manager after a poll that yields no message. */
  ghost function AfterOne(t: Transport, p: Poll): Transport
  {
    if p.key !in t.conns || !p.outcome.Broken? then t
    else
      var remote := t.conns[p.key].remote;
      var t1 := Removed(t, p.key);
      if p.outcome.fallbackConnects then Inserted(t1, remote, Conn(Ble, remote)) else t1
  }

  lemma OnePolled(t: Transport, polls: seq<Poll>, now: nat)
    requires polls != [] && !(polls[0].key in t.conns && polls[0].outcome.Message?)
    ensures Polled(t, polls, now) == Polled(AfterOne(t, polls[0]), polls[1..], now)
    ensures AfterOne(t, polls[0]).conns == AfterPoll(t.conns, polls[0])
    ensures AfterOne(t, polls[0]).power == t.power
  {
  }

  /** What `recv_any` answers. If its tick fails or leaves both interfaces off, nothing; otherwise the message of the
      first poll of a held connection that yields one, with that connection's remote peer, and nothing exactly if no
      poll yields. The connections are those that the polls up to then leave, and a transaction leaves the power
      machine active with the idle clock restarted. */
  lemma ReceiveAnswers(t: Transport, now: nat, env: TickEnv, polls: seq<Poll>) returns (i: nat)
    ensures i <= |polls|
    ensures var (t1, tick) := TickDone(t, now, env);
            var (t', r) := ReceivedAny(t, now, env, polls);
            if tick.None? || !(tick.value.interfaces.ble || tick.value.interfaces.wifi) then t' == t1 && r == None
            else
              && (i < |polls| ==> YieldsFirst(t1.conns, polls, i))
              && (i == |polls| ==> forall j: nat :: j < |polls| ==> !Yields(t1.conns, polls, j))
              && t'.conns == AfterPolls(t1.conns, polls[..i])
              && (i == |polls| ==> r == None && t'.power == t1.power)
              && (i < |polls| ==>
                    && polls[i].key in t'.conns && polls[i].outcome.Message?
                    && r == Some((t'.conns[polls[i].key].remote, polls[i].outcome.message))
                    && t'.power == if polls[i].outcome.message.Transaction?
                                   then Power(Active, HighPower, now, false, false, now) else t1.power)
  {
    var t1 := TickDone(t, now, env).0;
    i := FirstYield(t1.conns, polls);
    PolledMeaning(t1, polls, now, i);
    ActivityInNumbers(t1.power, now);
    hide TickDone, Polled, IncomingRecorded, OutboundRecorded, Yields, AfterPolls;
  }

  /** A connection that breaks during polling is gone afterwards, and a fresh BLE one to its remote peer is held if the
      fallback connects. Every other connection stays. */
  lemma BrokenIsReplaced(conns: map<Key, Conn>, p: Poll)
    requires p.key in conns && p.outcome.Broken?
    ensures var conns', remote := AfterPoll(conns, p), conns[p.key].remote;
            && (p.key in conns' ==> p.key == remote && p.outcome.fallbackConnects)
            && (p.outcome.fallbackConnects ==> remote in conns' && conns'[remote] == Conn(Ble, remote))
            && (forall k :: k != p.key && !(k == remote && p.outcome.fallbackConnects) ==>
                  (k in conns' <==> k in conns) && (k in conns ==> conns'[k] == conns[k]))
  {
  }

  lemma {:induction false} PollsSnoc(conns: map<Key, Conn>, polls: seq<Poll>, p: Poll)
    ensures AfterPolls(conns, polls + [p]) == AfterPoll(AfterPolls(conns, polls), p)
    decreases |polls|
  {
    if polls == [] {
      assert AfterPolls(AfterPoll(conns, p), []) == AfterPoll(conns, p);
    } else {
      PollsSnoc(AfterPoll(conns, polls[0]), polls[1..], p);
      assert (polls + [p])[1..] == polls[1..] + [p];
    }
  }

  /** Of the connections that broke in any of the polls, none is left: afterwards their key is free or holds a fresh BLE
      connection. */
  lemma {:induction false} BrokenAreGone(conns: map<Key, Conn>, polls: seq<Poll>, j: nat)
    requires j < |polls| && polls[j].key in AfterPolls(conns, polls[..j]) && polls[j].outcome.Broken?
    ensures var conns' := AfterPolls(conns, polls);
            polls[j].key in conns' ==> conns'[polls[j].key] == Conn(Ble, polls[j].key)
    decreases |polls|
  {
    var pre, last := polls[..|polls| - 1], polls[|polls| - 1];
    assert polls == pre + [last];
    PollsSnoc(conns, pre, last);
    assert polls[..j] == pre[..j];
    if j == |polls| - 1 {
      assert pre[..j] == pre;
    } else {
      BrokenAreGone(conns, pre, j);
    }
  }

  /** A poll of a connection that does not break, or is not held, leaves all connections. */
  lemma UnbrokenKeeps(conns: map<Key, Conn>, p: Poll)
    requires p.key in conns ==> !p.outcome.Broken?
    ensures AfterPoll(conns, p) == conns
  {
  }

  // ---- Which connections there are ----------------------------------------------------------------

  /** What a send leaves: all other connections as they were, and its peer's too unless its pipe broke; then a BLE
      connection if the fallback connects, and none if it does not. */
  lemma SendOnConnections(t: Transport, peer: Key, m: ProtocolMessage, env: SendEnv)
    ensures var t' := SentNow(t, peer, m, env).0;
            if peer in t.conns && env.first == BrokenPipe
            then t'.conns == if env.fallbackConnects then t.conns[peer := Conn(Ble, peer)] else t.conns - {peer}
            else t'.conns == t.conns
  {
    assert (t.conns - {peer})[peer := Conn(Ble, peer)] == t.conns[peer := Conn(Ble, peer)];
  }

  /** When a send reports success: its peer is connected, and the connection takes the message, or breaks and the BLE
      fallback connects and takes it. */
  lemma SendSucceedsIff(t: Transport, peer: Key, m: ProtocolMessage, env: SendEnv)
    ensures SentNow(t, peer, m, env).1
        <==> peer in t.conns
             && (env.first == Sent || (env.first == BrokenPipe && env.fallbackConnects && env.second == Sent))
  {
  }

  /** A MAC rotation leaves exactly the WiFi connections, as they were. */
  lemma RotationKeepsWifi(t: Transport)
    ensures var conns' := BleDropped(t).conns;
            && (forall k :: k in conns' <==> k in t.conns && t.conns[k].kind == WifiDirect)
            && (forall k :: k in conns' ==> conns'[k] == t.conns[k])
  {
  }

  /** Inbound handshakes: each peer's latest one is its connection afterwards; all other connections stay. */
  lemma {:induction false} InboundRegistered(t: Transport, inbound: seq<(Key, Conn)>, k: Key)
    ensures var conns' := AllInserted(t, inbound).conns;
            && (k in conns' <==> k in t.conns || exists i :: 0 <= i < |inbound| && inbound[i].0 == k)
            && (forall i :: 0 <= i < |inbound| && inbound[i].0 == k
                            && (forall j :: i < j < |inbound| ==> inbound[j].0 != k) ==>
                  k in conns' && conns'[k] == inbound[i].1)
            && ((forall i :: 0 <= i < |inbound| ==> inbound[i].0 != k) && k in t.conns ==>
                  k in conns' && conns'[k] == t.conns[k])
  {
    if inbound == [] {
    } else {
      var pre, last := inbound[..|inbound| - 1], |inbound| - 1;
      InboundRegistered(t, pre, k);
      assert forall i :: 0 <= i < last ==> pre[i] == inbound[i];
    }
  }

  /** Which connections a tick leaves before it flushes: those of `InboundRegistered`, and of them only the WiFi ones if
      the MAC rotated. If the tick does not wake the network, that is all it does to them. */
  lemma TickOnConnections(t: Transport, now: nat, env: TickEnv, k: Key)
    ensures var registered, before := AllInserted(t, env.inbound).conns, BeforeFlush(t, now, env).conns;
            && (k in before <==> k in registered && (env.macRotates ==> registered[k].kind == WifiDirect))
            && (k in before ==> before[k] == registered[k])
    ensures !Ticked(t.power, now).1.wakeNetwork ==> TickDone(t, now, env).0 == BeforeFlush(t, now, env)
    ensures TickDone(t, now, env).0.power == Ticked(t.power, now).0
  {
    AllInsertedKeepsPower(t, env.inbound);
    FlushKeepsPower(BeforeFlush(t, now, env), env.net, 0);
    hide Ticked, AllInserted;
  }

  lemma {:induction false} AllInsertedKeepsPower(t: Transport, inbound: seq<(Key, Conn)>)
    ensures AllInserted(t, inbound).power == t.power
  {
    if inbound == [] {
    } else {
      AllInsertedKeepsPower(t, inbound[..|inbound| - 1]);
    }
  }

  lemma {:induction false} FlushKeepsPower(t: Transport, net: nat -> SendEnv, k: nat)
    ensures Flushed(t, net, k).0.power == t.power
    decreases |t.pending|
  {
    if t.pending == [] {
    } else {
      var (t', ok) := FirstFlushed(t, net(k));
      FirstFlushedQueue(t, net(k));
      if ok { FlushKeepsPower(t', net, k + 1); }
    }
  }

  /** A flush leaves the connections of peers with nothing queued alone, and of the others at most replaces one by a BLE
      connection or removes it. */
  lemma {:induction false} FlushOnConnections(t: Transport, net: nat -> SendEnv, k: nat, x: Key)
    ensures var conns' := Flushed(t, net, k).0.conns;
            && (x in conns' ==> x in t.conns && (conns'[x] == t.conns[x] || conns'[x] == Conn(Ble, x)))
            && ((forall i :: 0 <= i < |t.pending| ==> t.pending[i].peer != x) && x in t.conns ==>
                  x in conns' && conns'[x] == t.conns[x])
    decreases |t.pending|
  {
    if t.pending == [] {
    } else {
      var (t', ok) := FirstFlushed(t, net(k));
      FirstFlushedQueue(t, net(k));
      SendOnConnections(t.(pending := t.pending[1..]), t.pending[0].peer, t.pending[0].message, net(k));
      assert t'.pending == t.pending[1..];
      hide SentNow;
      if ok { FlushOnConnections(t', net, k + 1, x); }
    }
  }

  /** Which connection `connect` makes: WiFi when it is preferred, or allowed with an address that connects; BLE when
      only BLE is wanted, or when WiFi has no address, is refused or times out; and only if that one connects. */
  lemma ConnectMeans(t: Transport, peer: Key, p: Preference, wifi: WifiAttempt, bleConnects: bool)
    ensures var conns' := Connected(t, peer, ConnectedKind(p, wifi, bleConnects)).conns;
            var viaWifi := p != BleOnly && wifi == WifiConnects;
            var wifiFails := wifi == NoAddress || wifi == RefusedOrTimedOut;
            var viaBle := bleConnects && (p == BleOnly || (p == Auto && wifiFails));
            conns' == if viaWifi then t.conns[peer := Conn(WifiDirect, peer)]
                      else if viaBle then t.conns[peer := Conn(Ble, peer)] else t.conns
  {
  }

  /** What a tick that succeeds reports: the power decision's interfaces and flags, a MAC rotation if one was due, and
      how many queued messages were sent. */
  lemma TickReports(t: Transport, now: nat, env: TickEnv)
    ensures var (t', outcome) := TickDone(t, now, env);
            var d := Ticked(t.power, now).1;
            outcome.Some? ==>
              && outcome.value.interfaces == d.interfaces
              && outcome.value.flags == (if env.macRotates then d.flags + [MacRotated] else d.flags)
              && outcome.value.flushed == |t.pending| - |t'.pending|
  {
    BeforeFlushKeepsQueue(t, now, env);
    TickOnQueue(t, now, env);
    hide BeforeFlush, Ticked, Flushed, Items, NewAttempts;
  }

  /** When a send is deferred: exactly a transaction, in low power after the tick, outside the first 500 ms of every
      5 s; a send that is not deferred is attempted at once, and its answer is whether it was delivered. */
  lemma DefersIff(t: Transport, ev: Event) returns (a: Attempt)
    requires ev.Send?
    ensures var (t1, tick) := TickDone(t, ev.now, ev.env);
            var (t', outcome) := SentTo(t, ev.peer, ev.message, ev.now, ev.env, ev.net);
            && (outcome == TickFailed <==> tick.None?)
            && (tick.Some? ==> (outcome == Deferred <==> ev.message.Transaction? && ev.now % 5_000 >= 500
                                                         && t1.power.mode == SynchronizedLowPower))
            && (outcome.Direct? ==> t'.attempts == t1.attempts + [a] && (outcome.ok <==> IsDelivered(a)))
            && (outcome.Direct? ==> a.peer == ev.peer && a.message == ev.message)
            && (outcome == Deferred ==> t'.pending == t1.pending + [Pending(ev.peer, ev.message)])
  {
    a := SendOnQueue(t, ev);
    hide TickDone, SentTo, IsDelivered, OutboundRecorded;
  }

  lemma TickTwice(p: Power, now: nat)
    ensures Ticked(Ticked(p, now).0, now).0 == Ticked(p, now).0
  {
  }

  /** What a send does to the power machine, transaction or not: in low power outside the first 500 ms of 5 s it is
      marked pending, otherwise the machine is active with the idle clock restarted. */
  lemma SendOnPower(t: Transport, peer: Key, m: ProtocolMessage, now: nat, env: TickEnv, net: SendEnv)
    ensures var p := Ticked(t.power, now).0;
            SentTo(t, peer, m, now, env, net).0.power
            == if TickDone(t, now, env).1.None? then p
               else if p.mode == SynchronizedLowPower && now % 5_000 >= 500 then p.(pendingOutbound := true)
               else Power(Active, HighPower, now, p.pendingOutbound, false, now)
  {
    var t1 := TickDone(t, now, env).0;
    TickOnConnections(t, now, env, peer);
    TickTwice(t.power, now);
    ActivityInNumbers(t1.power, now);
    SendKeepsQueue(t1.(power := OutboundRecorded(t1.power, now).0), peer, m, net);
    hide TickDone, Ticked, OutboundRecorded, SentNow;
  }
}
