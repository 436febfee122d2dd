/** Connections, deferred sends and the power machine together (`TransportManager`, src/transport/unified.rs). */
module TransportManager {
  import opened Core
  import opened Messages
  import opened PowerManager

  datatype Kind = Ble | WifiDirect

  /** A connection and the peer it believes to be on the other side. */
  datatype Conn = Conn(kind: Kind, remote: Key)

  datatype Pending = Pending(peer: Key, message: ProtocolMessage)

  datatype SendResult = Sent | BrokenPipe | OtherError

  /** What the network does to one send: the first attempt, whether a BLE fallback connects, the second attempt. */
  datatype SendEnv = SendEnv(first: SendResult, fallbackConnects: bool, second: SendResult)

  /** What one power tick meets: completed inbound BLE handshakes, a due MAC rotation, and the flush sends. */
  datatype TickEnv = TickEnv(inbound: seq<(Key, Conn)>, macRotates: bool, net: nat -> SendEnv)

  datatype PollOutcome = Message(message: ProtocolMessage) | Broken(fallbackConnects: bool) | Quiet

  datatype Poll = Poll(key: Key, outcome: PollOutcome)

  /** How one call of `send_now` ended: no connection, an answer of the connection held, a broken pipe without a
      BLE fallback, or an answer of the fallback. */
  datatype Delivery = NotConnected | OnConnection(result: SendResult) | NoFallback | OnFallback(result: SendResult)

  datatype Attempt = Attempt(peer: Key, message: ProtocolMessage, delivery: Delivery)

  /** `attempts` is the history of all calls of `send_now`; nothing but `send_now` adds to it. */
  datatype Transport = Transport(conns: map<Key, Conn>, peerCount: int, pending: seq<Pending>, power: Power,
                                 attempts: seq<Attempt>)

  // ---- Operations on values -----------------------------------------------------------------------

  function Inserted(t: Transport, k: Key, c: Conn): Transport
  {
    t.(conns := t.conns[k := c], peerCount := if k in t.conns then t.peerCount else t.peerCount + 1)
  }

  function Removed(t: Transport, k: Key): Transport
  {
    if k in t.conns then t.(conns := t.conns - {k}, peerCount := t.peerCount - 1) else t
  }

  function AllInserted(t: Transport, inbound: seq<(Key, Conn)>): Transport
  {
    if inbound == [] then t
    else
      var (k, c) := inbound[|inbound| - 1];
      Inserted(AllInserted(t, inbound[..|inbound| - 1]), k, c)
  }

  function BleKeys(conns: map<Key, Conn>): set<Key>
  {
    set k | k in conns && conns[k].kind == Ble
  }

  function BleDropped(t: Transport): Transport
  {
    t.(conns := t.conns - BleKeys(t.conns), peerCount := t.peerCount - |BleKeys(t.conns)|)
  }

  function Attempted(t: Transport, peer: Key, m: ProtocolMessage, d: Delivery): Transport
  {
    t.(attempts := t.attempts + [Attempt(peer, m, d)])
  }

  /** `send_now`: on a broken pipe the connection is replaced by a BLE fallback and the send repeated once. */
  function SentNow(t: Transport, peer: Key, m: ProtocolMessage, env: SendEnv): (Transport, bool)
  {
    if peer !in t.conns then (Attempted(t, peer, m, NotConnected), false)
    else
      match env.first
      case Sent => (Attempted(t, peer, m, OnConnection(Sent)), true)
      case OtherError => (Attempted(t, peer, m, OnConnection(OtherError)), false)
      case BrokenPipe =>
        var t1 := Removed(t, peer);
        if env.fallbackConnects then
          (Attempted(Inserted(t1, peer, Conn(Ble, peer)), peer, m, OnFallback(env.second)), env.second == Sent)
        else (Attempted(t1, peer, m, NoFallback), false)
  }

  /** The flush loop: pop and send until the queue is empty or a send fails. */
  function Flushed(t: Transport, net: nat -> SendEnv, k: nat): (r: (Transport, bool))
    ensures |r.0.pending| <= |t.pending|
    decreases |t.pending|
  {
    if t.pending == [] then (t, true)
    else
      var (t', ok) := FirstFlushed(t, net(k));
      FirstFlushedQueue(t, net(k));
      if ok then Flushed(t', net, k + 1) else (t', false)
  }

  /** One round of it. */
  function FirstFlushed(t: Transport, env: SendEnv): (Transport, bool)
    requires t.pending != []
  {
    SentNow(t.(pending := t.pending[1..]), t.pending[0].peer, t.pending[0].message, env)
  }

  lemma SendKeepsQueue(t: Transport, peer: Key, m: ProtocolMessage, env: SendEnv)
    ensures SentNow(t, peer, m, env).0.pending == t.pending && SentNow(t, peer, m, env).0.power == t.power
  {
  }

  lemma FirstFlushedQueue(t: Transport, env: SendEnv)
    requires t.pending != []
    ensures FirstFlushed(t, env).0.pending == t.pending[1..] && FirstFlushed(t, env).0.power == t.power
  {
    SendKeepsQueue(t.(pending := t.pending[1..]), t.pending[0].peer, t.pending[0].message, env);
  }

  datatype TickOutcome = TickOutcome(interfaces: Interfaces, flags: seq<TopologyFlag>, flushed: nat)

  /** The part of a tick before the flush. */
  function BeforeFlush(t: Transport, now: nat, env: TickEnv): Transport
  {
    var t1 := AllInserted(t, env.inbound);
    var t2 := t1.(power := Ticked(t1.power, now).0);
    if env.macRotates then BleDropped(t2) else t2
  }

  /** `power_tick_at`; no outcome when a flush send fails. */
  function TickDone(t: Transport, now: nat, env: TickEnv): (Transport, Option<TickOutcome>)
  {
    var d := Ticked(t.power, now).1;
    var flags := if env.macRotates then d.flags + [MacRotated] else d.flags;
    var t1 := BeforeFlush(t, now, env);
    if !d.wakeNetwork then (t1, Some(TickOutcome(d.interfaces, flags, 0)))
    else
      var (t2, ok) := Flushed(t1, env.net, 0);
      if ok then (t2, Some(TickOutcome(d.interfaces, flags, |t1.pending|))) else (t2, None)
  }

  datatype SendOutcome = TickFailed | Deferred | Direct(ok: bool)

  predicate Defers(t: Transport, m: ProtocolMessage, now: nat)
  {
    m.Transaction? && t.power.mode == SynchronizedLowPower && !InterfacesAt(t.power, now).ble
  }

  /** `send_to_at`. */
  function SentTo(t: Transport, peer: Key, m: ProtocolMessage, now: nat, env: TickEnv, send: SendEnv)
    : (Transport, SendOutcome)
  {
    var (t1, tick) := TickDone(t, now, env);
    if tick.None? then (t1, TickFailed)
    else
      var t2 := t1.(power := OutboundRecorded(t1.power, now).0);
      if Defers(t1, m, now) then (t2.(pending := t2.pending + [Pending(peer, m)]), Deferred)
      else
        var (t3, ok) := SentNow(t2, peer, m, send);
        (t3, Direct(ok))
  }

  /** The poll loop of `recv_any_at`. */
  function Polled(t: Transport, polls: seq<Poll>, now: nat): (Transport, Option<(Key, ProtocolMessage)>)
    decreases |polls|
  {
    if polls == [] then (t, None)
    else if polls[0].key !in t.conns then Polled(t, polls[1..], now)
    else
      var remote := t.conns[polls[0].key].remote;
      match polls[0].outcome
      case Message(m) =>
        (if m.Transaction? then t.(power := IncomingRecorded(t.power, now).0) else t, Some((remote, m)))
      case Broken(connects) =>
        var t1 := Removed(t, polls[0].key);
        Polled(if connects then Inserted(t1, remote, Conn(Ble, remote)) else t1, polls[1..], now)
      case Quiet => Polled(t, polls[1..], now)
  }

  /** `recv_any_at`; `polls` is the enumeration of the connections and what each poll yields. */
  function ReceivedAny(t: Transport, now: nat, env: TickEnv, polls: seq<Poll>)
    : (Transport, Option<(Key, ProtocolMessage)>)
  {
    var (t1, tick) := TickDone(t, now, env);
    if tick.None? || (!tick.value.interfaces.ble && !tick.value.interfaces.wifi) then (t1, None)
    else Polled(t1, polls, now)
  }

  datatype Preference = Auto | BleOnly | WifiOnly

  datatype WifiAttempt = NoAddress | WifiConnects | RefusedOrTimedOut | WifiOtherError

  /** Which kind of connection `connect` ends up with, if any. */
  function ConnectedKind(p: Preference, wifi: WifiAttempt, bleConnects: bool): Option<Kind>
  {
    var ble := if bleConnects then Some(Ble) else None;
    match p
    case WifiOnly => if wifi == WifiConnects then Some(WifiDirect) else None
    case BleOnly => ble
    case Auto =>
      match wifi
      case NoAddress => ble
      case WifiConnects => Some(WifiDirect)
      case RefusedOrTimedOut => ble
      case WifiOtherError => None
  }

  function Connected(t: Transport, peer: Key, kind: Option<Kind>): Transport
  {
    if kind.Some? then Inserted(t, peer, Conn(kind.value, peer)) else t
  }

  function ShutDown(t: Transport): Transport
  {
    t.(conns := map[], peerCount := 0, pending := [])
  }

  // ---- The manager --------------------------------------------------------------------------------

  class TransportManager {
    const preference: Preference
    var conns: map<Key, Conn>
    var peerCount: nat
    var pendingMessages: seq<Pending>
    ghost var attempts: seq<Attempt>
    const power: PowerManager

    /** The atomic counter mirrors the connection map. */
    ghost predicate Valid()
      reads this
    {
      peerCount == |conns|
    }

    ghost function View(): Transport
      reads this, power
    {
      Transport(conns, peerCount, pendingMessages, power.View(), attempts)
    }

    constructor (preference: Preference, now: nat)
      ensures Valid() && View() == Transport(map[], 0, [], NewPower(now), []) && fresh(power)
      ensures this.preference == preference
    {
      this.preference := preference;
      conns, peerCount, pendingMessages, attempts := map[], 0, [], [];
      power := new PowerManager(now);
    }

    constructor WithPowerManager(preference: Preference, power: PowerManager)
      ensures Valid() && View() == Transport(map[], 0, [], power.View(), [])
      ensures this.preference == preference && this.power == power
    {
      this.preference, this.power := preference, power;
      conns, peerCount, pendingMessages, attempts := map[], 0, [], [];
    }

    method RegisterInbound(peer: Key, c: Conn)
      requires Valid()
      modifies this`conns, this`peerCount
      ensures Valid() && View() == Inserted(old(View()), peer, c)
      ensures conns == old(conns)[peer := c]
    {
      if peer !in conns { peerCount := peerCount + 1; }
      InsertedSize(conns, peer, c);
      conns := conns[peer := c];
    }

    method Remove(peer: Key) returns (removed: bool)
      requires Valid()
      modifies this`conns, this`peerCount
      ensures Valid() && View() == Removed(old(View()), peer) && removed == (peer in old(conns))
    {
      if peer !in conns { return false; }
      RemovedSize(conns, peer);
      conns := conns - {peer};
      peerCount := peerCount - 1;
      return true;
    }

    method Connect(peer: Key, wifi: WifiAttempt, bleConnects: bool) returns (ok: bool)
      requires Valid()
      modifies this`conns, this`peerCount
      ensures Valid() && ok == ConnectedKind(preference, wifi, bleConnects).Some?
      ensures View() == Connected(old(View()), peer, ConnectedKind(preference, wifi, bleConnects))
    {
      var kind := ConnectedKind(preference, wifi, bleConnects);
      if kind.None? { return false; }
      RegisterInbound(peer, Conn(kind.value, peer));
      return true;
    }

    method DisconnectPeer(peer: Key) returns (removed: bool)
      requires Valid()
      modifies this`conns, this`peerCount
      ensures Valid() && View() == Removed(old(View()), peer) && removed == (peer in old(conns))
      ensures conns == old(conns) - {peer}
    {
      removed := Remove(peer);
    }

    method NotifyMacRotated()
      requires Valid()
      modifies this`conns, this`peerCount
      ensures Valid() && View() == BleDropped(old(View()))
    {
      var ble := BleKeys(conns);
      var rest := ble;
      while rest != {}
        invariant Valid() && rest <= ble
        invariant conns == old(conns) - (ble - rest) && pendingMessages == old(pendingMessages)
        invariant peerCount == old(peerCount) - |ble| + |rest|
        decreases rest
      {
        var k :| k in rest;
        OneMoreRemoved(old(conns), ble, rest, k);
        var _ := Remove(k);
        rest := rest - {k};
      }
      assert ble - rest == ble;
    }

    ghost method Record(peer: Key, m: ProtocolMessage, d: Delivery)
      modifies this`attempts
      ensures attempts == old(attempts) + [Attempt(peer, m, d)]
    {
      attempts := attempts + [Attempt(peer, m, d)];
    }

    method SendNow(peer: Key, m: ProtocolMessage, env: SendEnv) returns (ok: bool)
      requires Valid()
      modifies this`conns, this`peerCount, this`attempts
      ensures Valid() && (View(), ok) == SentNow(old(View()), peer, m, env)
    {
      if peer !in conns {
        Record(peer, m, NotConnected);
        return false;
      }
      match env.first {
        case Sent =>
          Record(peer, m, OnConnection(Sent));
          return true;
        case OtherError =>
          Record(peer, m, OnConnection(OtherError));
          return false;
        case BrokenPipe =>
          var _ := Remove(peer);
          if !env.fallbackConnects {
            Record(peer, m, NoFallback);
            return false;
          }
          RegisterInbound(peer, Conn(Ble, peer));
          Record(peer, m, OnFallback(env.second));
          return env.second == Sent;
      }
    }

    method ProcessBleIncoming(inbound: seq<(Key, Conn)>)
      requires Valid()
      modifies this`conns, this`peerCount
      ensures Valid() && View() == AllInserted(old(View()), inbound)
    {
      for i := 0 to |inbound|
        invariant Valid() && View() == AllInserted(old(View()), inbound[..i])
      {
        assert inbound[..i + 1][..i] == inbound[..i];
        RegisterInbound(inbound[i].0, inbound[i].1);
      }
      assert inbound[..|inbound|] == inbound;
    }

    method FlushPending(net: nat -> SendEnv) returns (ok: bool, flushed: nat)
      requires Valid()
      modifies this`conns, this`peerCount, this`pendingMessages, this`attempts
      ensures Valid() && (View(), ok) == Flushed(old(View()), net, 0)
      ensures ok ==> flushed == |old(pendingMessages)|
    {
      flushed := 0;
      while pendingMessages != []
        invariant Valid()
        invariant Flushed(old(View()), net, 0) == Flushed(View(), net, flushed)
        invariant flushed + |pendingMessages| == |old(pendingMessages)|
        decreases |pendingMessages|
      {
        var next := pendingMessages[0];
        pendingMessages := pendingMessages[1..];
        ok := SendNow(next.peer, next.message, net(flushed));
        if !ok { return false, flushed; }
        flushed := flushed + 1;
      }
      return true, flushed;
    }

    method PowerTick(now: nat, env: TickEnv) returns (outcome: Option<TickOutcome>)
      requires Valid()
      modifies this, power
      ensures Valid() && (View(), outcome) == TickDone(old(View()), now, env)
    {
      ghost var t0 := View();
      ProcessBleIncoming(env.inbound);
      InsertsKeepQueue(t0, env.inbound);
      var decision := power.Tick(now);
      var flags := decision.flags;
      if env.macRotates {
        flags := flags + [MacRotated];
        NotifyMacRotated();
      }
      var flushed := 0;
      assert View() == BeforeFlush(t0, now, env);
      if decision.wakeNetwork {
        var ok;
        ok, flushed := FlushPending(env.net);
        if !ok { return None; }
      }
      return Some(TickOutcome(decision.interfaces, flags, flushed));
    }

    method SendTo(peer: Key, m: ProtocolMessage, now: nat, env: TickEnv, send: SendEnv) returns (outcome: SendOutcome)
      requires Valid()
      modifies this, power
      ensures Valid() && (View(), outcome) == SentTo(old(View()), peer, m, now, env, send)
    {
      var tick := PowerTick(now, env);
      if tick.None? { return TickFailed; }
      var interfaces := power.InterfaceState(now);
      if m.Transaction? && power.mode == SynchronizedLowPower && !interfaces.ble {
        var _ := power.RecordOutboundTransaction(now);
        pendingMessages := pendingMessages + [Pending(peer, m)];
        return Deferred;
      }
      var _ := power.RecordOutboundTransaction(now);
      var ok := SendNow(peer, m, send);
      return Direct(ok);
    }

    method RecvAny(now: nat, env: TickEnv, polls: seq<Poll>) returns (r: Option<(Key, ProtocolMessage)>)
      requires Valid()
      modifies this, power
      ensures Valid() && (View(), r) == ReceivedAny(old(View()), now, env, polls)
    {
      var tick := PowerTick(now, env);
      if tick.None? { return None; }
      if !tick.value.interfaces.ble && !tick.value.interfaces.wifi { return None; }
      ghost var t := View();
      assert polls[0..] == polls;
      for i := 0 to |polls|
        invariant Valid() && Polled(t, polls, now) == Polled(View(), polls[i..], now)
      {
        assert polls[i..][1..] == polls[i + 1..];
        var key := polls[i].key;
        if key in conns {
          var remote := conns[key].remote;
          match polls[i].outcome {
            case Message(m) =>
              if m.Transaction? { var _ := power.RecordIncomingTransaction(now); }
              return Some((remote, m));
            case Broken(connects) =>
              var _ := Remove(key);
              if connects { RegisterInbound(remote, Conn(Ble, remote)); }
            case Quiet =>
          }
        }
      }
      return None;
    }

    method Shutdown()
      modifies this`conns, this`peerCount, this`pendingMessages
      ensures Valid() && View() == ShutDown(old(View()))
      ensures conns == map[] && peerCount == 0 && pendingMessages == []
    {
      conns := map[];
      peerCount := 0;
      pendingMessages := [];
    }
  }

  // ---- Sizes and frames ---------------------------------------------------------------------------

  lemma InsertedSize(conns: map<Key, Conn>, k: Key, c: Conn)
    ensures |conns[k := c]| == if k in conns then |conns| else |conns| + 1
  {
    assert conns[k := c].Keys == conns.Keys + {k};
    assert |conns[k := c]| == |conns[k := c].Keys| && |conns| == |conns.Keys|;
    if k in conns { assert conns.Keys + {k} == conns.Keys; }
  }

  lemma RemovedSize(conns: map<Key, Conn>, k: Key)
    requires k in conns
    ensures |conns - {k}| == |conns| - 1
  {
    assert (conns - {k}).Keys == conns.Keys - {k};
    assert |conns - {k}| == |(conns - {k}).Keys| && |conns| == |conns.Keys|;
  }

  lemma OneMoreRemoved(conns: map<Key, Conn>, ble: set<Key>, rest: set<Key>, k: Key)
    requires k in rest && rest <= ble && ble <= conns.Keys
    ensures k in conns - (ble - rest)
    ensures conns - (ble - rest) - {k} == conns - (ble - (rest - {k}))
    ensures |rest - {k}| == |rest| - 1
  {
    assert ble - (rest - {k}) == (ble - rest) + {k};
  }

  lemma {:induction false} InsertsKeepQueue(t: Transport, inbound: seq<(Key, Conn)>)
    ensures AllInserted(t, inbound).pending == t.pending && AllInserted(t, inbound).power == t.power
    ensures AllInserted(t, inbound).attempts == t.attempts
  {
    if inbound == [] {
    } else {
      InsertsKeepQueue(t, inbound[..|inbound| - 1]);
    }
  }
}
