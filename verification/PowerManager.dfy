/** The power state machine (src/transport/power.rs). Times are in milliseconds. */
module PowerManager {
  import opened Core

  const IDLE_SLEEP_TIMEOUT := 5 * 60 * 1000
  const WAKE_INTERVAL := 5000
  const WAKE_WINDOW := 500

  datatype PowerState = Active | LowPower | DeepSleep
  datatype PowerMode = HighPower | SynchronizedLowPower
  datatype Interfaces = Interfaces(ble: bool, wifi: bool)
  datatype TopologyFlag = GoToSleep | LowPowerMode | DeepSleepPending | MacRotated
  datatype Decision = Decision(interfaces: Interfaces, flags: seq<TopologyFlag>, wakeNetwork: bool)

  const AWAKE := Interfaces(true, true)
  const SLEEPING := Interfaces(false, false)

  datatype Power = Power(state: PowerState, mode: PowerMode, lastActivity: nat, pendingOutbound: bool,
                         sleepFlagEmitted: bool, nowMs: nat)

  function NewPower(now: nat): Power
  {
    Power(Active, HighPower, now, false, false, now)
  }

  predicate IsAwakeWindow(now: nat)
  {
    now % WAKE_INTERVAL < WAKE_WINDOW
  }

  /** The start of the next awake window. */
  function NextAwakeBarrier(now: nat): nat
  {
    (now / WAKE_INTERVAL + 1) * WAKE_INTERVAL
  }

  function InterfacesAt(p: Power, now: nat): Interfaces
  {
    if p.mode == HighPower || IsAwakeWindow(now) then AWAKE else SLEEPING
  }

  /** The idle test of `tick`: high-power mode ends now. */
  predicate GoesToSleep(p: Power, now: nat)
  {
    Max(now - p.lastActivity, 0) >= IDLE_SLEEP_TIMEOUT && p.mode == HighPower
  }

  function Ticked(p: Power, now: nat): (Power, Decision)
  {
    var p1 := if GoesToSleep(p, now) then p.(nowMs := now, mode := SynchronizedLowPower, state := LowPower)
              else p.(nowMs := now);
    var emit := p1.mode == SynchronizedLowPower && !p1.sleepFlagEmitted;
    var p2 := if emit then p1.(sleepFlagEmitted := true) else p1;
    var wake := p2.mode == SynchronizedLowPower && p2.pendingOutbound && IsAwakeWindow(now);
    var p3 := if wake then Power(Active, HighPower, now, false, false, now) else p2;
    (p3, Decision(InterfacesAt(p3, now), if emit then [GoToSleep] else [], wake))
  }

  function IncomingRecorded(p: Power, now: nat): (Power, Decision)
  {
    Ticked(Power(Active, HighPower, now, false, false, p.nowMs), now)
  }

  function OutboundRecorded(p: Power, now: nat): (Power, Decision)
  {
    var (p1, d) := Ticked(p, now);
    if p1.mode == SynchronizedLowPower && !IsAwakeWindow(now) then
      (p1.(pendingOutbound := true), d.(interfaces := SLEEPING))
    else
      (p1.(lastActivity := now, sleepFlagEmitted := false, mode := HighPower, state := Active), d.(interfaces := AWAKE))
  }

  /** `set_state`, with the flags of the topology update it returns (none when going active). */
  function StateSet(p: Power, s: PowerState): (Power, Option<seq<TopologyFlag>>)
  {
    var p1 := p.(state := s, mode := if s == Active then HighPower else SynchronizedLowPower);
    match s
    case Active => (p1, None)
    case LowPower => (p1, Some([LowPowerMode]))
    case DeepSleep => (p1, Some([DeepSleepPending]))
  }

  class PowerManager {
    var state: PowerState
    var mode: PowerMode
    var lastActivity: nat
    var pendingOutbound: bool
    var sleepFlagEmitted: bool
    var nowMs: nat

    ghost function View(): Power
      reads this
    {
      Power(state, mode, lastActivity, pendingOutbound, sleepFlagEmitted, nowMs)
    }

    constructor (now: nat)
      ensures View() == NewPower(now)
    {
      state, mode, lastActivity := Active, HighPower, now;
      pendingOutbound, sleepFlagEmitted, nowMs := false, false, now;
    }

    method InterfaceState(now: nat) returns (i: Interfaces)
      ensures i == InterfacesAt(View(), now)
    {
      i := if mode == HighPower || IsAwakeWindow(now) then AWAKE else SLEEPING;
    }

    method Tick(now: nat) returns (d: Decision)
      modifies this
      ensures (View(), d) == Ticked(old(View()), now)
    {
      nowMs := now;
      var flags: seq<TopologyFlag> := [];
      var idleFor := Max(now - lastActivity, 0);
      if idleFor >= IDLE_SLEEP_TIMEOUT && mode == HighPower {
        mode := SynchronizedLowPower;
        state := LowPower;
      }
      if mode == SynchronizedLowPower && !sleepFlagEmitted {
        flags := flags + [GoToSleep];
        assert flags == [GoToSleep];
        sleepFlagEmitted := true;
      }
      var wake := mode == SynchronizedLowPower && pendingOutbound && IsAwakeWindow(now);
      if wake {
        mode := HighPower;
        state := Active;
        pendingOutbound := false;
        lastActivity := now;
        sleepFlagEmitted := false;
      }
      var i := InterfaceState(now);
      d := Decision(i, flags, wake);
    }

    method RecordIncomingTransaction(now: nat) returns (d: Decision)
      modifies this
      ensures (View(), d) == IncomingRecorded(old(View()), now)
    {
      lastActivity := now;
      pendingOutbound := false;
      sleepFlagEmitted := false;
      mode := HighPower;
      state := Active;
      d := Tick(now);
    }

    method RecordOutboundTransaction(now: nat) returns (d: Decision)
      modifies this
      ensures (View(), d) == OutboundRecorded(old(View()), now)
    {
      d := Tick(now);
      if mode == SynchronizedLowPower && !IsAwakeWindow(now) {
        pendingOutbound := true;
        d := d.(interfaces := SLEEPING);
        return;
      }
      lastActivity := now;
      sleepFlagEmitted := false;
      mode := HighPower;
      state := Active;
      d := d.(interfaces := AWAKE);
    }

    method SetState(s: PowerState) returns (flags: Option<seq<TopologyFlag>>)
      modifies this
      ensures (View(), flags) == StateSet(old(View()), s)
    {
      state := s;
      mode := match s
        case Active => HighPower
        case LowPower => SynchronizedLowPower
        case DeepSleep => SynchronizedLowPower;
      match s {
        case Active => return None;
        case LowPower => return Some([LowPowerMode]);
        case DeepSleep => return Some([DeepSleepPending]);
      }
    }
  }

  // ---- Runs ---------------------------------------------------------------------------------------

  datatype Event = Tick(now: nat) | Incoming(now: nat) | Outbound(now: nat) | SetTo(s: PowerState)

  ghost function Step(p: Power, ev: Event): Power
  {
    match ev
    case Tick(now) => Ticked(p, now).0
    case Incoming(now) => IncomingRecorded(p, now).0
    case Outbound(now) => OutboundRecorded(p, now).0
    case SetTo(s) => StateSet(p, s).0
  }

  ghost function Run(start: nat, evs: seq<Event>): Power
  {
    if evs == [] then NewPower(start) else Step(Run(start, evs[..|evs| - 1]), evs[|evs| - 1])
  }

  lemma StepKeepsActive(p: Power, ev: Event)
    requires p.state == Active <==> p.mode == HighPower
    ensures Step(p, ev).state == Active <==> Step(p, ev).mode == HighPower
  {
  }

  /** In every run, state is Active exactly in high-power mode. */
  lemma {:induction false} ActiveIffHighPower(start: nat, evs: seq<Event>)
    ensures Run(start, evs).state == Active <==> Run(start, evs).mode == HighPower
  {
    if evs == [] {
    } else {
      ActiveIffHighPower(start, evs[..|evs| - 1]);
      StepKeepsActive(Run(start, evs[..|evs| - 1]), evs[|evs| - 1]);
      hide Step;
    }
  }

  ghost predicate NoManualState(evs: seq<Event>)
  {
    forall i :: 0 <= i < |evs| ==> !evs[i].SetTo?
  }

  /** Without manual state changes: a pending transaction implies low power, and the sleep flag has been
      emitted exactly when the mode is low power. */
  ghost predicate PowerInv(p: Power)
  {
    && (p.pendingOutbound ==> p.mode == SynchronizedLowPower)
    && (p.sleepFlagEmitted <==> p.mode == SynchronizedLowPower)
  }

  lemma {:induction false} RunKeepsPowerInv(start: nat, evs: seq<Event>)
    requires NoManualState(evs)
    ensures PowerInv(Run(start, evs))
  {
    if evs == [] {
    } else {
      RunKeepsPowerInv(start, evs[..|evs| - 1]);
    }
  }

  lemma OpsKeepPowerInv(p: Power, now: nat)
    requires PowerInv(p)
    ensures PowerInv(Ticked(p, now).0) && PowerInv(IncomingRecorded(p, now).0) && PowerInv(OutboundRecorded(p, now).0)
  {
  }

  /** Does the event put the machine to sleep (possibly to wake again within the same call)? */
  ghost predicate Enters(p: Power, ev: Event)
  {
    match ev
    case Tick(now) => GoesToSleep(p, now)
    case Incoming(now) => false
    case Outbound(now) => GoesToSleep(p, now)
    case SetTo(_) => false
  }

  ghost function FlagsOf(p: Power, ev: Event): seq<TopologyFlag>
  {
    match ev
    case Tick(now) => Ticked(p, now).1.flags
    case Incoming(now) => IncomingRecorded(p, now).1.flags
    case Outbound(now) => OutboundRecorded(p, now).1.flags
    case SetTo(_) => []
  }

  ghost function Episodes(start: nat, evs: seq<Event>): nat
  {
    if evs == [] then 0
    else
      var pre := evs[..|evs| - 1];
      Episodes(start, pre) + if Enters(Run(start, pre), evs[|evs| - 1]) then 1 else 0
  }

  ghost function SleepFlags(start: nat, evs: seq<Event>): nat
  {
    if evs == [] then 0
    else
      var pre := evs[..|evs| - 1];
      SleepFlags(start, pre) + |FlagsOf(Run(start, pre), evs[|evs| - 1])|
  }

  lemma FlagIffEnters(p: Power, ev: Event)
    requires PowerInv(p) && !ev.SetTo?
    ensures FlagsOf(p, ev) == if Enters(p, ev) then [GoToSleep] else []
  {
  }

  lemma {:induction false} FlagsCountEpisodes(start: nat, evs: seq<Event>)
    requires NoManualState(evs)
    ensures SleepFlags(start, evs) == Episodes(start, evs)
  {
    if evs == [] {
    } else {
      var pre, last := evs[..|evs| - 1], evs[|evs| - 1];
      FlagsCountEpisodes(start, pre);
      RunKeepsPowerInv(start, pre);
      hide FlagsOf, Enters, Run, PowerInv;
      FlagIffEnters(Run(start, pre), last);
    }
  }

  /** Each low-power episode emits the sleep flag exactly once, in the very call that enters it: any event of
      any run emits it if and only if it goes to sleep, so the totals agree. */
  lemma OneFlagPerEpisode(start: nat, evs: seq<Event>, ev: Event)
    requires NoManualState(evs) && !ev.SetTo?
    ensures FlagsOf(Run(start, evs), ev) == if Enters(Run(start, evs), ev) then [GoToSleep] else []
    ensures SleepFlags(start, evs) == Episodes(start, evs)
  {
    RunKeepsPowerInv(start, evs);
    hide FlagsOf, Enters, Run, PowerInv;
    FlagIffEnters(Run(start, evs), ev);
    FlagsCountEpisodes(start, evs);
  }

  lemma AwakeStep(p: Power, t: nat, ev: Event)
    requires PowerInv(p) && p.mode == HighPower && p.lastActivity >= t
    requires !ev.SetTo? && t <= ev.now < t + IDLE_SLEEP_TIMEOUT
    ensures var q := Step(p, ev);
            PowerInv(q) && q.mode == HighPower && q.lastActivity >= t && FlagsOf(p, ev) == []
  {
  }

  ghost function RunFrom(p: Power, evs: seq<Event>): Power
  {
    if evs == [] then p else Step(RunFrom(p, evs[..|evs| - 1]), evs[|evs| - 1])
  }

  lemma {:induction false} StaysAwake(p: Power, t: nat, evs: seq<Event>)
    requires PowerInv(p) && p.mode == HighPower && p.lastActivity >= t
    requires forall i :: 0 <= i < |evs| ==> !evs[i].SetTo? && t <= evs[i].now < t + IDLE_SLEEP_TIMEOUT
    ensures var q := RunFrom(p, evs);
            PowerInv(q) && q.mode == HighPower && q.lastActivity >= t
  {
    hide Step, PowerInv;
    if evs == [] {
    } else {
      var pre, last := evs[..|evs| - 1], evs[|evs| - 1];
      StaysAwake(p, t, pre);
      AwakeStep(RunFrom(p, pre), t, last);
    }
  }

  /** Low power only after the idle timeout: for less than five minutes after an activity at time `t`, the
      machine stays in high-power mode and emits no sleep flag, whatever happens. */
  lemma AwakeWithinTimeout(p: Power, t: nat, evs: seq<Event>)
    requires PowerInv(p) && p.mode == HighPower && p.lastActivity >= t
    requires forall i :: 0 <= i < |evs| ==> !evs[i].SetTo? && t <= evs[i].now < t + IDLE_SLEEP_TIMEOUT
    ensures RunFrom(p, evs).mode == HighPower
    ensures forall i :: 0 <= i < |evs| ==> FlagsOf(RunFrom(p, evs[..i]), evs[i]) == []
  {
    hide RunFrom, Step, PowerInv, FlagsOf;
    StaysAwake(p, t, evs);
    forall i | 0 <= i < |evs| ensures FlagsOf(RunFrom(p, evs[..i]), evs[i]) == [] {
      StaysAwake(p, t, evs[..i]);
      AwakeStep(RunFrom(p, evs[..i]), t, evs[i]);
    }
  }

  /** Traffic that counts as activity: an incoming transaction, an outbound one that is not deferred, or the
      wake-up for a deferred one. */
  ghost predicate IsActivity(p: Power, ev: Event)
  {
    match ev
    case Tick(now) => Ticked(p, now).1.wakeNetwork
    case Incoming(now) => true
    case Outbound(now) => OutboundRecorded(p, now).1.interfaces == AWAKE
    case SetTo(_) => false
  }

  ghost function LastActivityTime(start: nat, evs: seq<Event>): nat
  {
    if evs == [] then start
    else
      var pre, ev := evs[..|evs| - 1], evs[|evs| - 1];
      if !ev.SetTo? && IsActivity(Run(start, pre), ev) then ev.now else LastActivityTime(start, pre)
  }

  /** In every run without manual state changes, a tick puts a high-power machine to sleep exactly when at
      least the idle timeout has passed since the latest activity of the run. */
  lemma {:induction false} SleepsExactlyWhenIdle(start: nat, evs: seq<Event>, now: nat)
    requires NoManualState(evs)
    ensures Run(start, evs).lastActivity == LastActivityTime(start, evs)
    ensures Run(start, evs).mode == HighPower ==>
              (Ticked(Run(start, evs), now).0.mode == SynchronizedLowPower
               <==> now >= LastActivityTime(start, evs) + IDLE_SLEEP_TIMEOUT)
  {
    RunKeepsPowerInv(start, evs);
    if evs == [] {
    } else {
      var pre, ev := evs[..|evs| - 1], evs[|evs| - 1];
      SleepsExactlyWhenIdle(start, pre, now);
      RunKeepsPowerInv(start, pre);
    }
  }

  /** The barrier is the first instant after the current wake interval, and an awake one. */
  lemma BarrierIsNextAwakeStart(now: nat)
    ensures now < NextAwakeBarrier(now) <= now + WAKE_INTERVAL
    ensures IsAwakeWindow(NextAwakeBarrier(now))
    ensures forall t :: now <= t < NextAwakeBarrier(now) && IsAwakeWindow(t) ==> IsAwakeWindow(now)
  {
    var k := now / WAKE_INTERVAL;
    forall t | now <= t < NextAwakeBarrier(now) && IsAwakeWindow(t) ensures IsAwakeWindow(now) {
      assert t / WAKE_INTERVAL == k;
      assert t % WAKE_INTERVAL == t - k * WAKE_INTERVAL && now % WAKE_INTERVAL == now - k * WAKE_INTERVAL;
    }
  }

  // ---- The decisions in numbers -------------------------------------------------------------------

  /** What a tick does, in milliseconds: after five idle minutes a high-power machine goes to low power; a pending
      message wakes a low-power one in the first 500 ms of every 5 s, as by an activity now; both interfaces are on
      exactly in high power or in such a window, and never only one. */
  lemma TickInNumbers(p: Power, now: nat)
    ensures var (p', d) := Ticked(p, now);
            var sleeps := p.mode == HighPower && now >= p.lastActivity + 300_000;
            var wakes := (sleeps || p.mode == SynchronizedLowPower) && p.pendingOutbound && now % 5_000 < 500;
            && p'.nowMs == now
            && d.wakeNetwork == wakes
            && (wakes ==> p' == Power(Active, HighPower, now, false, false, now))
            && (sleeps && !wakes ==> p'.mode == SynchronizedLowPower && p'.state == LowPower)
            && (!sleeps && !wakes ==> p'.mode == p.mode && p'.state == p.state)
            && (!wakes ==> p'.lastActivity == p.lastActivity && p'.pendingOutbound == p.pendingOutbound)
            && (d.interfaces.ble <==> p'.mode == HighPower || now % 5_000 < 500)
            && (d.interfaces.wifi <==> d.interfaces.ble)
  {
  }

  /** Activity in numbers: an incoming transaction, and an outbound message unless the machine is in low power outside
      the window, leave it active with the idle clock restarted; otherwise the message is only marked pending. */
  lemma ActivityInNumbers(p: Power, now: nat)
    ensures IncomingRecorded(p, now).0 == Power(Active, HighPower, now, false, false, now)
    ensures var q, p' := Ticked(p, now).0, OutboundRecorded(p, now).0;
            if q.mode == SynchronizedLowPower && now % 5_000 >= 500
            then p' == q.(pendingOutbound := true) && OutboundRecorded(p, now).1.interfaces == Interfaces(false, false)
            else p' == Power(Active, HighPower, now, q.pendingOutbound, false, now)
                 && OutboundRecorded(p, now).1.interfaces == Interfaces(true, true)
  {
  }

  /** Setting the state by hand: active is high power and broadcasts nothing; the other two are low power, and each
      broadcasts its own flag; the clocks and marks stay. */
  lemma StateSetMeans(p: Power, s: PowerState)
    ensures var (p', flags) := StateSet(p, s);
            && p'.state == s && (p'.mode == HighPower <==> s.Active?)
            && p'.lastActivity == p.lastActivity && p'.pendingOutbound == p.pendingOutbound
            && p'.sleepFlagEmitted == p.sleepFlagEmitted && p'.nowMs == p.nowMs
            && (s.Active? <==> flags.None?)
            && (s.LowPower? ==> flags == Some([LowPowerMode])) && (s.DeepSleep? ==> flags == Some([DeepSleepPending]))
  {
  }
}
