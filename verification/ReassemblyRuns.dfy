/** Reassembly over whole runs: what arbitrary frames can do, and exact delivery of genuine ones. */
module ReassemblyRuns {
  import opened Core
  import opened ChunkCodec
  import opened Chunker
  import opened Reassembler

  datatype Event = Frame(f: ChunkFrame, now: nat) | Sweep(timeout: nat, now: nat)

  /** The buffers together with the history of each: the frames accepted since the buffer was created. */
  datatype Logged = Logged(buffers: Buffers, log: map<U32, seq<ChunkFrame>>)

  /** The byte most recently supplied for position `i`, if any. */
  ghost function LastByte(l: seq<ChunkFrame>, i: int): Option<Byte>
  {
    if l == [] then None
    else
      var f := l[|l| - 1];
      if Covers(f, i) then Some(f.payload[i - f.offset]) else LastByte(l[..|l| - 1], i)
  }

  /** Every position below `n` has been supplied. */
  ghost predicate Complete(l: seq<ChunkFrame>, n: nat)
  {
    forall i :: 0 <= i < n ==> LastByte(l, i).Some?
  }

  /** The buffer holds exactly what its history says. */
  ghost predicate Agrees(b: PartialBuffer, l: seq<ChunkFrame>)
  {
    && Shaped(b)
    && b.receivedBytes == CountTrue(b.received)
    && (forall i :: 0 <= i < b.total ==> b.received[i] == LastByte(l, i).Some?)
    && (forall i :: 0 <= i < b.total && b.received[i] ==> b.data[i] == LastByte(l, i).value)
  }

  ghost predicate BufferInv(id: U32, b: PartialBuffer, l: seq<ChunkFrame>)
  {
    && Agrees(b, l)
    && b.receivedBytes < b.total <= MAX_MESSAGE_SIZE
    && forall f :: f in l ==> WellFormed(f) && f.messageId == id && f.totalLength == b.total
  }

  ghost predicate Inv(s: Logged)
  {
    && s.buffers.Keys == s.log.Keys
    && forall id :: id in s.buffers ==> BufferInv(id, s.buffers[id], s.log[id])
  }

  ghost function LogFor(s: Logged, id: U32): seq<ChunkFrame>
  {
    if id in s.log then s.log[id] else []
  }

  ghost function Output(s: Logged, ev: Event): Option<Bytes>
    requires AllShaped(s.buffers)
  {
    if ev.Frame? then Receive(s.buffers, ev.f, ev.now).1 else None
  }

  ghost function Step(s: Logged, ev: Event): Logged
    requires AllShaped(s.buffers)
  {
    match ev
    case Frame(f, now) =>
      var (buffers, out) := Receive(s.buffers, f, now);
      Logged(buffers,
             if !Accepted(s.buffers, f) then s.log
             else if out.Some? then s.log - {f.messageId}
             else s.log[f.messageId := LogFor(s, f.messageId) + [f]])
    case Sweep(timeout, now) =>
      var buffers := Cleanup(s.buffers, timeout, now);
      Logged(buffers, map id | id in s.log && id in buffers :: s.log[id])
  }

  // ---- One step -----------------------------------------------------------------------------------

  lemma {:induction false} CountFull(s: seq<bool>)
    ensures CountTrue(s) <= |s|
    ensures CountTrue(s) == |s| <==> forall i :: 0 <= i < |s| ==> s[i]
  {
    if s == [] {
    } else {
      CountFull(s[1..]);
      if forall i :: 0 <= i < |s| ==> s[i] {
        forall i | 0 <= i < |s[1..]| ensures s[1..][i] { assert s[i + 1]; }
      }
      if CountTrue(s) == |s| {
        forall i | 0 <= i < |s| ensures s[i] { if i > 0 { assert s[1..][i - 1]; } }
      }
    }
  }

  lemma {:induction false} CountNone(s: seq<bool>)
    requires forall i :: 0 <= i < |s| ==> !s[i]
    ensures CountTrue(s) == 0
  {
    if s == [] {
    } else {
      CountNone(s[1..]);
    }
  }

  lemma FreshAgrees(total: nat, now: nat)
    ensures Agrees(FreshBuffer(total, now), [])
  {
    CountNone(FreshBuffer(total, now).received);
  }

  lemma WriteAgrees(b: PartialBuffer, l: seq<ChunkFrame>, f: ChunkFrame, now: nat)
    requires Agrees(b, l) && WellFormed(f) && b.total == f.totalLength
    ensures Agrees(WriteChunk(b, f, now), l + [f])
  {
    assert (l + [f])[..|l|] == l;
  }

  /** What one frame does to a buffer that agrees with its history. */
  lemma ReceiveAgrees(s: Logged, f: ChunkFrame, now: nat)
    requires Inv(s) && Accepted(s.buffers, f)
    ensures var l := LogFor(s, f.messageId) + [f];
            var (buffers, out) := Receive(s.buffers, f, now);
            && (out.Some? <==> Complete(l, f.totalLength))
            && (out.Some? ==> |out.value| == f.totalLength
                              && forall i :: 0 <= i < f.totalLength ==> LastByte(l, i) == Some(out.value[i]))
            && (out.None? ==> f.messageId in buffers && BufferInv(f.messageId, buffers[f.messageId], l)
                              && buffers[f.messageId].lastUpdated == now)
  {
    var b := BufferFor(s.buffers, f, now);
    if f.messageId !in s.buffers { FreshAgrees(f.totalLength, now); }
    WriteAgrees(b, LogFor(s, f.messageId), f, now);
    CountFull(WriteChunk(b, f, now).received);
  }

  /** Every step, whatever the frame, keeps buffers and histories in agreement. */
  lemma StepKeepsInv(s: Logged, ev: Event)
    requires Inv(s)
    ensures Inv(Step(s, ev))
  {
    if ev.Frame? && Accepted(s.buffers, ev.f) {
      ReceiveAgrees(s, ev.f, ev.now);
      hide LastByte, CountTrue, WriteChunk;
    }
  }

  // ---- Arbitrary runs -----------------------------------------------------------------------------

  ghost function Run(evs: seq<Event>): (s: Logged)
    ensures Inv(s)
  {
    if evs == [] then Logged(map[], map[])
    else
      var s := Run(evs[..|evs| - 1]);
      StepKeepsInv(s, evs[|evs| - 1]);
      Step(s, evs[|evs| - 1])
  }

  /** After any run of arbitrary frames and sweeps: the byte count is the number of marked positions, each
      marked position holds the last accepted byte, and no buffer is complete or over the size limit. */
  lemma BuffersFaithful(evs: seq<Event>, id: U32)
    requires id in Run(evs).buffers
    ensures var b := Run(evs).buffers[id];
            && b.receivedBytes == CountTrue(b.received) < b.total <= MAX_MESSAGE_SIZE
            && |b.data| == |b.received| == b.total
            && id in Run(evs).log
            && forall i :: 0 <= i < b.total ==>
                 (if b.received[i] then LastByte(Run(evs).log[id], i) == Some(b.data[i])
                  else LastByte(Run(evs).log[id], i).None?)
  {
  }

  lemma LogStep(s: Logged, ev: Event, id: U32)
    requires Inv(s)
    ensures var l := LogFor(Step(s, ev), id);
            || l == LogFor(s, id)
            || l == []
            || (ev.Frame? && WellFormed(ev.f) && ev.f.messageId == id && l == LogFor(s, id) + [ev.f])
  {
  }

  ghost predicate ArrivedIn(evs: seq<Event>, f: ChunkFrame)
  {
    exists k :: 0 <= k < |evs| && evs[k].Frame? && evs[k].f == f
  }

  lemma ArrivedInMore(evs: seq<Event>, f: ChunkFrame)
    requires evs != []
    ensures ArrivedIn(evs[..|evs| - 1], f) ==> ArrivedIn(evs, f)
    ensures evs[|evs| - 1].Frame? && evs[|evs| - 1].f == f ==> ArrivedIn(evs, f)
  {
    var pre := evs[..|evs| - 1];
    if ArrivedIn(pre, f) {
      var k :| 0 <= k < |pre| && pre[k].Frame? && pre[k].f == f;
      assert evs[k] == pre[k];
    }
  }

  /** The history is no invention: it lists frames that arrived in the run, for this id, all well formed. */
  lemma {:induction false} LogComesFromRun(evs: seq<Event>, id: U32, f: ChunkFrame)
    requires f in LogFor(Run(evs), id)
    ensures f.messageId == id && WellFormed(f) && ArrivedIn(evs, f)
  {
    if evs == [] {
    } else {
      var pre, ev := evs[..|evs| - 1], evs[|evs| - 1];
      LastLogStep(evs, id);
      ArrivedInMore(evs, f);
      hide Run, LogFor, WellFormed, ArrivedIn;
      if f in LogFor(Run(pre), id) {
        LogComesFromRun(pre, id, f);
      } else {
        NewInLog(LogFor(Run(pre), id), LogFor(Run(evs), id), ev, f);
      }
    }
  }

  lemma NewInLog(l: seq<ChunkFrame>, l': seq<ChunkFrame>, ev: Event, f: ChunkFrame)
    requires l' == l || l' == [] || (ev.Frame? && l' == l + [ev.f])
    requires f in l' && f !in l
    ensures ev.Frame? && ev.f == f
  {
  }

  lemma LastLogStep(evs: seq<Event>, id: U32)
    requires evs != []
    ensures var l, l', ev := LogFor(Run(evs[..|evs| - 1]), id), LogFor(Run(evs), id), evs[|evs| - 1];
            l' == l || l' == [] || (ev.Frame? && WellFormed(ev.f) && ev.f.messageId == id && l' == l + [ev.f])
  {
    var s, ev := Run(evs[..|evs| - 1]), evs[|evs| - 1];
    assert Run(evs) == Step(s, ev);
    hide Run, Step, LogFor, WellFormed;
    LogStep(s, ev, id);
  }

  /** No message is ever returned with a byte that was not supplied: each of its bytes is the last one an
      accepted frame of this id carried for that position. */
  lemma ReturnedBytesWereSupplied(evs: seq<Event>, ev: Event)
    requires Output(Run(evs), ev).Some?
    ensures var m := Output(Run(evs), ev).value;
            && ev.Frame? && |m| == ev.f.totalLength
            && forall i :: 0 <= i < |m| ==> LastByte(LogFor(Run(evs), ev.f.messageId) + [ev.f], i) == Some(m[i])
  {
    ReceiveAgrees(Run(evs), ev.f, ev.now);
  }

  // ---- Exact delivery -----------------------------------------------------------------------------

  /** The frames with this id, in arrival order. */
  ghost function Own(evs: seq<Event>, id: U32): seq<ChunkFrame>
  {
    if evs == [] then []
    else
      var ev := evs[|evs| - 1];
      Own(evs[..|evs| - 1], id) + if ev.Frame? && ev.f.messageId == id then [ev.f] else []
  }

  ghost function LastOwnTime(evs: seq<Event>, id: U32): nat
  {
    if evs == [] then 0
    else
      var ev := evs[|evs| - 1];
      if ev.Frame? && ev.f.messageId == id then ev.now else LastOwnTime(evs[..|evs| - 1], id)
  }

  /** All frames with this id are pieces of `m` (any order, any repetition, any cut); frames with other ids are
      arbitrary; once a frame of `m` has come, no sweep comes more than its timeout after the latest one. */
  ghost predicate Genuine(evs: seq<Event>, id: U32, m: Bytes)
  {
    evs == [] ||
    (var pre, ev := evs[..|evs| - 1], evs[|evs| - 1];
     && Genuine(pre, id, m)
     && (ev.Frame? && ev.f.messageId == id ==> IsFragment(ev.f, id, m))
     && (ev.Sweep? && Own(pre, id) != [] ==> ev.now - LastOwnTime(pre, id) <= ev.timeout))
  }

  lemma {:induction false} SuppliedByFragments(l: seq<ChunkFrame>, id: U32, m: Bytes, i: nat)
    requires i < |m| && forall f :: f in l ==> IsFragment(f, id, m)
    ensures LastByte(l, i).Some? ==> LastByte(l, i).value == m[i]
    ensures LastByte(l, i).Some? <==> exists f :: f in l && Covers(f, i)
  {
    if l == [] {
    } else {
      var pre := l[..|l| - 1];
      SuppliedByFragments(pre, id, m, i);
      assert l == pre + [l[|l| - 1]] && IsFragment(l[|l| - 1], id, m);
    }
  }

  lemma {:induction false} OwnAreFragments(evs: seq<Event>, id: U32, m: Bytes)
    requires Genuine(evs, id, m)
    ensures forall f :: f in Own(evs, id) ==> IsFragment(f, id, m)
  {
    if evs == [] {
    } else {
      OwnAreFragments(evs[..|evs| - 1], id, m);
    }
  }

  lemma EarlierIncomplete(l: seq<ChunkFrame>, f: ChunkFrame, n: nat)
    requires !Complete(l + [f], n)
    ensures !Complete(l, n)
  {
    var i :| 0 <= i < n && LastByte(l + [f], i).None?;
    assert (l + [f])[..|l|] == l;
    assert LastByte(l, i).None?;
  }

  /** The buffer of `id`, if there is one, is for `m`, was last touched at `t` and has history `l`. */
  ghost predicate Holding(s: Logged, id: U32, m: Bytes, l: seq<ChunkFrame>, t: nat)
  {
    && Inv(s) && LogFor(s, id) == l
    && (id in s.buffers ==> l != [] && s.buffers[id].total == |m| && s.buffers[id].lastUpdated == t)
  }

  lemma OwnFrameKeepsHolding(s: Logged, id: U32, m: Bytes, l: seq<ChunkFrame>, t: nat, f: ChunkFrame, now: nat)
    requires Holding(s, id, m, l, t) && 0 < |m| <= MAX_MESSAGE_SIZE && IsFragment(f, id, m)
    requires !Complete(l + [f], |m|)
    ensures Holding(Step(s, Frame(f, now)), id, m, l + [f], now)
  {
    StepKeepsInv(s, Frame(f, now));
    ReceiveAgrees(s, f, now);
  }

  lemma OtherEventKeepsHolding(s: Logged, id: U32, m: Bytes, l: seq<ChunkFrame>, t: nat, ev: Event)
    requires Holding(s, id, m, l, t)
    requires ev.Frame? ==> ev.f.messageId != id
    requires ev.Sweep? && l != [] ==> ev.now - t <= ev.timeout
    ensures Holding(Step(s, ev), id, m, l, t)
  {
    StepKeepsInv(s, ev);
  }

  lemma RunOfLast(evs: seq<Event>, ev: Event)
    ensures Run(evs + [ev]) == Step(Run(evs), ev)
  {
    hide Step, Inv;
    assert (evs + [ev])[..|evs|] == evs;
  }

  /** From any reachable state without a buffer for `id`: while some byte of `m` is missing, the buffer's history
      is exactly the frames of `m` seen since. */
  lemma {:induction false} InFlight(before: seq<Event>, evs: seq<Event>, id: U32, m: Bytes)
    requires id !in Run(before).buffers
    requires 0 < |m| <= MAX_MESSAGE_SIZE && Genuine(evs, id, m)
    requires !Complete(Own(evs, id), |m|)
    ensures Holding(Run(before + evs), id, m, Own(evs, id), LastOwnTime(evs, id))
  {
    if evs == [] {
      assert before + evs == before;
    } else {
      var pre, ev := evs[..|evs| - 1], evs[|evs| - 1];
      var s := Run(before + pre);
      assert before + evs == (before + pre) + [ev];
      RunOfLast(before + pre, ev);
      hide Run, Step, Complete, Holding;
      if ev.Frame? && ev.f.messageId == id {
        EarlierIncomplete(Own(pre, id), ev.f, |m|);
        InFlight(before, pre, id, m);
        OwnFrameKeepsHolding(s, id, m, Own(pre, id), LastOwnTime(pre, id), ev.f, ev.now);
      } else {
        assert Own(evs, id) == Own(pre, id);
        InFlight(before, pre, id, m);
        OtherEventKeepsHolding(s, id, m, Own(pre, id), LastOwnTime(pre, id), ev);
      }
    }
  }

  /** Exact delivery, from any reachable state without a buffer for `id` (a fresh id, or one whose earlier message
      was completed or swept): as long as `m` was incomplete, a further piece of `m` returns exactly `m` if it
      brings the last missing byte, and nothing otherwise. */
  lemma DeliveredExactlyOnCompletion(before: seq<Event>, evs: seq<Event>, id: U32, m: Bytes, f: ChunkFrame, now: nat)
    requires id !in Run(before).buffers
    requires 0 < |m| <= MAX_MESSAGE_SIZE && Genuine(evs, id, m) && IsFragment(f, id, m)
    requires !Complete(Own(evs, id), |m|)
    ensures Output(Run(before + evs), Frame(f, now)) == if Complete(Own(evs, id) + [f], |m|) then Some(m) else None
  {
    InFlight(before, evs, id, m);
    OwnAreFragments(evs, id, m);
    hide Run, Own, Genuine, LastOwnTime;
    FragmentCompletes(Run(before + evs), id, m, Own(evs, id), LastOwnTime(evs, id), f, now);
  }

  lemma FragmentCompletes(s: Logged, id: U32, m: Bytes, l: seq<ChunkFrame>, t: nat, f: ChunkFrame, now: nat)
    requires Holding(s, id, m, l, t) && 0 < |m| <= MAX_MESSAGE_SIZE && IsFragment(f, id, m)
    requires forall g :: g in l ==> IsFragment(g, id, m)
    ensures Output(s, Frame(f, now)) == if Complete(l + [f], |m|) then Some(m) else None
  {
    ReceiveAgrees(s, f, now);
    hide Receive, LastByte, Complete, Inv;
    var out := Output(s, Frame(f, now));
    if out.Some? { SpelledOut(out.value, l + [f], id, m); }
  }

  lemma SpelledOut(data: Bytes, l: seq<ChunkFrame>, id: U32, m: Bytes)
    requires forall g :: g in l ==> IsFragment(g, id, m)
    requires |data| == |m| && forall i :: 0 <= i < |m| ==> LastByte(l, i) == Some(data[i])
    ensures data == m
  {
    forall i | 0 <= i < |m| ensures data[i] == m[i] { SuppliedByFragments(l, id, m, i); }
  }

  lemma CompleteHasAllFrames(fs: seq<ChunkFrame>, id: U32, m: Bytes, l: seq<ChunkFrame>, f: ChunkFrame)
    requires forall g :: g in fs ==> IsFragment(g, id, m) && g.payload != []
    requires forall j, k :: 0 <= j < k < |fs| ==> fs[j].offset + |fs[j].payload| <= fs[k].offset
    requires forall g :: g in l ==> g in fs
    requires Complete(l, |m|) && f in fs
    ensures f in l
  {
    SuppliedByFragments(l, id, m, f.offset);
    hide LastByte;
    var g :| g in l && Covers(g, f.offset);
    var j :| 0 <= j < |fs| && fs[j] == f;
    var k :| 0 <= k < |fs| && fs[k] == g;
    assert j == k;
  }

  lemma CompleteIffAllFramesSeen(mtu: nat, id: U32, m: Bytes, l: seq<ChunkFrame>)
    requires Sendable(mtu, m)
    requires forall f :: f in l ==> f in ChunkMessage(mtu, id, m)
    ensures Complete(l, |m|) <==> forall f :: f in ChunkMessage(mtu, id, m) ==> f in l
  {
    var fs := ChunkMessage(mtu, id, m);
    assert fs == FramesFrom(m, id, PayloadCapacity(mtu), 0);
    ChunkTiles(mtu, id, m);
    hide ChunkMessage, LastByte, FramesFrom, IsFragment, Concatenated;
    assert forall g :: g in fs ==> IsFragment(g, id, m) && 1 <= |g.payload|;
    if Complete(l, |m|) {
      forall f | f in fs ensures f in l { CompleteHasAllFrames(fs, id, m, l, f); }
    }
    if forall f :: f in fs ==> f in l {
      forall i | 0 <= i < |m| ensures LastByte(l, i).Some? {
        var f := FramesCover(m, id, PayloadCapacity(mtu), 0, i);
        SuppliedByFragments(l, id, m, i);
      }
    }
  }

  /** The round trip of one message through chunker and reassembler: its frames in any order, repeated before
      completion at will and interleaved with anything under other ids, yield the message exactly when the
      last frame not yet seen arrives, and nothing before; the id is then free again. */
  lemma ChunkedMessageDelivered(mtu: nat, id: U32, m: Bytes, before: seq<Event>, evs: seq<Event>, f: ChunkFrame,
                                now: nat)
    requires id !in Run(before).buffers
    requires Sendable(mtu, m) && Genuine(evs, id, m)
    requires forall g :: g in Own(evs, id) + [f] ==> g in ChunkMessage(mtu, id, m)
    requires exists g :: g in ChunkMessage(mtu, id, m) && g !in Own(evs, id)
    ensures var allSeen := forall g :: g in ChunkMessage(mtu, id, m) ==> g in Own(evs, id) + [f];
            && Output(Run(before + evs), Frame(f, now)) == (if allSeen then Some(m) else None)
            && (allSeen ==> id !in Step(Run(before + evs), Frame(f, now)).buffers)
  {
    ChunkTiles(mtu, id, m);
    assert f in Own(evs, id) + [f];
    CompleteIffAllFramesSeen(mtu, id, m, Own(evs, id));
    CompleteIffAllFramesSeen(mtu, id, m, Own(evs, id) + [f]);
    DeliveredExactlyOnCompletion(before, evs, id, m, f, now);
  }
}
