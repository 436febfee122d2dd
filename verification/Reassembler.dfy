/** Out-of-order reassembly (`MessageReassembler`, src/transport/unified.rs). */
module Reassembler {
  import opened Core
  import opened ChunkCodec
  import opened Chunker

  datatype PartialBuffer = PartialBuffer(total: nat, data: Bytes, received: seq<bool>, receivedBytes: int,
                                         lastUpdated: nat)

  type Buffers = map<U32, PartialBuffer>

  function CountTrue(s: seq<bool>): nat
  {
    if s == [] then 0 else (if s[0] then 1 else 0) + CountTrue(s[1..])
  }

  function Overwrite<T>(s: seq<T>, start: nat, p: seq<T>): (r: seq<T>)
    requires start + |p| <= |s|
    ensures |r| == |s|
    ensures forall i :: 0 <= i < |s| ==> r[i] == if start <= i < start + |p| then p[i - start] else s[i]
  {
    s[..start] + p + s[start + |p|..]
  }

  /** The checks a frame must pass before any buffer is looked at. */
  predicate WellFormed(f: ChunkFrame)
  {
    && 0 < f.totalLength <= MAX_MESSAGE_SIZE
    && f.payloadSize == |f.payload|
    && f.offset < f.totalLength && f.offset + |f.payload| <= f.totalLength
  }

  predicate Shaped(b: PartialBuffer)
  {
    |b.data| == |b.received| == b.total
  }

  function FreshBuffer(total: nat, now: nat): PartialBuffer
  {
    PartialBuffer(total, seq(total, _ => 0), seq(total, _ => false), 0, now)
  }

  function WriteChunk(b: PartialBuffer, f: ChunkFrame, now: nat): PartialBuffer
    requires Shaped(b) && WellFormed(f) && b.total == f.totalLength
  {
    var received := Overwrite(b.received, f.offset, seq(|f.payload|, _ => true));
    PartialBuffer(b.total, Overwrite(b.data, f.offset, f.payload), received,
                  b.receivedBytes + CountTrue(received) - CountTrue(b.received), now)
  }

  ghost predicate AllShaped(buffers: Buffers)
  {
    forall id :: id in buffers ==> Shaped(buffers[id])
  }

  /** The frame is written into a buffer: it passes the checks and agrees with the buffer's length. */
  predicate Accepted(buffers: Buffers, f: ChunkFrame)
  {
    WellFormed(f) && (f.messageId in buffers ==> buffers[f.messageId].total == f.totalLength)
  }

  function BufferFor(buffers: Buffers, f: ChunkFrame, now: nat): PartialBuffer
  {
    if f.messageId in buffers then buffers[f.messageId] else FreshBuffer(f.totalLength, now)
  }

  /** `receive_chunk` on values: the new buffers and the completed message, if any. */
  function Receive(buffers: Buffers, f: ChunkFrame, now: nat): (Buffers, Option<Bytes>)
    requires AllShaped(buffers)
  {
    if !Accepted(buffers, f) then (buffers, None)
    else
      var b := WriteChunk(BufferFor(buffers, f, now), f, now);
      if b.receivedBytes == b.total then (buffers - {f.messageId}, Some(b.data))
      else (buffers[f.messageId := b], None)
  }

  /** `cleanup_stale_buffers`: buffers untouched for more than `timeout` are dropped. */
  function Cleanup(buffers: Buffers, timeout: nat, now: nat): Buffers
  {
    map id | id in buffers && now - buffers[id].lastUpdated <= timeout :: buffers[id]
  }

  lemma {:induction false} CountAfterSet(s: seq<bool>, i: nat)
    requires i < |s|
    ensures CountTrue(s[i := true]) == CountTrue(s) + if s[i] then 0 else 1
  {
    if i > 0 {
      CountAfterSet(s[1..], i - 1);
      assert s[i := true][1..] == s[1..][i - 1 := true];
    } else {
      assert s[i := true][1..] == s[1..];
    }
  }

  /** The byte loop of `receive_chunk`: mark each position, count it the first time, store its byte. */
  method CopyPayload(b: PartialBuffer, f: ChunkFrame, now: nat) returns (b': PartialBuffer)
    requires Shaped(b) && WellFormed(f) && b.total == f.totalLength
    ensures b' == WriteChunk(b, f, now)
  {
    var data, received, receivedBytes := b.data, b.received, b.receivedBytes;
    for k := 0 to |f.payload|
      invariant |data| == |received| == b.total
      invariant forall i :: 0 <= i < b.total ==>
                  data[i] == if f.offset <= i < f.offset + k then f.payload[i - f.offset] else b.data[i]
      invariant forall i :: 0 <= i < b.total ==> received[i] == (f.offset <= i < f.offset + k || b.received[i])
      invariant receivedBytes == b.receivedBytes + CountTrue(received) - CountTrue(b.received)
    {
      if !received[f.offset + k] {
        CountAfterSet(received, f.offset + k);
        received := received[f.offset + k := true];
        receivedBytes := receivedBytes + 1;
      }
      data := data[f.offset + k := f.payload[k]];
    }
    b' := PartialBuffer(b.total, data, received, receivedBytes, now);
    assert data == Overwrite(b.data, f.offset, f.payload);
    assert received == Overwrite(b.received, f.offset, seq(|f.payload|, _ => true));
  }

  class MessageReassembler {
    var buffers: Buffers

    ghost predicate Valid()
      reads this
    {
      AllShaped(buffers)
    }

    constructor ()
      ensures Valid() && buffers == map[]
    {
      buffers := map[];
    }

    method ReceiveChunk(f: ChunkFrame, now: nat) returns (r: Option<Bytes>)
      requires Valid()
      modifies this
      ensures Valid()
      ensures (buffers, r) == Receive(old(buffers), f, now)
    {
      if f.totalLength == 0 || f.totalLength > MAX_MESSAGE_SIZE { return None; }
      if f.payloadSize != |f.payload| { return None; }
      var start := f.offset;
      var end := start + |f.payload|;
      if start >= f.totalLength || end > f.totalLength { return None; }
      var buffer := BufferFor(buffers, f, now);
      if buffer.total != f.totalLength { return None; }
      buffer := CopyPayload(buffer, f, now);
      if buffer.receivedBytes == buffer.total {
        buffers := buffers - {f.messageId};
        return Some(buffer.data);
      }
      buffers := buffers[f.messageId := buffer];
      return None;
    }

    method CleanupStaleBuffers(timeout: nat, now: nat)
      requires Valid()
      modifies this
      ensures Valid()
      ensures buffers == Cleanup(old(buffers), timeout, now)
    {
      var keys := buffers.Keys;
      var all := keys;
      while keys != {}
        invariant keys <= all == old(buffers).Keys
        invariant buffers == map id | id in old(buffers)
                                      && (id in keys || now - old(buffers)[id].lastUpdated <= timeout)
                                    :: old(buffers)[id]
        decreases keys
      {
        var id :| id in keys;
        keys := keys - {id};
        if now - buffers[id].lastUpdated > timeout {
          buffers := buffers - {id};
        }
      }
    }
  }

  // ---- Which frames are refused, and what a frame leaves alone ------------------------------------

  /** A frame is refused, with nothing changed and nothing returned, unless its length is between 1 byte and 1 MiB, its
      size field is its payload length, it starts and ends within the message, and it agrees with the buffer; and a
      frame never touches the buffers of other messages. */
  lemma FrameEffects(buffers: Buffers, f: ChunkFrame, now: nat)
    requires AllShaped(buffers)
    ensures var (buffers', out) := Receive(buffers, f, now);
            var fits := && 0 < f.totalLength <= 1_048_576 && f.payloadSize == |f.payload|
                        && f.offset < f.totalLength && f.offset + |f.payload| <= f.totalLength
                        && (f.messageId in buffers ==> buffers[f.messageId].total == f.totalLength);
            && (!fits ==> buffers' == buffers && out == None)
            && (fits && out.None? ==> f.messageId in buffers' && buffers'[f.messageId].lastUpdated == now)
            && (fits && out.Some? ==> f.messageId !in buffers')
            && (forall id :: id != f.messageId ==>
                  (id in buffers' <==> id in buffers) && (id in buffers ==> buffers'[id] == buffers[id]))
  {
    hide CountTrue, Overwrite;
  }

  /** A sweep keeps exactly the buffers touched within the timeout, as they are. */
  lemma SweepKeeps(buffers: Buffers, timeout: nat, now: nat)
    ensures var buffers' := Cleanup(buffers, timeout, now);
            && (forall id :: id in buffers' <==> id in buffers && buffers[id].lastUpdated + timeout >= now)
            && (forall id :: id in buffers' ==> buffers'[id] == buffers[id])
  {
  }
}
