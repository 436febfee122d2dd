/** Length-prefixed framing over a byte stream (src/transport/wifi_transport.rs): `send` and `recv`. */
module WifiStream {
  import opened Core
  import opened ChunkCodec
  import opened Chunker
  import opened Reassembler

  const WIFI_TCP_MTU := 1448
  const MAX_FRAME_SIZE := 4 * 1024 * 1024

  datatype TransportError = NotConnected | BrokenPipe | PayloadTooLarge

  datatype Result<T> = Ok(value: T) | Err(error: TransportError)

  /** `write_frame`: a 4-byte little-endian length (the low 32 bits), then the data. */
  function FrameBytes(data: Bytes): Bytes
  {
    LeBytes(|data|, 4) + data
  }

  function WireOf(frames: seq<ChunkFrame>): Bytes
  {
    if frames == [] then [] else FrameBytes(EncodeChunk(frames[0])) + WireOf(frames[1..])
  }

  /** All bytes `send` writes for one serialised message under the drawn id. */
  function SentBytes(id: U32, m: Bytes): Bytes
  {
    WireOf(ChunkMessage(WIFI_TCP_MTU, id, m))
  }

  /** `read_frame` on a stream that ends after `stream`: the frame or the error, and what is left. */
  function ReadFrame(stream: Bytes): (r: (Result<Bytes>, Bytes))
    ensures |r.1| <= |stream| && (r.0.Ok? ==> |r.1| < |stream|)
  {
    if |stream| < 4 then (Err(BrokenPipe), [])
    else
      var n := ReadU32(stream[..4]);
      if n == 0 || n > MAX_FRAME_SIZE then (Err(PayloadTooLarge), stream[4..])
      else if |stream| - 4 < n then (Err(BrokenPipe), [])
      else (Ok(stream[4..4 + n]), stream[4 + n..])
  }

  /** How one `recv` ends; `next` is the first clock reading not used by it. */
  datatype Received = Received(result: Result<Bytes>, rest: Bytes, buffers: Buffers, next: nat)

  /** `recv` on values: read and reassemble frames until a message is complete or an error occurs. Each chunk is
      received at its own clock reading, the first at `clock(k)`. */
  function ReceiveMessage(stream: Bytes, buffers: Buffers, clock: nat -> nat, k: nat): Received
    requires AllShaped(buffers)
    decreases |stream|
  {
    var (frame, rest) := ReadFrame(stream);
    if frame.Err? then Received(Err(frame.error), rest, buffers, k)
    else
      var chunk := ParseChunk(frame.value);
      if chunk.None? then Received(Err(BrokenPipe), rest, buffers, k)
      else
        var (buffers', out) := Receive(buffers, chunk.value, clock(k));
        if out.Some? then Received(Ok(out.value), rest, buffers', k + 1)
        else ReceiveMessage(rest, buffers', clock, k + 1)
  }

  lemma Associative(a: Bytes, b: Bytes, c: Bytes)
    ensures (a + b) + c == a + (b + c)
  {
  }

  lemma WireOfCons(f: ChunkFrame, frames: seq<ChunkFrame>)
    ensures WireOf([f] + frames) == FrameBytes(EncodeChunk(f)) + WireOf(frames)
  {
    assert ([f] + frames)[1..] == frames;
  }

  lemma WireSplitCons(f: ChunkFrame, a: seq<ChunkFrame>, b: seq<ChunkFrame>)
    requires WireOf(a + b) == WireOf(a) + WireOf(b)
    ensures WireOf([f] + (a + b)) == WireOf([f] + a) + WireOf(b)
  {
    WireOfCons(f, a);
    WireOfCons(f, a + b);
    hide *;
    Associative(FrameBytes(EncodeChunk(f)), WireOf(a), WireOf(b));
  }

  lemma WireSplitStep(a: seq<ChunkFrame>, b: seq<ChunkFrame>, f: ChunkFrame, rest: seq<ChunkFrame>)
    requires a == [f] + rest && WireOf(rest + b) == WireOf(rest) + WireOf(b)
    ensures WireOf(a + b) == WireOf(a) + WireOf(b)
  {
    hide *;
    WireSplitCons(f, rest, b);
    assert a + b == [f] + (rest + b);
  }

  lemma WireOfNone(b: seq<ChunkFrame>)
    ensures WireOf([] + b) == WireOf([]) + WireOf(b)
  {
    assert [] + b == b && WireOf([]) == [];
    hide *;
    assert [] + WireOf(b) == WireOf(b);
  }

  lemma {:induction false} WireSplit(a: seq<ChunkFrame>, b: seq<ChunkFrame>)
    ensures WireOf(a + b) == WireOf(a) + WireOf(b)
    decreases |a|
  {
    hide *;
    if a == [] {
      WireOfNone(b);
    } else {
      assert a == [a[0]] + a[1..];
      WireSplit(a[1..], b);
      WireSplitStep(a, b, a[0], a[1..]);
    }
  }

  /** What gets through of `data` on a connection that breaks after `limit` more bytes. */
  function Through(data: Bytes, limit: nat): Bytes
  {
    if |data| <= limit then data else data[..limit]
  }

  lemma ThroughAppend(a: Bytes, b: Bytes, c: Bytes, limit: nat)
    requires |a| <= limit < |a| + |b|
    ensures Through((a + b) + c, limit) == a + b[..limit - |a|]
  {
  }

  /** The write loop of `send`; the connection breaks after `limit` more bytes. */
  method WriteFrames(stream: Bytes, frames: seq<ChunkFrame>, limit: nat) returns (stream': Bytes, ok: bool)
    ensures ok <==> |WireOf(frames)| <= limit
    ensures stream' == stream + Through(WireOf(frames), limit)
  {
    hide EncodeChunk, FrameBytes;
    stream' := stream;
    assert WireOf([]) == [];
    var room := limit;
    for k := 0 to |frames|
      invariant stream' == stream + WireOf(frames[..k]) && 0 <= room == limit - |WireOf(frames[..k])|
    {
      var sent, data := WireOf(frames[..k]), FrameBytes(EncodeChunk(frames[k]));
      WireSplit(frames[..k], [frames[k]]);
      WireOfCons(frames[k], []);
      assert frames[..k + 1] == frames[..k] + [frames[k]];
      if |data| > room {
        WireSplit(frames[..k + 1], frames[k + 1..]);
        assert frames == frames[..k + 1] + frames[k + 1..];
        ThroughAppend(sent, data, WireOf(frames[k + 1..]), limit);
        Associative(stream, sent, data[..room]);
        return stream' + data[..room], false;
      }
      Associative(stream, sent, data);
      stream' := stream' + data;
      room := room - |data|;
    }
    assert frames[..|frames|] == frames;
    return stream', true;
  }

  class WifiDirectConnection {
    var connected: bool
    var outgoing: Bytes
    var incoming: Bytes
    const chunker: MessageChunker
    const reassembler: MessageReassembler

    ghost predicate Valid()
      reads this, reassembler
    {
      chunker.mtu == WIFI_TCP_MTU && reassembler.Valid()
    }

    /** Wraps an accepted stream; `incoming` is what the peer will have written before closing. */
    constructor FromStream(incoming: Bytes)
      ensures Valid() && connected && outgoing == [] && this.incoming == incoming
      ensures fresh(reassembler) && reassembler.buffers == map[]
    {
      connected, outgoing, this.incoming := true, [], incoming;
      chunker := new MessageChunker(WIFI_TCP_MTU);
      reassembler := new MessageReassembler();
    }

    /** The connection breaks after `limit` more bytes. */
    method Send(m: Bytes, id: U32, limit: nat) returns (r: Result<()>)
      requires Valid()
      modifies this`outgoing
      ensures Valid()
      ensures !connected ==> r == Err(NotConnected) && outgoing == old(outgoing)
      ensures connected ==> r == if |SentBytes(id, m)| <= limit then Ok(()) else Err(BrokenPipe)
      ensures connected ==> outgoing == old(outgoing) + Through(SentBytes(id, m), limit)
    {
      if !connected { return Err(NotConnected); }
      var frames := chunker.Chunk(m, id);
      var ok;
      outgoing, ok := WriteFrames(outgoing, frames, limit);
      return if ok then Ok(()) else Err(BrokenPipe);
    }

    method Recv(clock: nat -> nat) returns (r: Result<Bytes>)
      requires Valid()
      modifies this`incoming, reassembler
      ensures Valid()
      ensures !connected ==> r == Err(NotConnected)
                             && incoming == old(incoming) && reassembler.buffers == old(reassembler.buffers)
      ensures connected ==>
                var out := ReceiveMessage(old(incoming), old(reassembler.buffers), clock, 0);
                r == out.result && incoming == out.rest && reassembler.buffers == out.buffers
    {
      if !connected { return Err(NotConnected); }
      var k := 0;
      while true
        invariant Valid()
        invariant ReceiveMessage(old(incoming), old(reassembler.buffers), clock, 0)
               == ReceiveMessage(incoming, reassembler.buffers, clock, k)
        decreases |incoming|
      {
        var (frame, rest) := ReadFrame(incoming);
        incoming := rest;
        if frame.Err? { return Err(frame.error); }
        var chunk := ParseChunk(frame.value);
        if chunk.None? { return Err(BrokenPipe); }
        var out := reassembler.ReceiveChunk(chunk.value, clock(k));
        k := k + 1;
        if out.Some? { return Ok(out.value); }
      }
    }
  }

  // ---- Round trip ---------------------------------------------------------------------------------

  lemma ReadBackFrame(data: Bytes, tail: Bytes)
    requires 1 <= |data| <= MAX_FRAME_SIZE
    ensures ReadFrame(FrameBytes(data) + tail) == (Ok(data), tail)
  {
    var stream := FrameBytes(data) + tail;
    assert stream[..4] == LeBytes(|data|, 4);
    ReadBack(|data|);
    assert stream[4..4 + |data|] == data && stream[4 + |data|..] == tail;
  }

  /** The data of a message's buffer when its first `n` bytes have arrived in order. */
  ghost function PrefixData(m: Bytes, n: nat): (d: Bytes)
    requires n <= |m|
    ensures |d| == |m|
  {
    m[..n] + seq(|m| - n, _ => 0)
  }

  /** Its marks. */
  ghost function PrefixMarks(size: nat, n: nat): (s: seq<bool>)
    requires n <= size
    ensures |s| == size
  {
    seq(n, _ => true) + seq(size - n, _ => false)
  }

  ghost function PrefixBuffer(m: Bytes, n: nat, now: nat): PartialBuffer
    requires n <= |m|
  {
    PartialBuffer(|m|, PrefixData(m, n), PrefixMarks(|m|, n), n, now)
  }

  lemma {:induction false} CountPrefix(size: nat, n: nat)
    requires n <= size
    ensures CountTrue(PrefixMarks(size, n)) == n
    decreases size
  {
    if size == 0 {
    } else {
      var n' := if n > 0 then n - 1 else 0;
      assert PrefixMarks(size, n)[1..] == PrefixMarks(size - 1, n');
      CountPrefix(size - 1, n');
    }
  }

  lemma DataNext(m: Bytes, n: nat, end: nat)
    requires n <= end <= |m|
    ensures Overwrite(PrefixData(m, n), n, m[n..end]) == PrefixData(m, end)
  {
  }

  lemma MarksNext(size: nat, n: nat, end: nat)
    requires n <= end <= size
    ensures Overwrite(PrefixMarks(size, n), n, seq(end - n, _ => true)) == PrefixMarks(size, end)
  {
  }

  lemma WriteNext(m: Bytes, f: ChunkFrame, earlier: nat, now: nat)
    requires IsFragment(f, f.messageId, m) && |m| <= MAX_MESSAGE_SIZE
    ensures WriteChunk(PrefixBuffer(m, f.offset, earlier), f, now) == PrefixBuffer(m, f.offset + |f.payload|, now)
  {
    var end := f.offset + |f.payload|;
    DataNext(m, f.offset, end);
    MarksNext(|m|, f.offset, end);
    CountPrefix(|m|, f.offset);
    CountPrefix(|m|, end);
    hide Overwrite, CountTrue, PrefixData, PrefixMarks;
  }

  /** The receiver's buffers after the first `n` bytes of `m`, the last at time `now`; nothing is held before the
      first frame. */
  ghost function BuffersAt(m: Bytes, id: U32, n: nat, now: nat): (b: Buffers)
    requires n <= |m|
    ensures AllShaped(b)
  {
    if n == 0 then map[] else map[id := PrefixBuffer(m, n, now)]
  }

  lemma BufferForNext(m: Bytes, f: ChunkFrame, earlier: nat, now: nat)
    requires IsFragment(f, f.messageId, m)
    ensures BufferFor(BuffersAt(m, f.messageId, f.offset, earlier), f, now)
         == PrefixBuffer(m, f.offset, if f.offset == 0 then now else earlier)
  {
    if f.offset == 0 {
      assert FreshBuffer(|m|, now).data == PrefixBuffer(m, 0, now).data;
      assert FreshBuffer(|m|, now).received == PrefixBuffer(m, 0, now).received;
    }
  }

  lemma ReceiveNext(m: Bytes, f: ChunkFrame, earlier: nat, now: nat)
    requires IsFragment(f, f.messageId, m) && |m| <= MAX_MESSAGE_SIZE && f.payload != []
    ensures Receive(BuffersAt(m, f.messageId, f.offset, earlier), f, now)
         == if f.offset + |f.payload| == |m| then (map[], Some(m))
            else (BuffersAt(m, f.messageId, f.offset + |f.payload|, now), None)
  {
    var buffers, end := BuffersAt(m, f.messageId, f.offset, earlier), f.offset + |f.payload|;
    BufferForNext(m, f, earlier, now);
    WriteNext(m, f, if f.offset == 0 then now else earlier, now);
    assert PrefixBuffer(m, |m|, now).data == m;
    assert buffers - {f.messageId} == map[];
    assert buffers[f.messageId := PrefixBuffer(m, end, now)] == BuffersAt(m, f.messageId, end, now);
  }

  /** One turn of the receive loop on an encoded frame. */
  lemma ReceiveFrameStep(f: ChunkFrame, rest: Bytes, buffers: Buffers, clock: nat -> nat, k: nat)
    requires AllShaped(buffers) && |f.payload| <= WIFI_TCP_MTU
    ensures ReceiveMessage(FrameBytes(EncodeChunk(f)) + rest, buffers, clock, k)
         == var (buffers', out) := Receive(buffers, f, clock(k));
            if out.Some? then Received(Ok(out.value), rest, buffers', k + 1)
            else ReceiveMessage(rest, buffers', clock, k + 1)
  {
    ReadBackFrame(EncodeChunk(f), rest);
    ParseOfEncode(f);
  }

  lemma FramesHead(m: Bytes, id: U32, capacity: nat, offset: nat)
    requires 1 <= capacity <= WIFI_TCP_MTU && offset < |m| <= MAX_MESSAGE_SIZE
    ensures var end := Min(offset + capacity, |m|);
            var f := ChunkFrame(id, |m|, offset, end - offset, m[offset..end]);
            IsFragment(f, id, m) && FramesFrom(m, id, capacity, offset) == [f] + FramesFrom(m, id, capacity, end)
  {
  }

  lemma WireCons(f: ChunkFrame, frames: seq<ChunkFrame>, tail: Bytes)
    ensures WireOf([f] + frames) + tail == FrameBytes(EncodeChunk(f)) + (WireOf(frames) + tail)
  {
    WireOfCons(f, frames);
    hide WireOf, EncodeChunk, FrameBytes;
    Associative(FrameBytes(EncodeChunk(f)), WireOf(frames), tail);
  }

  lemma FramesUnfold(m: Bytes, id: U32, capacity: nat, offset: nat, tail: Bytes)
    requires 1 <= capacity <= WIFI_TCP_MTU && offset < |m| <= MAX_MESSAGE_SIZE
    ensures var end := Min(offset + capacity, |m|);
            var f := ChunkFrame(id, |m|, offset, end - offset, m[offset..end]);
            && IsFragment(f, id, m)
            && WireOf(FramesFrom(m, id, capacity, offset)) + tail
               == FrameBytes(EncodeChunk(f)) + (WireOf(FramesFrom(m, id, capacity, end)) + tail)
  {
    hide FramesFrom, WireOf, EncodeChunk, FrameBytes, IsFragment;
    var end := Min(offset + capacity, |m|);
    FramesHead(m, id, capacity, offset);
    WireCons(ChunkFrame(id, |m|, offset, end - offset, m[offset..end]), FramesFrom(m, id, capacity, end), tail);
  }

  lemma LastFrameWire(m: Bytes, id: U32, capacity: nat, tail: Bytes)
    requires 1 <= capacity <= WIFI_TCP_MTU && |m| <= MAX_MESSAGE_SIZE
    ensures Remaining(m, id, capacity, |m|, tail) == tail
  {
  }

  /** What the receiver has still to read of a message from `offset` on, followed by `tail`. */
  ghost function Remaining(m: Bytes, id: U32, capacity: nat, offset: nat, tail: Bytes): Bytes
    requires 1 <= capacity <= WIFI_TCP_MTU && offset <= |m| <= MAX_MESSAGE_SIZE
  {
    WireOf(FramesFrom(m, id, capacity, offset)) + tail
  }

  /** One frame of the message: either it is the last one, or the receiver goes on to the next. */
  lemma RecvFrame(m: Bytes, id: U32, capacity: nat, offset: nat, tail: Bytes, earlier: nat, clock: nat -> nat, k: nat)
    requires 1 <= capacity <= WIFI_TCP_MTU && offset < |m| <= MAX_MESSAGE_SIZE
    ensures var end := Min(offset + capacity, |m|);
            var rest := Remaining(m, id, capacity, end, tail);
            var r := ReceiveMessage(Remaining(m, id, capacity, offset, tail), BuffersAt(m, id, offset, earlier),
                                    clock, k);
            r == if end == |m| then Received(Ok(m), rest, map[], k + 1)
                 else ReceiveMessage(rest, BuffersAt(m, id, end, clock(k)), clock, k + 1)
  {
    hide ReceiveMessage, WireOf, FramesFrom, EncodeChunk, PrefixBuffer, Receive, BuffersAt;
    var end := Min(offset + capacity, |m|);
    var f := ChunkFrame(id, |m|, offset, end - offset, m[offset..end]);
    FramesUnfold(m, id, capacity, offset, tail);
    ReceiveFrameStep(f, Remaining(m, id, capacity, end, tail), BuffersAt(m, id, offset, earlier), clock, k);
    ReceiveNext(m, f, earlier, clock(k));
  }

  lemma {:induction false} RecvFrames(m: Bytes, id: U32, capacity: nat, offset: nat, tail: Bytes, earlier: nat,
                                      clock: nat -> nat, k: nat)
    requires 1 <= capacity <= WIFI_TCP_MTU && offset < |m| <= MAX_MESSAGE_SIZE
    ensures var r := ReceiveMessage(Remaining(m, id, capacity, offset, tail), BuffersAt(m, id, offset, earlier),
                                    clock, k);
            r == Received(Ok(m), tail, map[], r.next)
    decreases |m| - offset
  {
    hide ReceiveMessage, Remaining, BuffersAt;
    var end := Min(offset + capacity, |m|);
    RecvFrame(m, id, capacity, offset, tail, earlier, clock, k);
    if end < |m| {
      RecvFrames(m, id, capacity, end, tail, clock(k), clock, k + 1);
    } else {
      LastFrameWire(m, id, capacity, tail);
    }
  }

  /** One message: `recv` returns exactly what `send` wrote, and leaves the later bytes and no buffer behind,
      whatever the clock shows. */
  lemma RecvOfSend(id: U32, m: Bytes, tail: Bytes, clock: nat -> nat, k: nat)
    requires Sendable(WIFI_TCP_MTU, m)
    ensures var r := ReceiveMessage(SentBytes(id, m) + tail, map[], clock, k);
            r == Received(Ok(m), tail, map[], r.next)
  {
    RecvFrames(m, id, PayloadCapacity(WIFI_TCP_MTU), 0, tail, 0, clock, k);
  }

  function SentAll(msgs: seq<(U32, Bytes)>): Bytes
  {
    if msgs == [] then [] else SentBytes(msgs[0].0, msgs[0].1) + SentAll(msgs[1..])
  }

  /** The messages that `send` puts on the wire at all: empty and oversized ones write no frame. */
  function Transmitted(msgs: seq<(U32, Bytes)>): seq<Bytes>
  {
    if msgs == [] then []
    else (if Sendable(WIFI_TCP_MTU, msgs[0].1) then [msgs[0].1] else []) + Transmitted(msgs[1..])
  }

  /** Repeated `recv` until the stream fails: the messages read, the final error and the final buffers. */
  ghost function RecvAll(stream: Bytes, buffers: Buffers, clock: nat -> nat, k: nat)
    : (seq<Bytes>, TransportError, Buffers)
    requires AllShaped(buffers)
    decreases |stream|
  {
    var r := ReceiveMessage(stream, buffers, clock, k);
    RecvShrinks(stream, buffers, clock, k);
    if r.result.Err? then ([], r.result.error, r.buffers)
    else
      var (ms, e, bs) := RecvAll(r.rest, r.buffers, clock, r.next);
      ([r.result.value] + ms, e, bs)
  }

  lemma {:induction false} RecvShrinks(stream: Bytes, buffers: Buffers, clock: nat -> nat, k: nat)
    requires AllShaped(buffers)
    ensures var r := ReceiveMessage(stream, buffers, clock, k);
            AllShaped(r.buffers) && (r.result.Ok? ==> |r.rest| < |stream|)
    decreases |stream|
  {
    var (frame, rest) := ReadFrame(stream);
    if frame.Ok? && ParseChunk(frame.value).Some? {
      var (buffers', out) := Receive(buffers, ParseChunk(frame.value).value, clock(k));
      if out.None? { RecvShrinks(rest, buffers', clock, k + 1); }
    }
  }

  /** Any sequence of sends, with any message ids (equal ones included), is read back as the same sequence of
      messages, at any clock readings; exactly the refused messages are missing. The stream then ends and nothing
      stays buffered. */
  lemma {:induction false} StreamRoundTrip(msgs: seq<(U32, Bytes)>, clock: nat -> nat, k: nat)
    ensures RecvAll(SentAll(msgs), map[], clock, k) == (Transmitted(msgs), BrokenPipe, map[])
    decreases |msgs|
  {
    if msgs == [] {
    } else {
      var (id, m) := msgs[0];
      if Sendable(WIFI_TCP_MTU, m) {
        RecvOfSend(id, m, SentAll(msgs[1..]), clock, k);
        var r := ReceiveMessage(SentBytes(id, m) + SentAll(msgs[1..]), map[], clock, k);
        StreamRoundTrip(msgs[1..], clock, r.next);
      } else {
        StreamRoundTrip(msgs[1..], clock, k);
        assert SentAll(msgs) == SentAll(msgs[1..]);
        assert Transmitted(msgs) == Transmitted(msgs[1..]);
      }
    }
  }

  // ---- A connection that breaks -------------------------------------------------------------------

  /** A frame read from the first `n` bytes is the one at the front of the whole stream. */
  lemma ReadFrameOfPrefix(stream: Bytes, n: nat)
    requires n <= |stream| && ReadFrame(stream[..n]).0.Ok?
    ensures ReadFrame(stream).0 == ReadFrame(stream[..n]).0
    ensures |ReadFrame(stream[..n]).1| <= |ReadFrame(stream).1|
    ensures ReadFrame(stream[..n]).1 == ReadFrame(stream).1[..|ReadFrame(stream[..n]).1|]
  {
    assert stream[..n][..4] == stream[..4];
    var size := ReadU32(stream[..4]);
    assert stream[..n][4..4 + size] == stream[4..4 + size];
    assert stream[..n][4 + size..] == stream[4 + size..][..n - 4 - size];
  }

  lemma {:induction false} ReceiveOfPrefix(stream: Bytes, n: nat, buffers: Buffers, clock: nat -> nat, k: nat)
    requires n <= |stream| && AllShaped(buffers)
    requires ReceiveMessage(stream[..n], buffers, clock, k).result.Ok?
    ensures var r, whole := ReceiveMessage(stream[..n], buffers, clock, k), ReceiveMessage(stream, buffers, clock, k);
            && |r.rest| <= |whole.rest|
            && r == whole.(rest := whole.rest[..|r.rest|])
    decreases |stream|
  {
    var (frame, rest) := ReadFrame(stream[..n]);
    ReadFrameOfPrefix(stream, n);
    var (buffers', out) := Receive(buffers, ParseChunk(frame.value).value, clock(k));
    if out.None? {
      hide Receive, ParseChunk;
      ReceiveOfPrefix(ReadFrame(stream).1, |rest|, buffers', clock, k + 1);
    }
  }

  lemma {:induction false} RecvAllOfPrefix(stream: Bytes, n: nat, buffers: Buffers, clock: nat -> nat, k: nat)
    requires n <= |stream| && AllShaped(buffers)
    ensures RecvAll(stream[..n], buffers, clock, k).0 <= RecvAll(stream, buffers, clock, k).0
    decreases |stream|
  {
    var r := ReceiveMessage(stream[..n], buffers, clock, k);
    if r.result.Ok? {
      var whole := ReceiveMessage(stream, buffers, clock, k);
      ReceiveOfPrefix(stream, n, buffers, clock, k);
      RecvShrinks(stream, buffers, clock, k);
      hide ReceiveMessage;
      RecvAllOfPrefix(whole.rest, |r.rest|, r.buffers, clock, r.next);
    }
  }

  /** Wherever the stream of any sequence of sends breaks off, in the middle of a frame or a message included, the
      messages received are the first ones that were sent, whole and in order. */
  lemma BrokenStreamGivesPrefix(msgs: seq<(U32, Bytes)>, limit: nat, clock: nat -> nat, k: nat)
    ensures RecvAll(Through(SentAll(msgs), limit), map[], clock, k).0 <= Transmitted(msgs)
  {
    StreamRoundTrip(msgs, clock, k);
    var all := SentAll(msgs);
    if |all| > limit { RecvAllOfPrefix(all, limit, map[], clock, k); }
  }

  // ---- Frames on the wire -------------------------------------------------------------------------

  /** A frame on the wire is its length in four bytes, least significant first, then the data. */
  lemma FrameLayout(data: Bytes)
    ensures |FrameBytes(data)| == 4 + |data|
    ensures HoldsU32(FrameBytes(data), 0, |data|) && FrameBytes(data)[4..] == data
  {
    U32Bytes(|data|);
    hide LeBytes;
  }

  ghost function FourBytes(b: Bytes): int
    requires |b| >= 4
  {
    b[0] as int + 256 * b[1] as int + 65_536 * b[2] as int + 16_777_216 * b[3] as int
  }

  /** Exactly which frames are read: those whose four length bytes are there, hold 1 to 4 MiB, and are followed by
      that many bytes. A length outside these bounds is too large; anything missing is a broken pipe. */
  lemma ReadsIff(stream: Bytes)
    ensures var (r, rest) := ReadFrame(stream);
            if |stream| < 4 then r == Err(BrokenPipe)
            else
              var n := FourBytes(stream);
              if n == 0 || n > 4_194_304 then r == Err(PayloadTooLarge)
              else if |stream| < 4 + n then r == Err(BrokenPipe)
              else r == Ok(stream[4..4 + n]) && rest == stream[4 + n..]
  {
    if |stream| >= 4 { FourBytesRead(stream[..4]); }
  }

  lemma FourBytesRead(b: Bytes)
    requires |b| == 4
    ensures ReadU32(b) == FourBytes(b)
  {
    assert LeValue(b[3..][1..]) == 0;
    assert LeValue(b[3..]) == b[3];
    assert b[2..][1..] == b[3..] && b[1..][1..] == b[2..];
    assert LeValue(b[2..]) == b[2] as int + 0x100 * LeValue(b[3..]);
    assert LeValue(b[1..]) == b[1] as int + 0x100 * LeValue(b[2..]);
  }

  lemma {:induction false} WireLength(m: Bytes, id: U32, capacity: nat, offset: nat)
    requires 1 <= capacity <= 0xFFFF && offset <= |m| <= MAX_MESSAGE_SIZE
    ensures |WireOf(FramesFrom(m, id, capacity, offset))|
         == |m| - offset + 18 * |FramesFrom(m, id, capacity, offset)|
    decreases |m| - offset
  {
    if offset >= |m| {
    } else {
      var end := Min(offset + capacity, |m|);
      WireLength(m, id, capacity, end);
      var f := ChunkFrame(id, |m|, offset, end - offset, m[offset..end]);
      WireOfCons(f, FramesFrom(m, id, capacity, end));
      assert FramesFrom(m, id, capacity, offset) == [f] + FramesFrom(m, id, capacity, end);
      hide WireOf, FramesFrom, EncodeChunk, LeBytes;
    }
  }

  /** How many bytes a message takes on the wire: its own, and 18 for each of as few frames of up to 1434 bytes as it
      can be cut into; none if it is empty or longer than 1 MiB. */
  lemma SentLength(id: U32, m: Bytes) returns (frames: nat)
    ensures |SentBytes(id, m)| == (if frames == 0 then 0 else |m| + 18 * frames)
    ensures frames == 0 <==> m == [] || |m| > 1_048_576
    ensures frames > 0 ==> (frames - 1) * 1434 < |m| <= frames * 1434
  {
    RefusedIff(WIFI_TCP_MTU, id, m);
    frames := |ChunkMessage(WIFI_TCP_MTU, id, m)|;
    if frames > 0 {
      FramesAreFull(WIFI_TCP_MTU, id, m);
      WireLength(m, id, PayloadCapacity(WIFI_TCP_MTU), 0);
    }
  }

  // ---- What a receive does to any stream ----------------------------------------------------------

  /** The buffers after these chunks, the first at the `k`-th clock reading, and what each of them returns. */
  ghost function Fed(buffers: Buffers, chunks: seq<ChunkFrame>, clock: nat -> nat, k: nat)
    : (Buffers, seq<Option<Bytes>>)
    requires AllShaped(buffers)
    decreases |chunks|
  {
    if chunks == [] then (buffers, [])
    else
      var (buffers', out) := Receive(buffers, chunks[0], clock(k));
      var (last, outs) := Fed(buffers', chunks[1..], clock, k + 1);
      (last, [out] + outs)
  }

  ghost function Nothing(n: nat): (s: seq<Option<Bytes>>)
    ensures |s| == n
  {
    seq(n, _ => None)
  }

  lemma ReadSplits(stream: Bytes)
    requires ReadFrame(stream).0.Ok?
    ensures stream == FrameBytes(ReadFrame(stream).0.value) + ReadFrame(stream).1
  {
    var n := ReadU32(stream[..4]);
    LeBytesOfValue(stream[..4]);
    hide LeBytes, LeValue, Pow256;
    assert stream == stream[..4] + stream[4..4 + n] + stream[4 + n..];
  }

  /** A frame that is read is what was written: its length in four bytes and the encoding of the chunk in it. */
  lemma ReadIsWritten(stream: Bytes)
    requires ReadFrame(stream).0.Ok? && ParseChunk(ReadFrame(stream).0.value).Some?
    ensures var (frame, rest) := ReadFrame(stream);
            stream == FrameBytes(EncodeChunk(ParseChunk(frame.value).value)) + rest
  {
    hide ReadFrame, ParseChunk, EncodeChunk, FrameBytes;
    EncodeOfParse(ReadFrame(stream).0.value);
    ReadSplits(stream);
  }

  /** `r` has taken these whole chunks off the stream, one clock reading each, and fed them to the reassembler up to and
      with the first that completes a message. It fails exactly if none does: with the error of the frame behind them,
      or with a broken pipe if that frame is shorter than a header. */
  ghost predicate Consumed(stream: Bytes, buffers: Buffers, clock: nat -> nat, k: nat, chunks: seq<ChunkFrame>,
                           tail: Bytes, r: Received)
    requires AllShaped(buffers)
  {
    && stream == WireOf(chunks) + tail && r.next == k + |chunks|
    && r.buffers == Fed(buffers, chunks, clock, k).0
    && if r.result.Ok?
       then chunks != [] && tail == r.rest
            && Fed(buffers, chunks, clock, k).1 == Nothing(|chunks| - 1) + [Some(r.result.value)]
       else Fed(buffers, chunks, clock, k).1 == Nothing(|chunks|)
            && (ReadFrame(tail).0 == Err(r.result.error)
                || (ReadFrame(tail).0.Ok? && |ReadFrame(tail).0.value| < 14 && r.result.error == BrokenPipe))
  }

  lemma FedOneMore(buffers: Buffers, c: ChunkFrame, chunks: seq<ChunkFrame>, clock: nat -> nat, k: nat)
    requires AllShaped(buffers) && AllShaped(Receive(buffers, c, clock(k)).0)
    ensures var (buffers', out) := Receive(buffers, c, clock(k));
            var (last, outs) := Fed(buffers', chunks, clock, k + 1);
            Fed(buffers, [c] + chunks, clock, k) == (last, [out] + outs)
  {
    hide Receive, AllShaped;
    assert ([c] + chunks)[1..] == chunks && ([c] + chunks)[0] == c;
  }

  lemma OneMoreConsumed(c: ChunkFrame, rest: Bytes, buffers: Buffers, clock: nat -> nat, k: nat,
                        chunks: seq<ChunkFrame>, tail: Bytes, r: Received)
    requires AllShaped(buffers) && Receive(buffers, c, clock(k)).1 == None
    requires AllShaped(Receive(buffers, c, clock(k)).0)
    requires Consumed(rest, Receive(buffers, c, clock(k)).0, clock, k + 1, chunks, tail, r)
    ensures Consumed(FrameBytes(EncodeChunk(c)) + rest, buffers, clock, k, [c] + chunks, tail, r)
  {
    hide ReadFrame, Receive, AllShaped, FrameBytes, EncodeChunk, WireOf, Fed, Nothing;
    WireOfCons(c, chunks);
    Associative(FrameBytes(EncodeChunk(c)), WireOf(chunks), tail);
    FedOneMore(buffers, c, chunks, clock, k);
    NothingMore(|chunks|);
    if r.result.Ok? { NothingMore(|chunks| - 1); }
  }

  lemma NothingMore(n: nat)
    ensures [None] + Nothing(n) == Nothing(n + 1)
  {
  }

  lemma LastConsumed(c: ChunkFrame, rest: Bytes, buffers: Buffers, clock: nat -> nat, k: nat)
    requires AllShaped(buffers) && Receive(buffers, c, clock(k)).1.Some?
    requires AllShaped(Receive(buffers, c, clock(k)).0)
    ensures var (buffers', out) := Receive(buffers, c, clock(k));
            Consumed(FrameBytes(EncodeChunk(c)) + rest, buffers, clock, k, [c], rest,
                     Received(Ok(out.value), rest, buffers', k + 1))
  {
    WireOfCons(c, []);
    hide ReadFrame, Receive, AllShaped, FrameBytes, EncodeChunk;
    var buffers' := Receive(buffers, c, clock(k)).0;
    assert Fed(buffers', [c][1..], clock, k + 1) == (buffers', []);
    assert WireOf([c]) == FrameBytes(EncodeChunk(c));
  }

  lemma NothingConsumed(stream: Bytes, buffers: Buffers, clock: nat -> nat, k: nat)
    requires AllShaped(buffers) && (ReadFrame(stream).0.Ok? ==> ParseChunk(ReadFrame(stream).0.value).None?)
    ensures Consumed(stream, buffers, clock, k, [], stream, ReceiveMessage(stream, buffers, clock, k))
  {
    hide ReadFrame, AllShaped, Receive;
  }

  /** From any stream and any buffers, what a receive consumes, does and answers. */
  lemma {:induction false} ReceiveConsumes(stream: Bytes, buffers: Buffers, clock: nat -> nat, k: nat)
    returns (chunks: seq<ChunkFrame>, tail: Bytes)
    requires AllShaped(buffers)
    ensures Consumed(stream, buffers, clock, k, chunks, tail, ReceiveMessage(stream, buffers, clock, k))
    decreases |stream|
  {
    var (frame, rest) := ReadFrame(stream);
    if frame.Err? || ParseChunk(frame.value).None? {
      NothingConsumed(stream, buffers, clock, k);
      return [], stream;
    }
    var c := ParseChunk(frame.value).value;
    var (buffers', out) := Receive(buffers, c, clock(k));
    ReadIsWritten(stream);
    hide Consumed, ParseChunk, FrameBytes, EncodeChunk, Receive;
    if out.Some? {
      chunks, tail := [c], rest;
      LastConsumed(c, rest, buffers, clock, k);
    } else {
      chunks, tail := ReceiveConsumes(rest, buffers', clock, k + 1);
      OneMoreConsumed(c, rest, buffers, clock, k, chunks, tail, ReceiveMessage(stream, buffers, clock, k));
      chunks := [c] + chunks;
    }
  }
}
