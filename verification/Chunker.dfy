/** Splitting a serialised message into chunk frames (`MessageChunker::chunk`, src/transport/unified.rs). */
module Chunker {
  import opened Core
  import opened ChunkCodec

  const MAX_MESSAGE_SIZE := 1024 * 1024

  predicate Covers(f: ChunkFrame, i: int)
  {
    f.offset <= i < f.offset + |f.payload|
  }

  /** `f` carries a piece of `m` under `id`, at its place. */
  ghost predicate IsFragment(f: ChunkFrame, id: U32, m: Bytes)
  {
    && f.messageId == id && f.totalLength == |m|
    && f.payloadSize == |f.payload|
    && f.offset < |m| && f.offset + |f.payload| <= |m|
    && f.payload == m[f.offset..f.offset + |f.payload|]
  }

  /** Messages the chunker accepts; for the others it returns no frames. */
  predicate Sendable(mtu: nat, m: Bytes)
  {
    m != [] && mtu > HEADER_SIZE && |m| <= MAX_MESSAGE_SIZE
  }

  function PayloadCapacity(mtu: nat): nat
    requires mtu > HEADER_SIZE
  {
    Min(mtu - HEADER_SIZE, 0xFFFF)
  }

  function FramesFrom(m: Bytes, id: U32, capacity: nat, offset: nat): seq<ChunkFrame>
    requires 1 <= capacity <= 0xFFFF && offset <= |m| <= MAX_MESSAGE_SIZE
    decreases |m| - offset
  {
    if offset == |m| then []
    else
      var end := Min(offset + capacity, |m|);
      [ChunkFrame(id, |m|, offset, end - offset, m[offset..end])] + FramesFrom(m, id, capacity, end)
  }

  function ChunkMessage(mtu: nat, id: U32, m: Bytes): seq<ChunkFrame>
  {
    if Sendable(mtu, m) then FramesFrom(m, id, PayloadCapacity(mtu), 0) else []
  }

  lemma Regroup(frames: seq<ChunkFrame>, frame: ChunkFrame, rest: seq<ChunkFrame>)
    ensures (frames + [frame]) + rest == frames + ([frame] + rest)
  {
  }

  class MessageChunker {
    const mtu: nat

    constructor (mtu: nat)
      ensures this.mtu == mtu
    {
      this.mtu := mtu;
    }

    /** `id` is the random message id drawn for this message. */
    method Chunk(m: Bytes, id: U32) returns (frames: seq<ChunkFrame>)
      ensures frames == ChunkMessage(mtu, id, m)
    {
      if m == [] { return []; }
      if mtu <= HEADER_SIZE { return []; }
      if |m| > MAX_MESSAGE_SIZE { return []; }
      var capacity := Min(mtu - HEADER_SIZE, 0xFFFF);
      frames := [];
      var offset := 0;
      while offset < |m|
        invariant 0 <= offset <= |m|
        invariant frames + FramesFrom(m, id, capacity, offset) == FramesFrom(m, id, capacity, 0)
      {
        var end := Min(offset + capacity, |m|);
        var frame := ChunkFrame(id, |m|, offset, end - offset, m[offset..end]);
        Regroup(frames, frame, FramesFrom(m, id, capacity, end));
        frames := frames + [frame];
        offset := end;
      }
    }
  }

  ghost function Concatenated(frames: seq<ChunkFrame>): Bytes
  {
    if frames == [] then [] else frames[0].payload + Concatenated(frames[1..])
  }

  /** Each frame is a non-empty fragment of `m` within the capacity, from `offset` on, and later frames start
      where earlier ones end or after. */
  ghost predicate Tiles(fs: seq<ChunkFrame>, id: U32, m: Bytes, capacity: nat, offset: nat)
  {
    && (forall j :: 0 <= j < |fs| ==> IsFragment(fs[j], id, m) && 1 <= |fs[j].payload| <= capacity)
    && (forall j :: 0 <= j < |fs| ==> offset <= fs[j].offset)
    && (forall j, k :: 0 <= j < k < |fs| ==> fs[j].offset + |fs[j].payload| <= fs[k].offset)
  }

  lemma {:induction false} FramesTile(m: Bytes, id: U32, capacity: nat, offset: nat)
    requires 1 <= capacity <= 0xFFFF && offset <= |m| <= MAX_MESSAGE_SIZE
    ensures Tiles(FramesFrom(m, id, capacity, offset), id, m, capacity, offset)
    decreases |m| - offset
  {
    if offset >= |m| {
    } else {
      var end := Min(offset + capacity, |m|);
      hide Tiles;
      FramesTile(m, id, capacity, end);
      var f := ChunkFrame(id, |m|, offset, end - offset, m[offset..end]);
      PrependTile(f, FramesFrom(m, id, capacity, end), m, capacity, end);
    }
  }

  lemma PrependTile(f: ChunkFrame, fs: seq<ChunkFrame>, m: Bytes, capacity: nat, end: nat)
    requires IsFragment(f, f.messageId, m) && 1 <= |f.payload| <= capacity && f.offset + |f.payload| == end
    requires Tiles(fs, f.messageId, m, capacity, end)
    ensures Tiles([f] + fs, f.messageId, m, capacity, f.offset)
  {
  }

  /** The payloads in order are the rest of the message. */
  lemma {:induction false} FramesConcatenate(m: Bytes, id: U32, capacity: nat, offset: nat)
    requires 1 <= capacity <= 0xFFFF && offset <= |m| <= MAX_MESSAGE_SIZE
    ensures Concatenated(FramesFrom(m, id, capacity, offset)) == m[offset..]
    decreases |m| - offset
  {
    if offset >= |m| {
    } else {
      var end := Min(offset + capacity, |m|);
      FramesConcatenate(m, id, capacity, end);
      assert FramesFrom(m, id, capacity, offset)[1..] == FramesFrom(m, id, capacity, end);
      assert m[offset..] == m[offset..end] + m[end..];
    }
  }

  /** Every byte position lies in some frame. */
  lemma {:induction false} FramesCover(m: Bytes, id: U32, capacity: nat, offset: nat, i: nat) returns (f: ChunkFrame)
    requires 1 <= capacity <= 0xFFFF && offset <= i < |m| <= MAX_MESSAGE_SIZE
    ensures f in FramesFrom(m, id, capacity, offset) && Covers(f, i)
    decreases |m| - offset
  {
    var end := Min(offset + capacity, |m|);
    if i < end {
      f := FramesFrom(m, id, capacity, offset)[0];
    } else {
      f := FramesCover(m, id, capacity, end, i);
    }
  }

  /** What `chunk` promises: nothing for refused input, otherwise a tiling that respects the MTU. */
  lemma ChunkTiles(mtu: nat, id: U32, m: Bytes)
    ensures var fs := ChunkMessage(mtu, id, m);
            && (fs == [] <==> !Sendable(mtu, m))
            && (Sendable(mtu, m) ==> Concatenated(fs) == m)
            && (forall j :: 0 <= j < |fs| ==> IsFragment(fs[j], id, m) && 1 <= |fs[j].payload|)
            && (forall j :: 0 <= j < |fs| ==> HEADER_SIZE + |fs[j].payload| <= mtu)
            && (forall j, k :: 0 <= j < k < |fs| ==> fs[j].offset + |fs[j].payload| <= fs[k].offset)
  {
    if Sendable(mtu, m) {
      FramesTile(m, id, PayloadCapacity(mtu), 0);
      FramesConcatenate(m, id, PayloadCapacity(mtu), 0);
      assert m[0..] == m;
    }
  }

  // ---- How full the frames are --------------------------------------------------------------------

  /** Exactly what is refused. */
  lemma RefusedIff(mtu: nat, id: U32, m: Bytes)
    ensures ChunkMessage(mtu, id, m) == [] <==> m == [] || mtu <= 14 || |m| > 1_048_576
  {
    ChunkTiles(mtu, id, m);
  }

  lemma {:induction false} FramesFull(m: Bytes, id: U32, capacity: nat, offset: nat)
    requires 1 <= capacity <= 0xFFFF && offset <= |m| <= MAX_MESSAGE_SIZE
    ensures var fs := FramesFrom(m, id, capacity, offset);
            && (forall j :: 0 <= j < |fs| - 1 ==> |fs[j].payload| == capacity)
            && (|fs| == 0 ==> offset == |m|)
            && (|fs| > 0 ==> (|fs| - 1) * capacity < |m| - offset <= |fs| * capacity)
    decreases |m| - offset
  {
    if offset >= |m| {
    } else {
      var end := Min(offset + capacity, |m|);
      FramesFull(m, id, capacity, end);
      var rest := FramesFrom(m, id, capacity, end);
      Multiples(|rest|, capacity);
    }
  }

  lemma Multiples(n: nat, c: nat)
    ensures (n + 1) * c == n * c + c && (n - 1) * c == n * c - c
  {
  }

  /** No frame but the last has room left: each carries as much as the MTU (and a 16-bit size) allows, so there are
      as few frames as possible. */
  lemma FramesAreFull(mtu: nat, id: U32, m: Bytes)
    requires m != [] && 14 < mtu && |m| <= 1_048_576
    ensures var fs, room := ChunkMessage(mtu, id, m), Min(mtu - 14, 65_535);
            && (forall j :: 0 <= j < |fs| - 1 ==> |fs[j].payload| == room)
            && (|fs| - 1) * room < |m| <= |fs| * room
  {
    FramesFull(m, id, PayloadCapacity(mtu), 0);
  }
}
