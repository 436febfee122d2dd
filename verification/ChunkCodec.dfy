/** The 14-byte chunk header and its little-endian encoding (src/transport/ble_transport.rs). */
module ChunkCodec {
  import opened Core

  const HEADER_SIZE := 14

  datatype ChunkFrame = ChunkFrame(messageId: U32, totalLength: U32, offset: U32, payloadSize: U16, payload: Bytes)

  /** 256 to the power `k`. */
  function Pow256(k: nat): (p: nat)
    ensures p > 0
  {
    if k == 0 then 1 else 0x100 * Pow256(k - 1)
  }

  /** The `k` low bytes of `n`, least significant first. */
  function LeBytes(n: nat, k: nat): (b: Bytes)
    ensures |b| == k
    decreases k
  {
    if k == 0 then [] else [n % 0x100] + LeBytes(n / 0x100, k - 1)
  }

  function LeValue(b: Bytes): (n: nat)
    ensures n < Pow256(|b|)
  {
    if b == [] then 0 else b[0] + 0x100 * LeValue(b[1..])
  }

  lemma {:induction false} LeValueOfBytes(n: nat, k: nat)
    requires n < Pow256(k)
    ensures LeValue(LeBytes(n, k)) == n
    decreases k
  {
    if k == 0 {
    } else {
      LeValueOfBytes(n / 0x100, k - 1);
      assert LeBytes(n, k)[1..] == LeBytes(n / 0x100, k - 1);
    }
  }

  lemma {:induction false} LeBytesOfValue(b: Bytes)
    ensures LeBytes(LeValue(b), |b|) == b
  {
    if b == [] {
    } else {
      LeBytesOfValue(b[1..]);
      var n := LeValue(b[1..]);
      assert LeValue(b) % 0x100 == b[0] && LeValue(b) / 0x100 == n;
      assert b == [b[0]] + b[1..];
    }
  }

  lemma PowersOf256()
    ensures Pow256(2) == 0x1_0000 && Pow256(4) == 0x1_0000_0000
  {
    assert Pow256(1) == 0x100 * Pow256(0);
    assert Pow256(2) == 0x100 * Pow256(1);
    assert Pow256(3) == 0x100 * Pow256(2);
    assert Pow256(4) == 0x100 * Pow256(3);
  }

  function ReadU32(b: Bytes): U32
    requires |b| == 4
  {
    PowersOf256();
    LeValue(b)
  }

  function ReadU16(b: Bytes): U16
    requires |b| == 2
  {
    PowersOf256();
    LeValue(b)
  }

  function EncodeChunk(f: ChunkFrame): (b: Bytes)
    ensures |b| == HEADER_SIZE + |f.payload|
  {
    LeBytes(f.messageId, 4) + LeBytes(f.totalLength, 4) + LeBytes(f.offset, 4) + LeBytes(f.payloadSize, 2) + f.payload
  }

  /** The header fields and the remaining bytes, without comparing `payload_size` (the WiFi receive path). */
  function ParseChunk(b: Bytes): Option<ChunkFrame>
  {
    if |b| < HEADER_SIZE then None
    else Some(ChunkFrame(ReadU32(b[0..4]), ReadU32(b[4..8]), ReadU32(b[8..12]), ReadU16(b[12..14]), b[14..]))
  }

  /** As `ParseChunk`, refusing a buffer whose size field is not its payload length (the BLE receive path). */
  function DecodeChunk(b: Bytes): Option<ChunkFrame>
  {
    var f := ParseChunk(b);
    if f.Some? && |f.value.payload| == f.value.payloadSize then f else None
  }

  lemma HeaderSlices(id: Bytes, total: Bytes, offset: Bytes, size: Bytes, payload: Bytes)
    requires |id| == |total| == |offset| == 4 && |size| == 2
    ensures var b := id + total + offset + size + payload;
            b[0..4] == id && b[4..8] == total && b[8..12] == offset && b[12..14] == size && b[14..] == payload
  {
  }

  lemma ReadBack(n: nat)
    ensures n < 0x1_0000_0000 ==> ReadU32(LeBytes(n, 4)) == n
    ensures n < 0x1_0000 ==> ReadU16(LeBytes(n, 2)) == n
  {
    PowersOf256();
    if n < Pow256(4) { LeValueOfBytes(n, 4); }
    if n < Pow256(2) { LeValueOfBytes(n, 2); }
  }

  /** Parsing undoes encoding on every frame. */
  lemma ParseOfEncode(f: ChunkFrame)
    ensures ParseChunk(EncodeChunk(f)) == Some(f)
  {
    HeaderSlices(LeBytes(f.messageId, 4), LeBytes(f.totalLength, 4), LeBytes(f.offset, 4),
                 LeBytes(f.payloadSize, 2), f.payload);
    ReadBack(f.messageId);
    ReadBack(f.totalLength);
    ReadBack(f.offset);
    ReadBack(f.payloadSize);
  }

  /** Encoding undoes parsing on every buffer long enough to parse. */
  lemma EncodeOfParse(b: Bytes)
    requires ParseChunk(b).Some?
    ensures EncodeChunk(ParseChunk(b).value) == b
  {
    LeBytesOfValue(b[0..4]);
    LeBytesOfValue(b[4..8]);
    LeBytesOfValue(b[8..12]);
    LeBytesOfValue(b[12..14]);
    hide LeBytes, LeValue;
    Rejoined(b);
  }

  lemma Rejoined(b: Bytes)
    requires |b| >= HEADER_SIZE
    ensures b == b[0..4] + b[4..8] + b[8..12] + b[12..14] + b[14..]
  {
  }

  /** Decoding returns a frame exactly for the encodings of frames whose size field is right, and it
      returns that frame: encode and decode are mutual inverses between those two sets. */
  lemma DecodeIffEncoded(b: Bytes, f: ChunkFrame)
    ensures DecodeChunk(b) == Some(f) <==> EncodeChunk(f) == b && f.payloadSize == |f.payload|
  {
    if DecodeChunk(b) == Some(f) {
      EncodeOfParse(b);
    }
    if EncodeChunk(f) == b && f.payloadSize == |f.payload| {
      ParseOfEncode(f);
    }
  }

  // ---- The layout, byte by byte -------------------------------------------------------------------

  /** `b` holds `n` in the four bytes from `at`, least significant first. */
  ghost predicate HoldsU32(b: Bytes, at: nat, n: nat)
  {
    at + 4 <= |b| && b[at] == n % 256 && b[at + 1] == n / 256 % 256
    && b[at + 2] == n / 65536 % 256 && b[at + 3] == n / 16777216 % 256
  }

  lemma U32Bytes(n: nat)
    ensures HoldsU32(LeBytes(n, 4), 0, n)
  {
    var n1, n2, n3 := n / 0x100, n / 0x100 / 0x100, n / 0x100 / 0x100 / 0x100;
    assert LeBytes(n3, 1) == [n3 % 0x100] + LeBytes(n3 / 0x100, 0);
    assert LeBytes(n2, 2) == [n2 % 0x100] + LeBytes(n3, 1);
    assert LeBytes(n1, 3) == [n1 % 0x100] + LeBytes(n2, 2);
    assert LeBytes(n, 4) == [n % 0x100] + LeBytes(n1, 3);
    hide LeBytes;
  }

  lemma U16Bytes(n: nat)
    ensures LeBytes(n, 2)[0] == n % 256 && LeBytes(n, 2)[1] == n / 256 % 256
  {
    var n1 := n / 0x100;
    assert LeBytes(n1, 1) == [n1 % 0x100] + LeBytes(n1 / 0x100, 0);
  }

  /** The encoding byte by byte: message id at 0, total length at 4, offset at 8, payload size at 12, each least
      significant byte first, and the payload from 14 on. */
  lemma EncodedLayout(f: ChunkFrame)
    ensures var b := EncodeChunk(f);
            && |b| == 14 + |f.payload|
            && HoldsU32(b, 0, f.messageId) && HoldsU32(b, 4, f.totalLength) && HoldsU32(b, 8, f.offset)
            && b[12] == f.payloadSize % 256 && b[13] == f.payloadSize / 256 % 256
            && b[14..] == f.payload
  {
    U32Bytes(f.messageId);
    U32Bytes(f.totalLength);
    U32Bytes(f.offset);
    U16Bytes(f.payloadSize);
    HeaderSlices(LeBytes(f.messageId, 4), LeBytes(f.totalLength, 4), LeBytes(f.offset, 4),
                 LeBytes(f.payloadSize, 2), f.payload);
    hide LeBytes;
    var b := EncodeChunk(f);
    SliceHolds(b, 0, f.messageId);
    SliceHolds(b, 4, f.totalLength);
    SliceHolds(b, 8, f.offset);
    assert b[12] == b[12..14][0] && b[13] == b[12..14][1];
  }

  lemma SliceHolds(b: Bytes, at: nat, n: nat)
    requires at + 4 <= |b| && HoldsU32(b[at..at + 4], 0, n)
    ensures HoldsU32(b, at, n)
  {
    var w := b[at..at + 4];
    assert w[0] == b[at] && w[1] == b[at + 1] && w[2] == b[at + 2] && w[3] == b[at + 3];
  }
}
