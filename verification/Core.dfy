/** Shared vocabulary: machine words, 32-byte keys and optional results. */
module Core {

  datatype Option<+T> = None | Some(value: T)

  type Byte = b: int | 0 <= b < 0x100
  type Bytes = seq<Byte>
  type U8 = n: int | 0 <= n < 0x100
  type U16 = n: int | 0 <= n < 0x1_0000
  type U32 = n: int | 0 <= n < 0x1_0000_0000
  type U64 = n: int | 0 <= n < 0x1_0000_0000_0000_0000

  /** A `[u8; 32]` (public key or message id), read as a big-endian number: equality of arrays is
      equality of numbers and the lexicographic order of arrays is the order of numbers. */
  const KEY_BOUND := 0x1_0000000000000000_0000000000000000_0000000000000000_0000000000000000
  type Key = k: int | 0 <= k < KEY_BOUND

  /** The first four bytes of a 32-byte array, as a big-endian number. */
  const PREFIX_UNIT := 0x1_00000000_0000000000000000_0000000000000000_0000000000000000

  function Prefix4(k: Key): U32
  {
    k / PREFIX_UNIT
  }

  /** Four bytes in front of 28: the prefix is followed by less than 256 to the power 28. */
  lemma PrefixIsTopFourBytes(k: Key) returns (rest: nat)
    ensures k == Prefix4(k) * 0x1_00000000_0000000000000000_0000000000000000_0000000000000000 + rest
    ensures rest < 0x1_00000000_0000000000000000_0000000000000000_0000000000000000
  {
    rest := k % PREFIX_UNIT;
  }

  function Min(a: int, b: int): int
  {
    if a <= b then a else b
  }

  function Max(a: int, b: int): int
  {
    if a >= b then a else b
  }
}
