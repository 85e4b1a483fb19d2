/** CRC-32 as section 8 of RFC 1952 defines it (Python's `zlib.crc32`). */
module Crc32 {
  import opened ByteCodec

  /** The operations on words, named so that proofs can treat them as wholes. */
  function Plus(x: bv32, y: bv32): bv32 { x ^ y }
  function Low(c: bv32): bool { c & 1 == 1 }
  function Half(c: bv32): bv32 { c >> 1 }
  function Eighth(c: bv32): bv32 { c >> 8 }
  function LowEight(c: bv32): bv32 { c & 0xFF }

  function Flip(x: bv32): bv32 { x ^ 0xFFFF_FFFF }

  /** One round of the reflected polynomial division of RFC 1952 section 8. */
  function Round(c: bv32): bv32 { if Low(c) then Plus(0xEDB8_8320, Half(c)) else Half(c) }

  function Rounds(c: bv32, k: nat): bv32
    decreases k
  {
    if k == 0 then c else Rounds(Round(c), k - 1)
  }

  function Update(c: bv32, b: byte): bv32 { Plus(Rounds(LowEight(Plus(c, b as bv32)), 8), Eighth(c)) }

  function Fold(c: bv32, b: Bytes): bv32 {
    if b == [] then c else Update(Fold(c, b[..|b| - 1]), b[|b| - 1])
  }

  /** `zlib.crc32(b, start)`. */
  function Crc(b: Bytes, start: bv32): bv32 { Flip(Fold(Flip(start), b)) }

  lemma {:induction false} FoldAppend(c: bv32, a: Bytes, b: Bytes)
    ensures Fold(c, a + b) == Fold(Fold(c, a), b)
  {
    hide Update;
    if b == [] {
      assert a + b == a;
    } else {
      var n := |b| - 1;
      assert (a + b)[..|a + b| - 1] == a + b[..n];
      FoldAppend(c, a, b[..n]);
    }
  }

  /** A CRC can be continued from the CRC of a prefix. */
  lemma {:induction false} Continued(a: Bytes, b: Bytes, start: bv32)
    ensures Crc(a + b, start) == Crc(b, Crc(a, start))
  {
    hide Update, Fold, Flip;
    FoldAppend(Flip(start), a, b);
    DoubleFlip(Fold(Flip(start), a));
  }

  lemma {:induction false} DoubleFlip(x: bv32)
    ensures Flip(Flip(x)) == x
  {
  }

  /** Four bytes, least significant first. */
  function LE4(c: bv32): (b: Bytes)
    ensures |b| == 4
  {
    [LowByte(c), LowByte(Eighth(c)), LowByte(Eighth(Eighth(c))), LowByte(Eighth(Eighth(Eighth(c))))]
  }

  function LowByte(c: bv32): byte { LowEight(c) as int }
}
