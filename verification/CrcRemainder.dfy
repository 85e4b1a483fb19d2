/**
  What the table-free CRC-32 computes: the remainder of a polynomial over GF(2), taken by long division
  on bit sequences, highest power first; and the residue a receiver finds behind a message with its CRC.
 */
module CrcRemainder {
  import opened ByteCodec
  import opened Crc32

  // ---------------------------------------------------------------- long division

  type Bits = seq<bool>

  /** The powers of x in the generator of section 8 of RFC 1952. */
  const POWERS: set<int> := {32, 26, 23, 22, 16, 12, 11, 10, 8, 7, 5, 4, 2, 1, 0}

  function Generator(): (g: Bits)
    ensures |g| == 33
  {
    seq(33, i => 32 - i in POWERS)
  }

  /** `b` added to the leading terms of `a`: over GF(2) that is exclusive or. */
  function AddLeading(a: Bits, b: Bits): (r: Bits)
    requires |b| <= |a|
    ensures |r| == |a|
  {
    seq(|a|, i requires 0 <= i < |a| => if i < |b| then a[i] != b[i] else a[i])
  }

  /** The remainder by the generator: the leading term is cancelled until 32 terms are left. */
  function Remainder(a: Bits): (r: Bits)
    requires |a| >= 32
    ensures |r| == 32
    decreases |a|
  {
    if |a| == 32 then a
    else if a[0] then Remainder(AddLeading(a, Generator())[1..])
    else Remainder(a[1..])
  }

  // ---------------------------------------------------------------- bits of words and bytes

  /** Bit `k` of a word, bit 0 the least significant. */
  function Bit(c: bv32, k: nat): bool { if k == 0 then Low(c) else Bit(Half(c), k - 1) }

  function WordBits(c: bv32): (b: Bits)
    ensures |b| == 32
  {
    seq(32, k requires 0 <= k => Bit(c, k))
  }

  /** A byte as it is transmitted, least significant bit first. */
  function ByteBits(x: byte): (b: Bits)
    ensures |b| == 8
  {
    seq(8, k requires 0 <= k => Bit(x as bv32, k))
  }

  function MessageBits(b: Bytes): Bits {
    if b == [] then [] else MessageBits(b[..|b| - 1]) + ByteBits(b[|b| - 1])
  }

  function Zeros(n: nat): (b: Bits)
    ensures |b| == n
  {
    seq(n, i => false)
  }

  lemma {:induction false} PlusParts(x: bv32, y: bv32)
    ensures Half(Plus(x, y)) == Plus(Half(x), Half(y))
    ensures Low(Plus(x, y)) == (Low(x) != Low(y))
  {
  }

  lemma {:induction false} BitPlus(x: bv32, y: bv32, k: nat)
    ensures Bit(Plus(x, y), k) == (Bit(x, k) != Bit(y, k))
    decreases k
  {
    hide Low, Half, Plus;
    PlusParts(x, y);
    if k > 0 { BitPlus(Half(x), Half(y), k - 1); }
  }

  lemma {:induction false} ZeroParts()
    ensures !Low(0) && Half(0) == 0
  {
  }

  lemma {:induction false} BitZero(k: nat)
    ensures !Bit(0, k)
  {
    hide Low, Half;
    ZeroParts();
    if k > 0 { BitZero(k - 1); }
  }

  lemma {:induction false} EightHalves(x: bv32)
    ensures Half(Half(Half(Half(Half(Half(Half(Half(x)))))))) == Eighth(x)
  {
  }

  lemma {:induction false} BitOfHalves(x: bv32, k: nat)
    ensures Bit(x, k + 4) == Bit(Half(Half(Half(Half(x)))), k)
  {
    hide Low, Half;
    assert Bit(x, k + 4) == Bit(Half(x), k + 3) == Bit(Half(Half(x)), k + 2);
    assert Bit(Half(Half(x)), k + 2) == Bit(Half(Half(Half(x))), k + 1) == Bit(Half(Half(Half(Half(x)))), k);
  }

  lemma {:induction false} BitOfEighth(x: bv32, k: nat)
    ensures Bit(x, k + 8) == Bit(Eighth(x), k)
  {
    hide Low, Half, Bit, Eighth;
    BitOfHalves(x, k + 4);
    BitOfHalves(Half(Half(Half(Half(x)))), k);
    EightHalves(x);
  }

  lemma {:induction false} FourEighths(x: bv32)
    ensures Eighth(Eighth(Eighth(Eighth(x)))) == 0
  {
  }

  lemma {:induction false} BitBeyond(x: bv32, k: nat)
    ensures !Bit(x, k + 32)
  {
    hide Bit, Eighth;
    BitOfEighth(x, k + 24);
    BitOfEighth(Eighth(x), k + 16);
    BitOfEighth(Eighth(Eighth(x)), k + 8);
    BitOfEighth(Eighth(Eighth(Eighth(x))), k);
    FourEighths(x);
    BitZero(k);
  }

  lemma {:induction false} ByteIsShort(x: byte)
    ensures Eighth(x as bv32) == 0
  {
  }

  lemma {:induction false} ByteBeyond(x: byte, k: nat)
    ensures !Bit(x as bv32, k + 8)
  {
    hide Bit, Eighth;
    BitOfEighth(x as bv32, k);
    ByteIsShort(x);
    BitZero(k);
  }

  // ---------------------------------------------------------------- one round is one division step

  /** The reflected constant: bit `k` is the coefficient of x^(31 - k). */
  lemma {:induction false} Coefficients(k: nat)
    requires k < 32
    ensures Bit(0xEDB8_8320, k) == (31 - k in POWERS)
  {
    if k < 8 {
      EightBits(0xEDB8_8320, k);
    } else if k < 16 {
      BitOfEighth(0xEDB8_8320, k - 8);
      EightBits(0xED_B883, k - 8);
    } else if k < 24 {
      BitOfEighth(0xEDB8_8320, k - 8);
      BitOfEighth(0xED_B883, k - 16);
      EightBits(0xEDB8, k - 16);
    } else {
      BitOfEighth(0xEDB8_8320, k - 8);
      BitOfEighth(0xED_B883, k - 16);
      BitOfEighth(0xEDB8, k - 24);
      EightBits(0xED, k - 24);
    }
  }

  /** The lowest eight bits of a word. */
  lemma {:induction false} EightBits(x: bv32, k: nat)
    requires k < 8
    ensures Bit(x, k) ==
      if k == 0 then x & 1 == 1 else if k == 1 then x & 2 == 2 else if k == 2 then x & 4 == 4
      else if k == 3 then x & 8 == 8 else if k == 4 then x & 16 == 16 else if k == 5 then x & 32 == 32
      else if k == 6 then x & 64 == 64 else x & 128 == 128
  {
    if k < 4 { LowFour(x, k); } else {
      BitOfHalves(x, k - 4);
      LowFour(Half(Half(Half(Half(x)))), k - 4);
    }
  }

  lemma {:induction false} LowParts(x: bv32)
    ensures Low(x) == (x & 1 == 1) && Low(Half(x)) == (x & 2 == 2)
    ensures Low(Half(Half(x))) == (x & 4 == 4) && Low(Half(Half(Half(x)))) == (x & 8 == 8)
  {
  }

  lemma {:induction false} LowFour(x: bv32, k: nat)
    requires k < 4
    ensures Bit(x, k) ==
      if k == 0 then x & 1 == 1 else if k == 1 then x & 2 == 2 else if k == 2 then x & 4 == 4 else x & 8 == 8
  {
    LowParts(x);
    hide Low, Half;
    assert Bit(x, 1) == Bit(Half(x), 0);
    assert Bit(x, 2) == Bit(Half(x), 1) == Bit(Half(Half(x)), 0);
    assert Bit(x, 3) == Bit(Half(x), 2) == Bit(Half(Half(x)), 1) == Bit(Half(Half(Half(x))), 0);
  }

  lemma {:induction false} RoundBits(c: bv32, k: nat)
    requires k < 32
    ensures Bit(Round(c), k) == (Bit(c, k + 1) != (Low(c) && 31 - k in POWERS))
  {
    Coefficients(k);
    hide Low, Half, Plus, POWERS;
    assert Bit(c, k + 1) == Bit(Half(c), k);
    BitPlus(0xEDB8_8320, Half(c), k);
  }

  /** A round of the CRC divides one more zero bit. */
  lemma {:induction false} RoundDivides(c: bv32, rest: Bits)
    requires |rest| >= 32
    ensures Remainder(AddLeading([false] + rest, WordBits(c))) == Remainder(AddLeading(rest, WordBits(Round(c))))
  {
    var a := AddLeading([false] + rest, WordBits(c));
    var next := if a[0] then AddLeading(a, Generator())[1..] else a[1..];
    var goal := AddLeading(rest, WordBits(Round(c)));
    assert a[0] == Bit(c, 0) == Low(c);
    forall i | 0 <= i < |rest| ensures next[i] == goal[i] {
      if i < 32 { RoundBits(c, i); }
      if i == 31 { BitBeyond(c, 0); }
    }
    assert next == goal;
  }

  lemma {:induction false} RoundsDivide(c: bv32, n: nat, rest: Bits)
    requires |rest| >= 32
    ensures Remainder(AddLeading(Zeros(n) + rest, WordBits(c))) == Remainder(AddLeading(rest, WordBits(Rounds(c, n))))
    decreases n
  {
    hide Remainder, AddLeading, WordBits, Round;
    if n == 0 {
      assert Zeros(0) + rest == rest;
    } else {
      assert Zeros(n) + rest == [false] + (Zeros(n - 1) + rest);
      RoundDivides(c, Zeros(n - 1) + rest);
      RoundsDivide(Round(c), n - 1, rest);
    }
  }

  // ---------------------------------------------------------------- a byte is eight rounds

  /** The lowest `k` bits are zero. */
  predicate LowZero(c: bv32, k: nat) { k == 0 || (!Low(c) && LowZero(Half(c), k - 1)) }

  function Halves(c: bv32, k: nat): bv32 { if k == 0 then c else Halves(Half(c), k - 1) }

  lemma {:induction false} PlusSwap(x: bv32, y: bv32, z: bv32)
    ensures Plus(x, Plus(y, z)) == Plus(Plus(x, y), z)
  {
  }

  /** Bits that no round reaches pass through. */
  lemma {:induction false} RoundsPlus(a: bv32, b: bv32, k: nat)
    requires LowZero(b, k)
    ensures Rounds(Plus(a, b), k) == Plus(Rounds(a, k), Halves(b, k))
    decreases k
  {
    hide Low, Half, Plus;
    if k > 0 {
      PlusParts(a, b);
      PlusSwap(0xEDB8_8320, Half(a), Half(b));
      RoundsPlus(Round(a), Half(b), k - 1);
    }
  }

  lemma {:induction false} HighPart(y: bv32)
    ensures y == Plus(LowEight(y), y & 0xFFFF_FF00) && Eighth(y & 0xFFFF_FF00) == Eighth(y)
  {
  }

  lemma {:induction false} HighPartLow(y: bv32)
    ensures LowZero(y & 0xFFFF_FF00, 8) && Halves(y & 0xFFFF_FF00, 8) == Eighth(y & 0xFFFF_FF00)
  {
    hide Low, Half, Eighth, LowZero, Halves;
    var z := y & 0xFFFF_FF00;
    LowBitsZero(z);
    EightHalves(z);
    FourHalves(z, 4);
    FourHalves(Half(Half(Half(Half(z)))), 0);
    NoHalves(Half(Half(Half(Half(Half(Half(Half(Half(z)))))))));
  }

  lemma {:induction false} NoHalves(z: bv32)
    ensures LowZero(z, 0) && Halves(z, 0) == z
  {
  }

  lemma {:induction false} FourHalves(z: bv32, k: nat)
    requires !Low(z) && !Low(Half(z)) && !Low(Half(Half(z))) && !Low(Half(Half(Half(z))))
    ensures LowZero(z, k + 4) == LowZero(Half(Half(Half(Half(z)))), k)
    ensures Halves(z, k + 4) == Halves(Half(Half(Half(Half(z)))), k)
  {
    hide Low, Half;
    assert LowZero(z, k + 4) == LowZero(Half(z), k + 3) == LowZero(Half(Half(z)), k + 2);
    assert LowZero(Half(Half(z)), k + 2) == LowZero(Half(Half(Half(z))), k + 1);
    assert Halves(z, k + 4) == Halves(Half(z), k + 3) == Halves(Half(Half(z)), k + 2);
    assert Halves(Half(Half(z)), k + 2) == Halves(Half(Half(Half(z))), k + 1);
  }

  lemma {:induction false} LowBitsZero(z: bv32)
    requires z & 0xFF == 0
    ensures !Low(z) && !Low(Half(z)) && !Low(Half(Half(z))) && !Low(Half(Half(Half(z))))
    ensures var h := Half(Half(Half(Half(z))));
      !Low(h) && !Low(Half(h)) && !Low(Half(Half(h))) && !Low(Half(Half(Half(h))))
  {
  }

  lemma {:induction false} EighthPlus(c: bv32, d: bv32)
    requires Eighth(d) == 0
    ensures Eighth(Plus(c, d)) == Eighth(c)
  {
  }

  lemma {:induction false} UpdateParts(c: bv32, x: byte)
    ensures var y := Plus(c, x as bv32);
      Update(c, x) == Plus(Rounds(LowEight(y), 8), Eighth(y))
  {
    hide Rounds, Plus, Eighth, LowEight;
    ByteIsShort(x);
    EighthPlus(c, x as bv32);
  }

  lemma {:induction false} UpdateIsRounds(c: bv32, x: byte)
    ensures Update(c, x) == Rounds(Plus(c, x as bv32), 8)
  {
    hide Low, Half, Plus, Eighth, LowEight, Rounds, Update, LowZero, Halves;
    var y := Plus(c, x as bv32);
    UpdateParts(c, x);
    HighPart(y);
    HighPartLow(y);
    RoundsPlus(LowEight(y), y & 0xFFFF_FF00, 8);
  }

  /** Adding a word to the front of a byte's bits is adding the word and the byte to zeros. */
  lemma {:induction false} ByteIntoWord(c: bv32, x: byte, rest: Bits)
    requires |rest| >= 32
    ensures AddLeading(ByteBits(x) + rest, WordBits(c)) == AddLeading(Zeros(8) + rest, WordBits(Plus(c, x as bv32)))
  {
    var a, b := AddLeading(ByteBits(x) + rest, WordBits(c)), AddLeading(Zeros(8) + rest, WordBits(Plus(c, x as bv32)));
    hide Bit, Plus;
    forall i | 0 <= i < |a| ensures a[i] == b[i] {
      if i < 32 { BitPlus(c, x as bv32, i); }
      if 8 <= i < 32 { ByteBeyond(x, i - 8); }
    }
  }

  /** A byte of the message divides its eight bits. */
  lemma {:induction false} ByteDivides(c: bv32, x: byte, rest: Bits)
    requires |rest| >= 32
    ensures Remainder(AddLeading(ByteBits(x) + rest, WordBits(c)))
      == Remainder(AddLeading(rest, WordBits(Update(c, x))))
  {
    hide Remainder, AddLeading, WordBits, ByteBits, Update, Plus;
    ByteIntoWord(c, x, rest);
    UpdateIsRounds(c, x);
    RoundsDivide(Plus(c, x as bv32), 8, rest);
  }

  lemma {:induction false} MessageDivides(c: bv32, b: Bytes, rest: Bits)
    requires |rest| >= 32
    ensures Remainder(AddLeading(MessageBits(b) + rest, WordBits(c)))
      == Remainder(AddLeading(rest, WordBits(Fold(c, b))))
  {
    hide Remainder, AddLeading, WordBits, Update, ByteBits;
    if b == [] {
      assert [] + rest == rest;
    } else {
      var front, x := b[..|b| - 1], b[|b| - 1];
      assert MessageBits(b) + rest == MessageBits(front) + (ByteBits(x) + rest);
      MessageDivides(c, front, ByteBits(x) + rest);
      ByteDivides(Fold(c, front), x, rest);
    }
  }

  /** Every bit turned over. */
  function Negated(a: Bits): (r: Bits)
    ensures |r| == |a|
  {
    seq(|a|, i requires 0 <= i < |a| => !a[i])
  }

  lemma {:induction false} FlipBits(c: bv32, k: nat)
    requires k < 32
    ensures Bit(Flip(c), k) != Bit(c, k)
  {
    AllOnes(k);
    assert Flip(c) == Plus(c, 0xFFFF_FFFF);
    BitPlus(c, 0xFFFF_FFFF, k);
  }

  lemma {:induction false} AllOnes(k: nat)
    requires k < 32
    ensures Bit(0xFFFF_FFFF, k)
  {
    if k < 8 {
      EightBits(0xFFFF_FFFF, k);
    } else if k < 16 {
      BitOfEighth(0xFFFF_FFFF, k - 8);
      EightBits(0xFF_FFFF, k - 8);
    } else if k < 24 {
      BitOfEighth(0xFFFF_FFFF, k - 8);
      BitOfEighth(0xFF_FFFF, k - 16);
      EightBits(0xFFFF, k - 16);
    } else {
      BitOfEighth(0xFFFF_FFFF, k - 8);
      BitOfEighth(0xFF_FFFF, k - 16);
      BitOfEighth(0xFFFF, k - 24);
      EightBits(0xFF, k - 24);
    }
  }

  /**
    The CRC of any message is a polynomial remainder: append 32 zero bits to the message, turn its first
    32 bits over, divide by x^32 + x^26 + x^23 + x^22 + x^16 + x^12 + x^11 + x^10 + x^8 + x^7 + x^5 + x^4
    + x^2 + x + 1, and turn the remainder's bits over.
   */
  lemma {:induction false} CrcIsRemainder(b: Bytes)
    ensures var padded := MessageBits(b) + Zeros(32);
      WordBits(Crc(b, 0)) == Negated(Remainder(AddLeading(padded, Negated(Zeros(32)))))
  {
    var start := Flip(0);
    var c := Fold(start, b);
    FlippedBits(0);
    FlippedBits(c);
    ZeroBits();
    ZerosAdded(WordBits(c));
    hide Remainder, AddLeading, WordBits, MessageBits, Fold, Flip, Negated;
    MessageDivides(start, b, Zeros(32));
    LongEnough(WordBits(c));
  }

  lemma {:induction false} FlippedBits(c: bv32)
    ensures WordBits(Flip(c)) == Negated(WordBits(c))
  {
    hide Bit, Flip;
    forall k | 0 <= k < 32 ensures WordBits(Flip(c))[k] == !WordBits(c)[k] { FlipBits(c, k); }
  }

  lemma {:induction false} ZeroBits()
    ensures WordBits(0) == Zeros(32)
  {
    hide Bit;
    forall k | 0 <= k < 32 ensures !WordBits(0)[k] { BitZero(k); }
  }

  lemma {:induction false} ZerosAdded(a: Bits)
    ensures AddLeading(Zeros(|a|), a) == a
  {
  }

  lemma {:induction false} LongEnough(a: Bits)
    requires |a| == 32
    ensures Remainder(a) == a
  {
  }

  // ---------------------------------------------------------------- the residue

  lemma {:induction false} LowByteWord(c: bv32)
    ensures LowByte(c) as bv32 == LowEight(c)
  {
    WordAndBack(LowEight(c));
    hide LowEight;
  }

  lemma {:induction false} WordAndBack(c: bv32)
    ensures (c as int) as bv32 == c
  {
  }

  lemma {:induction false} PlusAssoc(x: bv32, y: bv32, z: bv32)
    ensures Plus(Plus(x, y), z) == Plus(x, Plus(y, z))
  {
  }

  /** Folding in the lowest byte of a word leaves the rest of the word eight rounds behind. */
  lemma {:induction false} LowByteFolds(c: bv32, w: bv32)
    ensures Plus(Update(c, LowByte(w)), Eighth(w)) == Rounds(Plus(c, w), 8)
  {
    hide Low, Half, Plus, Eighth, LowEight, Rounds, Update, LowZero, Halves;
    LowByteWord(w);
    UpdateIsRounds(c, LowByte(w));
    HighPart(w);
    HighPartLow(w);
    PlusAssoc(c, LowEight(w), w & 0xFFFF_FF00);
    RoundsPlus(Plus(c, LowEight(w)), w & 0xFFFF_FF00, 8);
  }

  lemma {:induction false} PlusZero(c: bv32)
    ensures Plus(c, 0) == c
  {
  }

  /** Folding in a whole word is 32 rounds of the word added to the register. */
  lemma {:induction false} WordFolds(c: bv32, w: bv32)
    ensures Fold(c, LE4(w)) == Rounds(Rounds(Rounds(Rounds(Plus(c, w), 8), 8), 8), 8)
  {
    var w1, w2, w3 := Eighth(w), Eighth(Eighth(w)), Eighth(Eighth(Eighth(w)));
    var c1 := Update(c, LowByte(w));
    var c2 := Update(c1, LowByte(w1));
    var c3 := Update(c2, LowByte(w2));
    var c4 := Update(c3, LowByte(w3));
    hide Plus, Eighth, Rounds, Update, LowByte;
    LowByteFolds(c, w);
    LowByteFolds(c1, w1);
    LowByteFolds(c2, w2);
    LowByteFolds(c3, w3);
    FourEighths(w);
    PlusZero(c4);
    FoldFour(c, LowByte(w), LowByte(w1), LowByte(w2), LowByte(w3));
  }

  lemma {:induction false} FoldFour(c: bv32, x: byte, y: byte, z: byte, w: byte)
    ensures Fold(c, [x, y, z, w]) == Update(Update(Update(Update(c, x), y), z), w)
  {
    hide Update;
    assert [x, y, z, w][..3] == [x, y, z] && [x, y, z][..2] == [x, y] && [x, y][..1] == [x] && [x][..0] == [];
    assert Fold(c, [x]) == Update(c, x);
    assert Fold(c, [x, y]) == Update(Update(c, x), y);
    assert Fold(c, [x, y, z]) == Update(Update(Update(c, x), y), z);
  }

  lemma {:induction false} PlusFlip(c: bv32)
    ensures Plus(c, Flip(c)) == 0xFFFF_FFFF
  {
  }

  lemma {:induction false} OnesThroughRounds()
    ensures Rounds(Rounds(Rounds(Rounds(0xFFFF_FFFF, 8), 8), 8), 8) == 0xDEBB_20E3
  {
    assert Rounds(0xFFFF_FFFF, 8) == 0x2DFD_1072;
    assert Rounds(0x2DFD_1072, 8) == 0xBE26_ED00;
    assert Rounds(0xBE26_ED00, 8) == 0x00BE_26ED;
    assert Rounds(0x00BE_26ED, 8) == 0xDEBB_20E3;
  }

  /** A message followed by its own CRC, lowest byte first, always has the same CRC. */
  lemma {:induction false} Residue(b: Bytes)
    ensures Crc(b + LE4(Crc(b, 0)), 0) == 0x2144_DF1C
  {
    var c := Fold(Flip(0), b);
    hide Fold, LE4, Rounds, Plus;
    FoldAppend(Flip(0), b, LE4(Flip(c)));
    WordFolds(c, Flip(c));
    PlusFlip(c);
    OnesThroughRounds();
  }
}
