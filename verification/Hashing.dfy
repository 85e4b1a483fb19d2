/**
  The two hashes behind spine choice and packet draws: FNV-1a over a flow's text and the SplitMix64
  finaliser.  Both are one-to-one where it matters: texts name flows, texts one byte apart never
  collide, and over all seeds every index of a draw comes up equally often.
 */
module Hashing {
  import opened Arith
  import opened ByteCodec
  import opened SpineSelect

  // ---------------------------------------------------------------- exclusive or

  lemma {:induction false} XorHalves(a: nat, b: nat)
    ensures Xor(a, b) / 2 == Xor(a / 2, b / 2) && Xor(a, b) % 2 == (a + b) % 2
  {
  }

  lemma {:induction false} SameHalves(a: nat, b: nat)
    requires a / 2 == b / 2 && a % 2 == b % 2
    ensures a == b
  {
  }

  lemma {:induction false} Parity(p: nat, q: nat, a: nat, b: nat, c: nat)
    requires p % 2 == (a + b) % 2 && q % 2 == (b + c) % 2
    ensures (p + c) % 2 == (a + q) % 2
  {
  }

  lemma {:induction false} XorAssoc(a: nat, b: nat, c: nat)
    ensures Xor(Xor(a, b), c) == Xor(a, Xor(b, c))
    decreases a + b + c
  {
    if a != 0 && b != 0 && c != 0 {
      hide Xor;
      var ab, bc := Xor(a, b), Xor(b, c);
      XorHalves(a, b);
      XorHalves(b, c);
      XorHalves(ab, c);
      XorHalves(a, bc);
      XorAssoc(a / 2, b / 2, c / 2);
      Parity(ab, bc, a, b, c);
      SameHalves(Xor(ab, c), Xor(a, bc));
    }
  }

  lemma {:induction false} XorSelf(a: nat)
    ensures Xor(a, a) == 0
  {
    if a != 0 { XorSelf(a / 2); }
  }

  lemma {:induction false} XorZero(a: nat)
    ensures Xor(a, 0) == a && Xor(0, a) == a
  {
  }

  /** What is added twice drops out. */
  lemma {:induction false} XorCancels(a: nat, b: nat)
    ensures Xor(Xor(a, b), b) == a
  {
    XorAssoc(a, b, b);
    XorSelf(b);
    XorZero(a);
  }

  /** `a >> k`. */
  function Shr(a: nat, k: nat): nat { if k == 0 then a else Shr(a, k - 1) / 2 }

  lemma {:induction false} ShrIs(a: nat, k: nat)
    ensures Shr(a, k) == a / Pow2(k)
  {
    if k > 0 {
      ShrIs(a, k - 1);
      HalfQuotient(a, Pow2(k - 1));
    }
  }

  lemma {:induction false} HalfQuotient(a: nat, m: nat)
    requires m > 0
    ensures a / m / 2 == a / (2 * m)
  {
    var q, r, h := a / m, a % m, a / m / 2;
    assert a == m * q + r;
    if q % 2 == 0 {
      assert q == 2 * h;
      assert a == r + 2 * m * h;
      ModUnique(a, r, h, 2 * m);
    } else {
      assert q == 2 * h + 1;
      assert a == (m + r) + 2 * m * h;
      ModUnique(a, m + r, h, 2 * m);
    }
  }

  lemma {:induction false} XorShr(a: nat, b: nat, k: nat)
    ensures Shr(Xor(a, b), k) == Xor(Shr(a, k), Shr(b, k))
  {
    if k > 0 {
      XorShr(a, b, k - 1);
      XorHalves(Shr(a, k - 1), Shr(b, k - 1));
      hide Xor;
    }
  }

  lemma {:induction false} XorBound(a: nat, b: nat, k: nat)
    requires a < Pow2(k) && b < Pow2(k)
    ensures Xor(a, b) < Pow2(k)
  {
    if k > 0 { XorBound(a / 2, b / 2, k - 1); }
  }

  lemma {:induction false} Pow2Of16()
    ensures Pow2(16) == 0x1_0000
  {
    assert Pow2(2) == 4;
    Pow2Sum(2, 2);
    Pow2Sum(4, 4);
    Pow2Sum(8, 8);
  }

  lemma {:induction false} Pow2Of64()
    ensures Pow2(64) == TWO64
  {
    hide Pow2;
    Pow2Of16();
    Pow2Sum(16, 16);
    Pow2Sum(32, 32);
  }

  lemma {:induction false} Pow2Sum(m: nat, n: nat)
    ensures Pow2(m + n) == Pow2(m) * Pow2(n)
  {
    if m > 0 { Pow2Sum(m - 1, n); }
  }

  // ---------------------------------------------------------------- one-to-one steps

  /** Shift by a third of the width or more, and back. */
  lemma {:induction false} XorShiftBack(x: nat, k: nat)
    requires x < TWO64 && k >= 22
    ensures var y := Xor(x, Shr(x, k));
      y < TWO64 && x == Xor(y, Xor(Shr(y, k), Shr(Shr(y, k), k)))
  {
    var x1, x2 := Shr(x, k), Shr(Shr(x, k), k);
    Pow2Of64();
    ShiftedOut(x, k);
    hide Xor, Shr, Pow2;
    XorBound(x, x1, 64);
    XorShr(x, x1, k);
    XorShr(x1, x2, k);
    XorZero(x2);
    XorCancels(x1, x2);
    XorCancels(x, x1);
  }

  lemma {:induction false} ShiftedOut(x: nat, k: nat)
    requires x < TWO64 && k >= 22
    ensures Shr(x, k) <= x && Shr(Shr(Shr(x, k), k), k) == 0
  {
    var m, x1, x2 := Pow2(k), Shr(x, k), Shr(Shr(x, k), k);
    Pow2Of22();
    Pow2Monotone(22, k);
    ShrIs(x, k);
    ShrIs(x1, k);
    ShrIs(x2, k);
    hide Pow2, Shr;
    SmallerQuotient(x, m, 0x40_0000);
    SmallerQuotient(x1, m, 0x40_0000);
    SmallerQuotient(x2, m, 0x40_0000);
  }

  lemma {:induction false} Pow2Of22()
    ensures Pow2(22) == 0x40_0000
  {
    assert Pow2(1) == 2 && Pow2(5) == 32;
    Pow2Sum(5, 5);
    Pow2Sum(10, 1);
    Pow2Sum(11, 11);
  }

  lemma {:induction false} SmallerQuotient(x: nat, m: nat, n: nat)
    requires m >= n >= 1
    ensures n * (x / m) <= x
  {
    assert x == m * (x / m) + x % m;
    assert (m - n) * (x / m) >= 0;
  }

  /** Multiplying by an odd constant modulo 2^64 can be undone. */
  lemma {:induction false} TimesBack(x: nat, c: nat, inverse: nat, carry: nat)
    requires x < TWO64 && c * inverse == 1 + TWO64 * carry
    ensures (x * c % TWO64) * inverse % TWO64 == x
  {
    var q := x * c / TWO64;
    assert x * c == TWO64 * q + x * c % TWO64;
    assert x * c * inverse == x + TWO64 * (x * carry) by { assert x * (c * inverse) == x + TWO64 * (x * carry); }
    assert (x * c % TWO64) * inverse == x + TWO64 * (x * carry - q * inverse) by {
      assert (x * c - TWO64 * q) * inverse == x * c * inverse - TWO64 * (q * inverse);
    }
    ModUnique((x * c % TWO64) * inverse, x, x * carry - q * inverse, TWO64);
  }

  lemma {:induction false} XorShiftApart(x: nat, y: nat, k: nat)
    requires x < TWO64 && y < TWO64 && k >= 22 && Xor(x, Shr(x, k)) == Xor(y, Shr(y, k))
    ensures x == y
  {
    hide Xor, Shr;
    XorShiftBack(x, k);
    XorShiftBack(y, k);
  }

  lemma {:induction false} Shifts(x: nat)
    ensures Shr(x, 30) == x / 0x4000_0000 && Shr(x, 27) == x / 0x800_0000 && Shr(x, 31) == x / 0x8000_0000
  {
    assert Pow2(1) == 2 && Pow2(4) == 16 && Pow2(5) == 32;
    Pow2Of22();
    Pow2Sum(22, 5);
    Pow2Sum(22, 4);
    Pow2Sum(26, 4);
    Pow2Sum(30, 1);
    hide Pow2, Shr;
    ShrIs(x, 30);
    ShrIs(x, 27);
    ShrIs(x, 31);
  }

  /** One shift and multiplication of the finaliser. */
  function Round(x: nat, k: nat, c: nat): nat { Xor(x, Shr(x, k)) * c % TWO64 }

  lemma {:induction false} RoundApart(x: nat, y: nat, k: nat, c: nat, inverse: nat, carry: nat)
    requires x < TWO64 && y < TWO64 && k >= 22 && c * inverse == 1 + TWO64 * carry
    requires Round(x, k, c) == Round(y, k, c)
    ensures x == y
  {
    hide Xor, Shr;
    XorShiftBack(x, k);
    XorShiftBack(y, k);
    TimesBack(Xor(x, Shr(x, k)), c, inverse, carry);
    TimesBack(Xor(y, Shr(y, k)), c, inverse, carry);
    XorShiftApart(x, y, k);
  }

  lemma {:induction false} AvalancheInRounds(x: nat)
    requires x < TWO64
    ensures var z := Round(Round(x, 30, 0xbf58_476d_1ce4_e5b9), 27, 0x94d0_49bb_1331_11eb);
      Avalanche(x) == Xor(z, Shr(z, 31)) < TWO64
  {
    hide Xor, Shr;
    var y := Round(x, 30, 0xbf58_476d_1ce4_e5b9);
    var z := Round(y, 27, 0x94d0_49bb_1331_11eb);
    Shifts(x);
    Shifts(y);
    Shifts(z);
    XorShiftBack(z, 31);
  }

  /** The SplitMix64 finaliser maps different 64-bit values to different 64-bit values. */
  lemma {:induction false} AvalancheOneToOne(x: nat, y: nat)
    requires x < TWO64 && y < TWO64
    ensures Avalanche(x) < TWO64 && (Avalanche(x) == Avalanche(y) <==> x == y)
  {
    AvalancheInRounds(x);
    AvalancheInRounds(y);
    var c, d := 0xbf58_476d_1ce4_e5b9, 0x94d0_49bb_1331_11eb;
    var x1, y1 := Round(x, 30, c), Round(y, 30, c);
    var x2, y2 := Round(x1, 27, d), Round(y1, 27, d);
    if Avalanche(x) == Avalanche(y) {
      hide Xor, Shr, Avalanche;
      XorShiftApart(x2, y2, 31);
      RoundApart(x1, y1, 27, d, 0x3196_42b2_d24d_8ec3, 0x1cd3_36ed_a85f_1453);
      RoundApart(x, y, 30, c, 0x96de_1b17_3f11_9089, 0x70c3_bca7_8f27_f46c);
    }
  }

  // ---------------------------------------------------------------- every index equally often

  /** The 64-bit values for which draw `step` gives index `j` of a pool of `size`. */
  ghost function SeedsFor(step: nat, size: nat, j: nat): set<int>
    requires size > 0
  {
    set b: int | 0 <= b < TWO64 && DrawIndex(b, step, size) == j
  }

  /** The numbers below `n` with remainder `j`. */
  ghost function WithRemainder(n: nat, size: nat, j: nat): set<int>
    requires size > 0
  {
    set y: int | 0 <= y < n && y % size == j
  }

  lemma {:induction false} RemainderStep(n: nat, size: nat, j: nat)
    requires j < size
    ensures |WithRemainder(n + 1, size, j)| == |WithRemainder(n, size, j)| + if n % size == j then 1 else 0
  {
    assert WithRemainder(n + 1, size, j) == WithRemainder(n, size, j) + if n % size == j then {n} else {};
  }

  lemma {:induction false} RemainderCount(n: nat, size: nat, j: nat)
    requires j < size
    ensures size * |WithRemainder(n, size, j)| - size < n - j <= size * |WithRemainder(n, size, j)|
  {
    if n == 0 {
      assert WithRemainder(0, size, j) == {};
    } else {
      var count := |WithRemainder(n - 1, size, j)|;
      RemainderCount(n - 1, size, j);
      RemainderStep(n - 1, size, j);
      hide WithRemainder;
      NextRemainder(n - 1, size, j, count);
      assert size * (count + 1) == size * count + size;
    }
  }

  lemma {:induction false} NextRemainder(n: nat, size: nat, j: nat, count: nat)
    requires j < size && size * count - size < n - j <= size * count
    ensures n % size == j <==> n - j == size * count
  {
    if n - j == size * count {
      ModUnique(n, j, count, size);
    } else if n % size == j {
      var q := n / size;
      assert n == size * q + j;
      assert size * (count - q) == size * count - size * q;
      if count != q { MulApart(size, count - q); }
    }
  }

  lemma {:induction false} ImageSize<A, B>(s: set<A>, t: set<B>, f: A -> B)
    requires forall x :: x in s ==> f(x) in t
    requires forall x, y :: x in s && y in s && f(x) == f(y) ==> x == y
    ensures |s| <= |t|
    decreases |s|
  {
    if s == {} {
      assert |s| == 0;
    } else {
      var x :| x in s;
      ImageSize(s - {x}, t - {f(x)}, f);
    }
  }

  /** A one-to-one map of a range into itself hits a set of values as often as the set has members. */
  lemma {:induction false} PreimageSize(n: nat, s: set<int>, t: set<int>, f: int -> int)
    requires s <= Range(0, n) && t <= Range(0, n)
    requires forall x :: 0 <= x < n ==> 0 <= f(x) < n && (x in s <==> f(x) in t)
    requires forall x, y :: 0 <= x < n && 0 <= y < n && f(x) == f(y) ==> x == y
    ensures |s| == |t|
  {
    var all := Range(0, n);
    ImageSize(s, t, f);
    ImageSize(all - s, all - t, f);
    assert |all| == |s| + |all - s| by { assert all == s + (all - s); }
    assert |all| == |t| + |all - t| by { assert all == t + (all - t); }
  }

  function Mixed(b: nat, step: nat): nat { Avalanche((b + step * SPLITMIX_GAMMA) % TWO64) }

  lemma {:induction false} MixedOneToOne(a: nat, b: nat, step: nat)
    requires a < TWO64 && b < TWO64
    ensures Mixed(a, step) < TWO64 && (Mixed(a, step) == Mixed(b, step) ==> a == b)
  {
    var g := step * SPLITMIX_GAMMA;
    AvalancheOneToOne((a + g) % TWO64, (b + g) % TWO64);
    SameResidue(a + g, b + g, g, TWO64);
  }

  /**
    For every step, pool size and index, the number of 64-bit seeds whose draw is that index is within
    one of 2^64 / size: no spine is preferred.
   */
  lemma {:induction false} DrawsAreFair(step: nat, size: nat, j: nat)
    requires j < size
    ensures var count := |SeedsFor(step, size, j)|;
      size * (count - 1) < 0x1_0000_0000_0000_0000 < size * (count + 1)
  {
    var f := (b: int) => if b < 0 then 0 else Mixed(b, step);
    var s, t := SeedsFor(step, size, j), WithRemainder(TWO64, size, j);
    forall x | 0 <= x < TWO64 ensures 0 <= f(x) < TWO64 && (x in s <==> f(x) in t) {
      MixedOneToOne(x, x, step);
    }
    forall x, y | 0 <= x < TWO64 && 0 <= y < TWO64 && f(x) == f(y) ensures x == y { MixedOneToOne(x, y, step); }
    hide Mixed, DrawIndex;
    PreimageSize(TWO64, s, t, f);
    RemainderCount(TWO64, size, j);
  }

  // ---------------------------------------------------------------- FNV-1a

  lemma {:induction false} FnvStepOneToOne(g: nat, h: nat, b: byte, c: byte)
    requires g < TWO64 && h < TWO64 && FnvStep(g, b) == FnvStep(h, c)
    ensures Xor(g, b) == Xor(h, c)
  {
    Pow2Of64();
    XorBound(g, b, 64);
    XorBound(h, c, 64);
    TimesBack(Xor(g, b), FNV_PRIME, 0xce96_5057_aff6_957b, 0xce_9650_590f);
    TimesBack(Xor(h, c), FNV_PRIME, 0xce96_5057_aff6_957b, 0xce_9650_590f);
  }

  lemma {:induction false} XorInjective(a: nat, b: nat, c: nat)
    requires Xor(a, c) == Xor(b, c)
    ensures a == b
  {
    XorCancels(a, c);
    XorCancels(b, c);
  }

  lemma {:induction false} XorComm(a: nat, b: nat)
    ensures Xor(a, b) == Xor(b, a)
  {
    if a != 0 && b != 0 { XorComm(a / 2, b / 2); }
  }

  lemma {:induction false} FnvBound(h: nat, s: Bytes)
    requires h < TWO64
    ensures FnvFrom(h, s) < TWO64
    decreases |s|
  {
    if s != [] { FnvBound(FnvStep(h, s[0]), s[1..]); }
  }

  lemma {:induction false} FnvOneToOne(g: nat, h: nat, s: Bytes)
    requires g < TWO64 && h < TWO64 && g != h
    ensures FnvFrom(g, s) != FnvFrom(h, s)
    decreases |s|
  {
    if s != [] {
      if FnvStep(g, s[0]) == FnvStep(h, s[0]) {
        FnvStepOneToOne(g, h, s[0], s[0]);
        XorInjective(g, h, s[0]);
      }
      hide Xor;
      FnvOneToOne(FnvStep(g, s[0]), FnvStep(h, s[0]), s[1..]);
    }
  }

  lemma {:induction false} FnvAppend(h: nat, a: Bytes, b: Bytes)
    ensures FnvFrom(h, a + b) == FnvFrom(FnvFrom(h, a), b)
    decreases |a|
  {
    hide FnvStep;
    if a == [] {
      assert a + b == b;
    } else {
      assert (a + b)[1..] == a[1..] + b;
      FnvAppend(FnvStep(h, a[0]), a[1..], b);
    }
  }

  /** Texts that differ in one byte never have the same hash. */
  lemma {:induction false} OneByteApart(before: Bytes, x: byte, y: byte, after: Bytes)
    requires x != y
    ensures FnvFrom(FNV_OFFSET, before + [x] + after) != FnvFrom(FNV_OFFSET, before + [y] + after)
  {
    var h := FnvFrom(FNV_OFFSET, before);
    FnvBound(FNV_OFFSET, before);
    assert before + [x] + after == before + ([x] + after) && before + [y] + after == before + ([y] + after);
    FnvAppend(FNV_OFFSET, before, [x] + after);
    FnvAppend(FNV_OFFSET, before, [y] + after);
    assert ([x] + after)[1..] == after && ([y] + after)[1..] == after;
    if FnvStep(h, x) == FnvStep(h, y) {
      FnvStepOneToOne(h, h, x, y);
      XorComm(h, x);
      XorComm(h, y);
      XorInjective(x, y, h);
    }
    hide Xor;
    FnvOneToOne(FnvStep(h, x), FnvStep(h, y), after);
  }

  // ---------------------------------------------------------------- texts name flows

  /** Two texts cut at their first bar. */
  lemma {:induction false} CutAtBar(a: Bytes, b: Bytes, c: Bytes, d: Bytes)
    requires PIPE !in a && PIPE !in c && a + [PIPE] + b == c + [PIPE] + d
    ensures a == c && b == d
  {
    var s, t := a + [PIPE] + b, c + [PIPE] + d;
    assert s[|a|] == PIPE && t[|c|] == PIPE;
    assert |a| == |c|;
    assert s[..|a|] == a && t[..|c|] == c && s[|a| + 1..] == b && t[|c| + 1..] == d;
  }

  lemma {:induction false} DecimalReads(m: nat, n: nat)
    ensures PIPE !in Decimal(n) && Decimal(n) != []
    ensures Decimal(m) == Decimal(n) <==> m == n
    decreases n
  {
    DecimalDigits(n);
    if n >= 10 && m >= 10 {
      DecimalReads(m / 10, n / 10);
      var a, b := Decimal(m), Decimal(n);
      assert a[..|a| - 1] == Decimal(m / 10) && b[..|b| - 1] == Decimal(n / 10);
      assert a[|a| - 1] == 0x30 + m % 10 && b[|b| - 1] == 0x30 + n % 10;
    } else if m >= 10 {
      DecimalDigits(m / 10);
    } else if n >= 10 {
      DecimalDigits(n / 10);
    }
  }

  lemma {:induction false} DecimalDigits(n: nat)
    ensures PIPE !in Decimal(n) && Decimal(n) != []
  {
    if n >= 10 { DecimalDigits(n / 10); }
  }

  /** The part of a flow's text after its addresses. */
  function PortsText(srcPort: nat, dstPort: nat): Bytes {
    Decimal(srcPort) + [PIPE] + (Decimal(dstPort) + [PIPE, 0x31, 0x37])
  }

  lemma {:induction false} PortsTextNamesPorts(s: nat, d: nat, s': nat, d': nat)
    requires PortsText(s, d) == PortsText(s', d')
    ensures s == s' && d == d'
  {
    hide Decimal;
    var rest, rest' := Decimal(d) + [PIPE, 0x31, 0x37], Decimal(d') + [PIPE, 0x31, 0x37];
    DecimalReads(s, s');
    DecimalReads(d, d');
    DecimalDigits(s);
    CutAtBar(Decimal(s), rest, Decimal(s'), rest');
    assert rest[..|rest| - 3] == Decimal(d) && rest'[..|rest'| - 3] == Decimal(d');
  }

  lemma {:induction false} FlowTextParts(f: FlowKey)
    ensures FlowText(f) == f.src + [PIPE] + (f.dst + [PIPE] + PortsText(f.srcPort, f.dstPort))
  {
    hide Decimal;
  }

  /** The text a flow is hashed by determines its addresses and ports. */
  lemma {:induction false} FlowTextNamesFlow(f: FlowKey, g: FlowKey)
    requires PIPE !in f.src && PIPE !in f.dst && PIPE !in g.src && PIPE !in g.dst
    ensures FlowText(f) == FlowText(g) <==> f == g
  {
    if FlowText(f) == FlowText(g) {
      FlowTextParts(f);
      FlowTextParts(g);
      hide FlowText, PortsText;
      var fp, gp := PortsText(f.srcPort, f.dstPort), PortsText(g.srcPort, g.dstPort);
      CutAtBar(f.src, f.dst + [PIPE] + fp, g.src, g.dst + [PIPE] + gp);
      CutAtBar(f.dst, fp, g.dst, gp);
      PortsTextNamesPorts(f.srcPort, f.dstPort, g.srcPort, g.dstPort);
    }
  }

  /** The text an address pair's spines are chosen by determines the pair, up to its order. */
  lemma {:induction false} PairSeedNamesPair(a: Bytes, b: Bytes, c: Bytes, d: Bytes)
    requires PIPE !in a && PIPE !in b && PIPE !in c && PIPE !in d
    ensures PairSeed(a, b) == PairSeed(c, d) <==> (a == c && b == d) || (a == d && b == c)
  {
    LexTotal(a, b);
    LexTotal(c, d);
    if PairSeed(a, b) == PairSeed(c, d) {
      var (lo, hi) := if LexLeq(a, b) then (a, b) else (b, a);
      var (lo', hi') := if LexLeq(c, d) then (c, d) else (d, c);
      CutAtBar(lo, hi, lo', hi');
    }
  }
}
