/**
  The deterministic weighted draw shared by the health-aware policies (`_build_cdf` and
  `_weighted_pick` of `srv6_mrc/policy.py`), over exact reals: every slot it returns carries
  weight, and over any 2^64 consecutive sequence numbers each slot gets its exact share to within
  one packet.
 */
module Picker {
  import opened Arith
  import opened EvState

  const GOLDEN_RATIO_64: nat := 0x9E37_79B9_7F4A_7C15
  /** The inverse of the odd multiplier modulo 2^64. */
  const GOLDEN_INVERSE: nat := 0xF1DE_83E1_9937_733D

  const CARRY: nat := 0x957B_BF35_006E_D677

  // ---------------------------------------------------------------- the distribution function

  /** The share of the first `k` weights. */
  ghost function Share(ws: seq<real>, k: nat): real
    requires k <= |ws| && Sum(ws) > 0.0
  {
    Sum(ws[..k]) / Sum(ws)
  }

  ghost function Cdf(ws: seq<real>): (c: seq<real>)
    requires Sum(ws) > 0.0
    ensures |c| == |ws|
    ensures forall k :: 0 <= k < |c| ==> c[k] == Share(ws, k + 1)
  {
    seq(|ws|, k requires 0 <= k < |ws| => Share(ws, k + 1))
  }

  lemma {:induction false} SumWhole(ws: seq<real>)
    ensures Sum(ws[..|ws|]) == Sum(ws)
  {
    assert ws[..|ws|] == ws;
  }

  lemma {:induction false} DivStep(a: real, b: real, t: real)
    requires t > 0.0
    ensures (a + b) / t == a / t + b / t
    ensures t / t == 1.0
    ensures b > 0.0 ==> b / t > 0.0
    ensures b == 0.0 ==> b / t == 0.0
  {
  }

  /**
    `_build_cdf`: running shares, with the last entry forced to one.  In exact arithmetic the
    forcing changes nothing.
   */
  method BuildCdf(ws: seq<real>) returns (cdf: seq<real>)
    requires |ws| > 0 && Sum(ws) > 0.0
    ensures cdf == Cdf(ws) && cdf[|ws| - 1] == 1.0
  {
    var total := SumOf(ws);
    var cum := 0.0;
    cdf := [];
    DivStep(0.0, 0.0, total);
    for k := 0 to |ws|
      invariant |cdf| == k && cum == Sum(ws[..k]) / total
      invariant forall j :: 0 <= j < k ==> cdf[j] == Share(ws, j + 1)
    {
      SumSnoc(ws, k);
      DivStep(Sum(ws[..k]), ws[k], total);
      cum := cum + ws[k] / total;
      cdf := cdf + [cum];
    }
    SumWhole(ws);
    DivStep(0.0, 0.0, total);
    cdf := cdf[|ws| - 1 := 1.0];
  }

  method SumOf(ws: seq<real>) returns (total: real)
    ensures total == Sum(ws)
  {
    total := 0.0;
    for k := 0 to |ws|
      invariant total == Sum(ws[..k])
    {
      SumSnoc(ws, k);
      total := total + ws[k];
    }
    SumWhole(ws);
  }

  // ---------------------------------------------------------------- the draw

  /** The 64-bit draw of packet `n` of a flow with hash `h`. */
  function Draw(h: nat, n: nat): (x: nat)
    ensures x < TWO64
  {
    (h + n * GOLDEN_RATIO_64) % TWO64
  }

  function Unit(x: nat): real { x as real / TWO64 as real }

  /** The first index whose threshold exceeds `u`. */
  ghost predicate IsFirstAbove(cdf: seq<real>, u: real, p: nat) {
    p < |cdf| && u < cdf[p] && forall j :: 0 <= j < p ==> cdf[j] <= u
  }

  /** `_weighted_pick`: a linear scan; the source's fallback return is never reached. */
  method WeightedPick(n: nat, h: nat, cdf: seq<real>) returns (p: nat)
    requires |cdf| > 0 && cdf[|cdf| - 1] == 1.0
    ensures IsFirstAbove(cdf, Unit(Draw(h, n)), p)
  {
    p := 0;
    var u := Unit(Draw(h, n));
    UnitBelowOne(Draw(h, n));
    for k := 0 to |cdf|
      invariant forall j :: 0 <= j < k ==> cdf[j] <= u
    {
      if u < cdf[k] { return k; }
    }
    assert false;
  }

  lemma {:induction false} UnitBelowOne(x: nat)
    requires x < TWO64
    ensures 0.0 <= Unit(x) < 1.0
  {
  }

  // ---------------------------------------------------------------- every pick carries weight

  ghost predicate NonNegative(ws: seq<real>) {
    forall k :: 0 <= k < |ws| ==> ws[k] >= 0.0
  }

  lemma {:induction false} ShareStep(ws: seq<real>, k: nat)
    requires k < |ws| && Sum(ws) > 0.0
    ensures Share(ws, k + 1) == Share(ws, k) + ws[k] / Sum(ws)
  {
    SumSnoc(ws, k);
    DivStep(Sum(ws[..k]), ws[k], Sum(ws));
  }

  lemma {:induction false} ShareEnds(ws: seq<real>)
    requires Sum(ws) > 0.0
    ensures Share(ws, 0) == 0.0 && Share(ws, |ws|) == 1.0
  {
    SumWhole(ws);
    DivStep(0.0, 0.0, Sum(ws));
  }

  lemma {:induction false} ShareMonotone(ws: seq<real>, j: nat, k: nat)
    requires NonNegative(ws) && Sum(ws) > 0.0 && j <= k <= |ws|
    ensures Share(ws, j) <= Share(ws, k)
  {
    if j < k {
      ShareMonotone(ws, j, k - 1);
      ShareStep(ws, k - 1);
      DivStep(0.0, ws[k - 1], Sum(ws));
    }
  }

  /** Slot `p` is drawn exactly when `u` falls in its share of the unit interval. */
  lemma {:induction false} PickIsShare(ws: seq<real>, u: real, p: nat)
    requires NonNegative(ws) && Sum(ws) > 0.0 && 0.0 <= u < 1.0 && p < |ws|
    ensures IsFirstAbove(Cdf(ws), u, p) <==> Share(ws, p) <= u < Share(ws, p + 1)
  {
    ShareEnds(ws);
    var c := Cdf(ws);
    if Share(ws, p) <= u < Share(ws, p + 1) {
      forall j | 0 <= j < p ensures c[j] <= u {
        ShareMonotone(ws, j + 1, p);
      }
    }
    if IsFirstAbove(c, u, p) && p > 0 {
      assert c[p - 1] == Share(ws, p);
    }
  }

  /** A draw never lands on a slot of weight zero. */
  lemma {:induction false} PickCarriesWeight(ws: seq<real>, u: real, p: nat)
    requires NonNegative(ws) && Sum(ws) > 0.0 && 0.0 <= u < 1.0
    requires IsFirstAbove(Cdf(ws), u, p)
    ensures ws[p] > 0.0
  {
    PickIsShare(ws, u, p);
    ShareStep(ws, p);
    DivStep(0.0, ws[p], Sum(ws));
  }

  // ---------------------------------------------------------------- 2^64 consecutive packets

  /** The packet number in [start, start + 2^64) whose draw is `x`. */
  function PacketOf(start: nat, h: nat, x: nat): nat {
    start + ((x - h) * GOLDEN_INVERSE - start) % TWO64
  }

  lemma {:induction false} InverseConstant()
    ensures GOLDEN_RATIO_64 * GOLDEN_INVERSE == 1 + TWO64 * CARRY
  {
  }

  lemma {:induction false} Unmultiply(c: int, k: int)
    ensures (c * GOLDEN_INVERSE + TWO64 * k) * GOLDEN_RATIO_64 ==
      c + TWO64 * (c * CARRY + k * GOLDEN_RATIO_64)
  {
    InverseConstant();
  }

  /** Every 64-bit value is the draw of one packet of the window ... */
  lemma {:induction false} DrawOfPacketOf(start: nat, h: nat, x: nat)
    requires x < TWO64
    ensures start <= PacketOf(start, h, x) < start + TWO64
    ensures Draw(h, PacketOf(start, h, x)) == x
  {
    var c := x - h;
    var y := c * GOLDEN_INVERSE - start;
    var k := -(y / TWO64);
    assert y % TWO64 == y + TWO64 * k;
    assert PacketOf(start, h, x) == c * GOLDEN_INVERSE + TWO64 * k;
    Unmultiply(c, k);
    ModUnique(h + PacketOf(start, h, x) * GOLDEN_RATIO_64, x,
      c * CARRY + k * GOLDEN_RATIO_64, TWO64);
  }

  /** ... and of no other. */
  lemma {:induction false} PacketOfDraw(start: nat, h: nat, n: nat)
    requires start <= n < start + TWO64
    ensures PacketOf(start, h, Draw(h, n)) == n
  {
    var z := h + n * GOLDEN_RATIO_64;
    var q := z / TWO64;
    var x := z % TWO64;
    assert x - h == n * GOLDEN_RATIO_64 - TWO64 * q;
    assert (x - h) * GOLDEN_INVERSE ==
      n * (GOLDEN_RATIO_64 * GOLDEN_INVERSE) - TWO64 * (q * GOLDEN_INVERSE);
    InverseConstant();
    assert n * (GOLDEN_RATIO_64 * GOLDEN_INVERSE) == n + TWO64 * (n * CARRY);
    ModUnique((x - h) * GOLDEN_INVERSE - start, n - start,
      n * CARRY - q * GOLDEN_INVERSE, TWO64);
  }

  // ---------------------------------------------------------------- counting

  lemma {:induction false} EqualSizes<A, B>(s: set<A>, t: set<B>, f: A -> B, g: B -> A)
    requires forall a :: a in s ==> f(a) in t && g(f(a)) == a
    requires forall b :: b in t ==> g(b) in s && f(g(b)) == b
    ensures |s| == |t|
    decreases |s|
  {
    if s == {} {
      assert t == {};
    } else {
      var a :| a in s;
      EqualSizes(s - {a}, t - {f(a)}, f, g);
    }
  }

  function Ceil(r: real): int { -((-r).Floor) }

  /** The packets of [start, start + 2^64) that land on slot `p`. */
  ghost function PacketsOn(start: nat, h: nat, ws: seq<real>, p: nat): set<int>
    requires Sum(ws) > 0.0
  {
    set n: int | start <= n < start + TWO64 && IsFirstAbove(Cdf(ws), Unit(Draw(h, n)), p)
  }

  /** The draws that land on slot `p` form one interval. */
  lemma {:induction false} DrawInterval(ws: seq<real>, p: nat, x: nat)
    requires NonNegative(ws) && Sum(ws) > 0.0 && p < |ws| && x < TWO64
    ensures IsFirstAbove(Cdf(ws), Unit(x), p) <==>
      Ceil(Share(ws, p) * TWO64 as real) <= x < Ceil(Share(ws, p + 1) * TWO64 as real)
  {
    UnitBelowOne(x);
    PickIsShare(ws, Unit(x), p);
    UnitAgainst(x, Share(ws, p));
    UnitAgainst(x, Share(ws, p + 1));
  }

  lemma {:induction false} UnitAgainst(x: nat, s: real)
    ensures s <= Unit(x) <==> Ceil(s * TWO64 as real) <= x
  {
  }

  /**
    Over any 2^64 consecutive packets of any flow, slot `p` of any weight vector is drawn within
    one packet of its exact share of them.
   */
  lemma {:induction false} FairWithinOne(start: nat, h: nat, ws: seq<real>, p: nat)
    requires NonNegative(ws) && Sum(ws) > 0.0 && p < |ws|
    ensures var exact := ws[p] / Sum(ws) * TWO64 as real;
      exact - 1.0 < |PacketsOn(start, h, ws, p)| as real < exact + 1.0
  {
    var lo, hi := Ceil(Share(ws, p) * TWO64 as real), Ceil(Share(ws, p + 1) * TWO64 as real);
    var packets := PacketsOn(start, h, ws, p);
    var draws := Range(lo, hi);
    ShareEnds(ws);
    ShareMonotone(ws, 0, p);
    ShareMonotone(ws, p, p + 1);
    ShareMonotone(ws, p + 1, |ws|);
    assert 0 <= lo <= hi <= TWO64;
    var f := (n: int) => if n < 0 then 0 else Draw(h, n);
    var g := (x: int) => if x < 0 then 0 else PacketOf(start, h, x);
    forall n | n in packets ensures f(n) in draws && g(f(n)) == n {
      DrawInterval(ws, p, Draw(h, n));
      PacketOfDraw(start, h, n);
    }
    forall x | x in draws ensures g(x) in packets && f(g(x)) == x {
      DrawInterval(ws, p, x);
      DrawOfPacketOf(start, h, x);
    }
    EqualSizes(packets, draws, f, g);
    RangeSize(lo, hi);
    ShareStep(ws, p);
    CeilSpan(Share(ws, p) * TWO64 as real, Share(ws, p + 1) * TWO64 as real);
  }

  lemma {:induction false} CeilSpan(a: real, b: real)
    ensures b - a - 1.0 < (Ceil(b) - Ceil(a)) as real < b - a + 1.0
  {
  }
}
