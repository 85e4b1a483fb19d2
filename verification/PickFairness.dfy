/**
  How often the health-aware pickers really pick an EV.  Over 2^64 consecutive packets of a flow every
  EV of its subset gets its share of the subset's weight to within one packet, live and from a
  snapshot; over a subset without weight the picks go round.
 */
module PickFairness {
  import opened Arith
  import opened Wrappers
  import opened Grids
  import opened EvState
  import opened EvInvariant
  import opened LossRuns
  import opened Picker
  import opened SpineSelect
  import opened Policy
  import opened TwinRuns

  // ---------------------------------------------------------------- the weight of a subset

  /** The weight of the chosen spines on one plane. */
  ghost function RowWeight(row: seq<real>, spines: seq<nat>): real
    requires forall k :: 0 <= k < |spines| ==> spines[k] < |row|
  {
    if spines == [] then 0.0
    else RowWeight(row, spines[..|spines| - 1]) + row[spines[|spines| - 1]]
  }

  ghost predicate InRows(g: seq<seq<real>>, spines: seq<nat>) {
    forall p, k :: 0 <= p < |g| && 0 <= k < |spines| ==> spines[k] < |g[p]|
  }

  /** The weight of the chosen spines on all planes. */
  ghost function SubsetWeight(g: seq<seq<real>>, spines: seq<nat>): real
    requires InRows(g, spines)
  {
    if g == [] then 0.0 else SubsetWeight(g[..|g| - 1], spines) + RowWeight(g[|g| - 1], spines)
  }

  /** The weight of the EVs before (p, spines[k]), plane by plane over the subset. */
  ghost function WeightBefore(g: seq<seq<real>>, spines: seq<nat>, p: nat, k: nat): real
    requires InRows(g, spines) && p < |g| && k < |spines|
  {
    SubsetWeight(g[..p], spines) + RowWeight(g[p], spines[..k])
  }

  lemma {:induction false} SumAppend(a: seq<real>, b: seq<real>)
    ensures Sum(a + b) == Sum(a) + Sum(b)
  {
    if a == [] {
      assert a + b == b;
    } else {
      assert (a + b)[1..] == a[1..] + b;
      SumAppend(a[1..], b);
    }
  }

  lemma {:induction false} RowIsSum(row: seq<real>, spines: seq<nat>, s: seq<real>)
    requires |s| == |spines| && forall k :: 0 <= k < |spines| ==> spines[k] < |row| && s[k] == row[spines[k]]
    ensures Sum(s) == RowWeight(row, spines)
  {
    if spines != [] {
      var n := |spines| - 1;
      RowIsSum(row, spines[..n], s[..n]);
      assert s == s[..n] + [s[n]];
      SumAppend(s[..n], [s[n]]);
      assert [s[n]][1..] == [];
    }
  }

  lemma {:induction false} RowsAreSum(g: seq<seq<real>>, spines: seq<nat>, s: seq<seq<real>>)
    requires InRows(g, spines) && |s| == |g| && Rectangular(s, |spines|)
    requires forall p, k :: 0 <= p < |g| && 0 <= k < |spines| ==> s[p][k] == g[p][spines[k]]
    ensures Sum(Flatten(s)) == SubsetWeight(g, spines)
  {
    if g != [] {
      var n := |g| - 1;
      RowsAreSum(g[..n], spines, s[..n]);
      RowIsSum(g[n], spines, s[n]);
      SumAppend(Flatten(s[..n]), s[n]);
    }
  }

  /** The rows before `p` and the cells before `k` of row `p` are the first `p * m + k` elements. */
  lemma {:induction false} FlattenPrefix(s: seq<seq<real>>, m: nat, p: nat, k: nat)
    requires Rectangular(s, m) && p < |s| && k < m
    ensures p * m + k < |Flatten(s)| && Flatten(s)[..p * m + k] == Flatten(s[..p]) + s[p][..k]
  {
    var n := |s| - 1;
    FlattenLength(s, m);
    FlattenLength(s[..n], m);
    FlattenLength(s[..p], m);
    IndexBound(|s|, m, p, k);
    if p < n {
      FlattenPrefix(s[..n], m, p, k);
      assert s[..n][..p] == s[..p];
      assert Flatten(s)[..p * m + k] == Flatten(s[..n])[..p * m + k];
    }
  }

  lemma {:induction false} FlatSums(g: seq<seq<real>>, spines: seq<nat>)
    requires Fits(g, spines)
    ensures Sum(Flat(g, spines)) == SubsetWeight(g, spines)
  {
    RowsAreSum(g, spines, Slice(g, spines));
  }

  lemma {:induction false} FlatPrefixSums(g: seq<seq<real>>, spines: seq<nat>, p: nat, k: nat)
    requires Fits(g, spines) && p < |g| && k < |spines|
    ensures p * |spines| + k < |Flat(g, spines)|
    ensures Sum(Flat(g, spines)[..p * |spines| + k]) == WeightBefore(g, spines, p, k)
  {
    var s := Slice(g, spines);
    FlattenPrefix(s, |spines|, p, k);
    RowsAreSum(g[..p], spines, s[..p]);
    RowIsSum(g[p], spines[..k], s[p][..k]);
    SumAppend(Flatten(s[..p]), s[p][..k]);
  }

  // ---------------------------------------------------------------- one slot, one EV

  /** Slot `i` is EV (p, spines[k]) exactly for i = p * |spines| + k. */
  lemma {:induction false} DecodeIff(spines: seq<nat>, i: nat, p: nat, k: nat)
    requires Distinct(spines) && k < |spines|
    ensures Decode(spines, i) == (p, spines[k]) <==> i == p * |spines| + k
  {
    var m := |spines|;
    assert i == m * (i / m) + i % m && m * p == p * m;
    if i == p * m + k { ModUnique(i, k, p, m); }
  }

  /** With some weight in it, a slice is scanned for the first share above the draw. */
  lemma {:induction false} IndexIff(flat: seq<real>, h: nat, n: nat, i: nat)
    requires flat != [] && Sum(flat) > 0.0
    ensures PickIndex(flat, h, n) == i <==> IsFirstAbove(Cdf(flat), Unit(Draw(h, n)), i)
  {
    var u := Unit(Draw(h, n));
    UnitBelowOne(Draw(h, n));
    ShareEnds(flat);
    ScanFinds(Cdf(flat), u);
    if IsFirstAbove(Cdf(flat), u, i) { ScanIsFirstAbove(Cdf(flat), u, i); }
  }

  /** EV (p, spines[k]) is packet `n`'s exactly if its slot is drawn. */
  lemma {:induction false} ChosenIff(g: seq<seq<real>>, spines: seq<nat>, h: nat, n: nat, p: nat, k: nat)
    requires Fits(g, spines) && Distinct(spines) && p < |g| && k < |spines| && SubsetWeight(g, spines) > 0.0
    ensures Sum(Flat(g, spines)) > 0.0
    ensures ChosenEv(g, spines, h, n) == (p, spines[k]) <==>
      IsFirstAbove(Cdf(Flat(g, spines)), Unit(Draw(h, n)), p * |spines| + k)
  {
    hide PickIndex, Flat, Cdf, Decode, IsFirstAbove, Draw, Unit, SubsetWeight;
    FlatSums(g, spines);
    IndexIff(Flat(g, spines), h, n, p * |spines| + k);
    DecodeIff(spines, PickIndex(Flat(g, spines), h, n), p, k);
  }

  lemma {:induction false} ShareAgainst(part: real, whole: real, u: real)
    requires whole > 0.0
    ensures part / whole <= u <==> part <= u * whole
  {
    assert part / whole * whole == part;
  }

  lemma {:induction false} ShareBelow(flat: seq<real>, u: real, k: nat)
    requires Sum(flat) > 0.0 && k <= |flat|
    ensures Share(flat, k) <= u <==> Sum(flat[..k]) <= u * Sum(flat)
  {
    hide Sum;
    ShareAgainst(Sum(flat[..k]), Sum(flat), u);
  }

  /** The fraction `u` of `total` falls in the interval of length `own` that starts at `before`. */
  ghost predicate FallsIn(u: real, total: real, before: real, own: real) {
    before <= u * total < before + own
  }

  /** Slot `i` is drawn exactly when `u` of the total weight falls in the slot's own interval. */
  lemma {:induction false} SlotByDraw(flat: seq<real>, u: real, i: nat)
    requires NonNegative(flat) && Sum(flat) > 0.0 && 0.0 <= u < 1.0 && i < |flat|
    ensures IsFirstAbove(Cdf(flat), u, i) <==> FallsIn(u, Sum(flat), Sum(flat[..i]), flat[i])
  {
    hide IsFirstAbove, Cdf, Sum, Share, NonNegative;
    PickIsShare(flat, u, i);
    ShareBelow(flat, u, i);
    ShareBelow(flat, u, i + 1);
    SumSnoc(flat, i);
  }

  lemma {:induction false} SlotOfEv(g: seq<seq<real>>, spines: seq<nat>, p: nat, k: nat)
    requires Fits(g, spines) && GridNonNegative(g) && p < |g| && k < |spines|
    ensures p * |spines| + k < |Flat(g, spines)| && Flat(g, spines)[p * |spines| + k] == g[p][spines[k]]
    ensures NonNegative(Flat(g, spines))
  {
    FlatMirrorsSlice(g, spines);
    FlattenAt(Slice(g, spines), |spines|, p, k);
  }

  /** The hash plus `n` golden-ratio steps, modulo 2^64 and as a fraction of it. */
  function Fraction(h: nat, n: nat): real {
    ((h + n * 0x9E37_79B9_7F4A_7C15) % 0x1_0000_0000_0000_0000) as real / 18446744073709551616.0
  }

  lemma {:induction false} DrawInNumbers(h: nat, n: nat)
    ensures Unit(Draw(h, n)) == Fraction(h, n) && 0.0 <= Fraction(h, n) < 1.0
  {
    UnitBelowOne(Draw(h, n));
  }

  /** The fraction `u` of the subset's weight falls in the interval of EV (p, spines[k]). */
  ghost predicate FallsOn(g: seq<seq<real>>, spines: seq<nat>, u: real, p: nat, k: nat)
    requires InRows(g, spines) && p < |g| && k < |spines|
  {
    FallsIn(u, SubsetWeight(g, spines), WeightBefore(g, spines, p, k), g[p][spines[k]])
  }

  lemma {:induction false} SlotFalls(g: seq<seq<real>>, spines: seq<nat>, u: real, p: nat, k: nat)
    requires Fits(g, spines) && GridNonNegative(g) && p < |g| && k < |spines|
    requires Sum(Flat(g, spines)) > 0.0 && 0.0 <= u < 1.0
    ensures IsFirstAbove(Cdf(Flat(g, spines)), u, p * |spines| + k) <==> FallsOn(g, spines, u, p, k)
  {
    FlatSums(g, spines);
    FlatPrefixSums(g, spines, p, k);
    SlotOfEv(g, spines, p, k);
    hide Fits, GridNonNegative, Flat, IsFirstAbove, Cdf, WeightBefore, SubsetWeight, NonNegative, Sum, FallsIn;
    SlotByDraw(Flat(g, spines), u, p * |spines| + k);
  }

  /**
    The pick of one packet: the EV in whose interval of the subset's weight, plane by plane and spine by
    spine, the packet's fraction of that weight falls.
   */
  lemma {:induction false} ChosenByDraw(g: seq<seq<real>>, spines: seq<nat>, h: nat, n: nat, p: nat, k: nat)
    requires Fits(g, spines) && GridNonNegative(g) && Distinct(spines) && p < |g| && k < |spines|
    requires SubsetWeight(g, spines) > 0.0
    ensures ChosenEv(g, spines, h, n) == (p, spines[k]) <==> FallsOn(g, spines, Fraction(h, n), p, k)
  {
    ChosenIff(g, spines, h, n, p, k);
    DrawInNumbers(h, n);
    hide Flat, Cdf, IsFirstAbove, ChosenEv, FallsOn, SubsetWeight, GridNonNegative, Sum, Draw, Unit, Fraction;
    SlotFalls(g, spines, Unit(Draw(h, n)), p, k);
  }

  // ---------------------------------------------------------------- fairness

  /** The packets of [lo, lo + count) picked for `ev`. */
  ghost function PicksOf(g: seq<seq<real>>, spines: seq<nat>, h: nat, lo: nat, count: nat, ev: (nat, nat)): set<int>
    requires Fits(g, spines)
  {
    set n: int | lo <= n < lo + count && ChosenEv(g, spines, h, n) == ev
  }

  /** `count` is within one of the share `part` of `whole` in 2^64. */
  ghost predicate FairShare(count: int, part: real, whole: real)
    requires whole > 0.0
  {
    var exact := part / whole * 18446744073709551616.0;
    exact - 1.0 < count as real < exact + 1.0
  }

  /**
    Over any 2^64 consecutive packets of any flow, every EV of the flow's subset is picked within one
    of its exact share of the subset's weight.
   */
  lemma {:induction false} PicksAreFair(g: seq<seq<real>>, spines: seq<nat>, h: nat, start: nat, p: nat, k: nat)
    requires Fits(g, spines) && GridNonNegative(g) && Distinct(spines) && p < |g| && k < |spines|
    requires SubsetWeight(g, spines) > 0.0
    ensures FairShare(|PicksOf(g, spines, h, start, 0x1_0000_0000_0000_0000, (p, spines[k]))|,
      g[p][spines[k]], SubsetWeight(g, spines))
  {
    var flat, i := Flat(g, spines), p * |spines| + k;
    FlatSums(g, spines);
    FlatMirrorsSlice(g, spines);
    FlattenAt(Slice(g, spines), |spines|, p, k);
    assert i < |flat| && flat[i] == g[p][spines[k]];
    var picks := PicksOf(g, spines, h, start, TWO64, (p, spines[k]));
    forall n: int | start <= n < start + TWO64
      ensures ChosenEv(g, spines, h, n) == (p, spines[k]) <==> IsFirstAbove(Cdf(flat), Unit(Draw(h, n)), i)
    {
      ChosenIff(g, spines, h, n, p, k);
    }
    hide ChosenEv, IsFirstAbove, Cdf, Unit, Draw, Flat, NonNegative, Fits, GridNonNegative, SubsetWeight;
    assert picks == PacketsOn(start, h, flat, i);
    FairWithinOne(start, h, flat, i);
  }

  /**
    A subset without weight is walked round-robin: of as many consecutive packets as it has EVs exactly
    one is picked for each EV of the subset.
   */
  lemma {:induction false} ZeroSubsetGoesRound(g: seq<seq<real>>, spines: seq<nat>, h: nat, start: nat, p: nat, k: nat)
    requires Fits(g, spines) && Distinct(spines) && p < |g| && k < |spines| && SubsetWeight(g, spines) <= 0.0
    ensures |PicksOf(g, spines, h, start, EvCount(|g|, |spines|), (p, spines[k]))| == 1
  {
    var m, i := |g| * |spines|, p * |spines| + k;
    FlatSums(g, spines);
    IndexBound(|g|, |spines|, p, k);
    var only := start + (i - start) % m;
    forall n: int | start <= n < start + m ensures ChosenEv(g, spines, h, n) == (p, spines[k]) <==> n == only {
      OnlyInWindow(start, i, m, n);
      DecodeIff(spines, n % m, p, k);
    }
    ModShift(start, i, m);
    assert EvCount(|g|, |spines|) == m;
    hide ChosenEv, Fits, EvCount;
    assert PicksOf(g, spines, h, start, m, (p, spines[k])) == {only};
  }

  // ---------------------------------------------------------------- the flow's hash

  lemma {:induction false} DrawShift(h: nat, j: nat, n: nat)
    ensures Draw(Draw(h, j), n) == Draw(h, n + j)
  {
    var z := h + j * GOLDEN_RATIO_64;
    assert z == TWO64 * (z / TWO64) + z % TWO64;
    assert h + (n + j) * GOLDEN_RATIO_64 == (z % TWO64 + n * GOLDEN_RATIO_64) + TWO64 * (z / TWO64);
    ModAddMultiple(z % TWO64 + n * GOLDEN_RATIO_64, z / TWO64, TWO64);
  }

  /**
    Two flows with the same subset walk one and the same cycle of picks from different starting points:
    some offset below 2^64 turns the packets of the one into those of the other, whatever the weights.
   */
  lemma {:induction false} HashIsAnOffset(g: seq<seq<real>>, spines: seq<nat>, h: nat, h': nat) returns (j: nat)
    requires Fits(g, spines) && h' < TWO64 && SubsetWeight(g, spines) > 0.0
    ensures j < TWO64
    ensures forall n: nat :: ChosenEv(g, spines, h', n) == ChosenEv(g, spines, h, n + j)
  {
    j := PacketOf(0, h, h');
    DrawOfPacketOf(0, h, h');
    FlatSums(g, spines);
    forall n: nat ensures Draw(h', n) == Draw(h, n + j) { DrawShift(h, j, n); }
    hide Draw, Flat, Fits, SubsetWeight;
  }

  // ---------------------------------------------------------------- on a table's states

  /** What an EV's state is worth in the spray: GOOD twice UNKNOWN, ASSUMED_BAD nothing. */
  function Units(s: State): nat {
    match s
    case Good => 2
    case Unknown => 1
    case AssumedBad => 0
  }

  ghost function RowUnits(t: Table, spines: seq<nat>, p: nat): nat
    requires Shaped(t) && p < t.planes && forall k :: 0 <= k < |spines| ==> spines[k] < t.paths
  {
    if spines == [] then 0
    else RowUnits(t, spines[..|spines| - 1], p) + Units(StateAt(t, p, spines[|spines| - 1]))
  }

  /** The units of the subset's EVs on the first `planes` planes. */
  ghost function SubsetUnits(t: Table, spines: seq<nat>, planes: nat): nat
    requires Shaped(t) && planes <= t.planes && forall k :: 0 <= k < |spines| ==> spines[k] < t.paths
  {
    if planes == 0 then 0 else SubsetUnits(t, spines, planes - 1) + RowUnits(t, spines, planes - 1)
  }

  function Times(c: real, n: nat): real { c * n as real }

  /** Every published weight is the same positive multiple of its EV's units. */
  ghost predicate Scaled(t: Table, g: seq<seq<real>>, c: real)
    requires Shaped(t)
  {
    && c > 0.0 && |g| == t.planes && (forall p :: 0 <= p < |g| ==> |g[p]| == t.paths)
    && forall p, q :: 0 <= p < t.planes && 0 <= q < t.paths ==> g[p][q] == Times(c, Units(StateAt(t, p, q)))
  }

  lemma {:induction false} PublishedScaled(t: Table) returns (c: real)
    requires Shaped(t) && EvState.Usable(t.recs) >= 1
    ensures Scaled(t, Published(t), c)
  {
    FlatWeightsNormalised(t.recs);
    var total := Sum(RawWeights(t.recs));
    c := 0.5 / total;
    WeightInUnits(Good, total);
    hide Weight, Units, Times, RawWeights, Sum;
    forall p, q | 0 <= p < t.planes && 0 <= q < t.paths
      ensures Published(t)[p][q] == Times(c, Units(StateAt(t, p, q)))
    {
      WeightInUnits(StateAt(t, p, q), total);
    }
  }

  lemma {:induction false} WeightInUnits(s: State, total: real)
    requires total > 0.0
    ensures Weight(s) / total == Times(0.5 / total, Units(s)) && 0.5 / total > 0.0
  {
    assert 1.0 / total == 2.0 * (0.5 / total);
  }

  lemma {:induction false} TimesSum(c: real, a: nat, b: nat)
    ensures Times(c, a + b) == Times(c, a) + Times(c, b) && Times(c, 0) == 0.0
  {
  }

  lemma {:induction false} ScaledNonNegative(t: Table, g: seq<seq<real>>, c: real)
    requires Shaped(t) && Scaled(t, g, c)
    ensures GridNonNegative(g)
  {
    forall p, q | 0 <= p < |g| && 0 <= q < |g[p]| ensures g[p][q] >= 0.0 {
      TimesSign(c, Units(StateAt(t, p, q)));
    }
  }

  lemma {:induction false} TimesSign(c: real, n: nat)
    requires c > 0.0
    ensures Times(c, n) >= 0.0 && (n > 0 ==> Times(c, n) > 0.0) && Times(c, 0) == 0.0
  {
  }

  lemma {:induction false} RowUnitsScaled(t: Table, g: seq<seq<real>>, c: real, spines: seq<nat>, p: nat)
    requires Shaped(t) && Scaled(t, g, c) && p < t.planes && forall k :: 0 <= k < |spines| ==> spines[k] < t.paths
    ensures RowWeight(g[p], spines) == Times(c, RowUnits(t, spines, p))
  {
    TimesSum(c, 0, 0);
    if spines != [] {
      var n := |spines| - 1;
      RowUnitsScaled(t, g, c, spines[..n], p);
      TimesSum(c, RowUnits(t, spines[..n], p), Units(StateAt(t, p, spines[n])));
      hide Times;
    }
  }

  lemma {:induction false} UnitsScaled(t: Table, g: seq<seq<real>>, c: real, spines: seq<nat>, planes: nat)
    requires Shaped(t) && Scaled(t, g, c) && planes <= t.planes
    requires forall k :: 0 <= k < |spines| ==> spines[k] < t.paths
    ensures SubsetWeight(g[..planes], spines) == Times(c, SubsetUnits(t, spines, planes))
  {
    TimesSum(c, 0, 0);
    if planes > 0 {
      UnitsScaled(t, g, c, spines, planes - 1);
      RowUnitsScaled(t, g, c, spines, planes - 1);
      assert g[..planes][..planes - 1] == g[..planes - 1];
      TimesSum(c, SubsetUnits(t, spines, planes - 1), RowUnits(t, spines, planes - 1));
      hide Times, RowWeight, RowUnits;
    }
  }

  lemma {:induction false} SameRatio(c: real, a: real, b: real)
    requires c > 0.0 && b > 0.0
    ensures c * b > 0.0 && c * a / (c * b) == a / b
  {
    assert c * a / (c * b) * (c * b) == c * a;
    assert a / b * b == a;
  }

  lemma {:induction false} UnscaledShare(count: int, c: real, part: nat, whole: nat)
    requires c > 0.0 && whole > 0 && Times(c, whole) > 0.0
    requires FairShare(count, Times(c, part), Times(c, whole))
    ensures FairShare(count, part as real, whole as real)
  {
    SameRatio(c, part as real, whole as real);
    assert Times(c, part) / Times(c, whole) == part as real / whole as real;
  }

  /** On the grid a table publishes, the share of an EV is its units among those of the subset. */
  lemma {:induction false} PublishedPicksAreFair(t: Table, spines: seq<nat>, h: nat, start: nat, p: nat, k: nat)
    requires Inv(t) && t.planes >= 1 && SubsetOf(spines, t.paths) && Distinct(spines)
    requires p < t.planes && k < |spines|
    ensures Fits(Published(t), spines)
    ensures var all := SubsetUnits(t, spines, t.planes);
      var own := Units(StateAt(t, p, spines[k]));
      && (all > 0 ==>
            FairShare(|PicksOf(Published(t), spines, h, start, 0x1_0000_0000_0000_0000, (p, spines[k]))|,
              own as real, all as real))
      && (all == 0 ==> |PicksOf(Published(t), spines, h, start, EvCount(t.planes, |spines|), (p, spines[k]))| == 1)
  {
    var g, all, own := Published(t), SubsetUnits(t, spines, t.planes), Units(StateAt(t, p, spines[k]));
    var c := PublishedScaled(t);
    UnitsScaled(t, g, c, spines, t.planes);
    assert g[..t.planes] == g;
    ScaledNonNegative(t, g, c);
    TimesSign(c, all);
    hide Times;
    assert g[p][spines[k]] == Times(c, own);
    hide Published, Inv, SubsetUnits, PicksOf, FairShare, EvCount, GridNonNegative, SubsetWeight, Units;
    if all > 0 {
      PicksAreFair(g, spines, h, start, p, k);
      UnscaledShare(|PicksOf(g, spines, h, start, TWO64, (p, spines[k]))|, c, own, all);
    } else {
      ZeroSubsetGoesRound(g, spines, h, start, p, k);
    }
  }

  // ---------------------------------------------------------------- the live policy and its twin

  /** The packets of [start, start + count) for which the live policy picks `ev` on table `t`. */
  ghost function LivePicks(t: Table, flow: FlowKey, size: nat, start: nat, count: nat, ev: (nat, nat)): set<int>
    requires Shaped(t) && t.planes >= 1 && 1 <= size <= t.paths
  {
    set n: int | start <= n < start + count && LivePick(t, flow, size, n) == ev
  }

  /** `picks` gives each EV of the flow's subset its due on table `t`. */
  ghost predicate Due(t: Table, spines: seq<nat>, p: nat, k: nat, picks: int, round: int)
    requires Shaped(t) && SubsetOf(spines, t.paths) && p < t.planes && k < |spines|
  {
    var all, own := SubsetUnits(t, spines, t.planes), Units(StateAt(t, p, spines[k]));
    && (all > 0 ==> FairShare(picks, own as real, all as real))
    && (all == 0 ==> round == 1)
  }

  lemma {:induction false} LivePicksAre(t: Table, flow: FlowKey, size: nat, start: nat, count: nat, ev: (nat, nat))
    requires Shaped(t) && t.planes >= 1 && 1 <= size <= t.paths
    ensures LivePicks(t, flow, size, start, count, ev) ==
      PicksOf(Published(t), Subset(flow, t.paths, size), Hash5(flow), start, count, ev)
  {
    hide ChosenEv, Hash5, Published, Subset;
  }

  lemma {:induction false} LivePicksDue(t: Table, flow: FlowKey, size: nat, start: nat, p: nat, k: nat)
    requires Inv(t) && t.planes >= 1 && 1 <= size <= t.paths && p < t.planes && k < size
    ensures var spines := Subset(flow, t.paths, size);
      && |spines| == size
      && Due(t, spines, p, k, |LivePicks(t, flow, size, start, 0x1_0000_0000_0000_0000, (p, spines[k]))|,
           |LivePicks(t, flow, size, start, EvCount(t.planes, size), (p, spines[k]))|)
  {
    var spines := Subset(flow, t.paths, size);
    SpineChoice(flow.src, flow.dst, t.paths, size);
    assert Shaped(t);
    hide Subset, SelectSpines, Hash5, Published, Inv, Units, LivePicks, FairShare, PicksOf, EvCount;
    PublishedPicksAreFair(t, spines, Hash5(flow), start, p, k);
    LivePicksAre(t, flow, size, start, TWO64, (p, spines[k]));
    LivePicksAre(t, flow, size, start, EvCount(t.planes, size), (p, spines[k]));
  }

  /** The live pick of one packet, from the text that names its flow and the published weights. */
  lemma {:induction false} LivePickByDraw(t: Table, flow: FlowKey, size: nat, n: nat, p: nat, k: nat)
    requires Inv(t) && t.planes >= 1 && 1 <= size <= t.paths && p < t.planes && k < size
    ensures var g, spines := Published(t), Subset(flow, t.paths, size);
      var u := Fraction(FnvFrom(0xcbf2_9ce4_8422_2325, FlowText(flow)), n);
      && |spines| == size && Fits(g, spines)
      && (SubsetWeight(g, spines) > 0.0 ==>
            (LivePick(t, flow, size, n) == (p, spines[k]) <==> FallsOn(g, spines, u, p, k)))
  {
    var g, spines := Published(t), Subset(flow, t.paths, size);
    SpineChoice(flow.src, flow.dst, t.paths, size);
    var c := PublishedScaled(t);
    ScaledNonNegative(t, g, c);
    hide Subset, SelectSpines, Published, Inv, SubsetWeight, FallsOn, FlowText, FnvFrom, Fraction, ChosenEv;
    hide GridNonNegative;
    if SubsetWeight(g, spines) > 0.0 { ChosenByDraw(g, spines, Hash5(flow), n, p, k); }
  }

  /**
    In every state the table reaches, by probes, ticks, loss windows and reports in any order: over 2^64
    consecutive packets of a flow the live policy picks each EV of its subset in proportion to its
    state, GOOD twice as often as UNKNOWN and ASSUMED_BAD never, to within one packet; and when the whole
    subset is bad it goes round all of it.
   */
  lemma {:induction false} LivePicksAreFair(
    cfg: Config, planes: nat, paths: nat, es: seq<LoopEvent>, flow: FlowKey, size: nat, start: nat, p: nat, k: nat)
    requires planes >= 1 && 1 <= size <= paths && p < planes && k < size
    ensures var t := LoopRun(Init(cfg, planes, paths), es); var spines := Subset(flow, paths, size);
      && |spines| == size
      && Due(t, spines, p, k, |LivePicks(t, flow, size, start, 0x1_0000_0000_0000_0000, (p, spines[k]))|,
           |LivePicks(t, flow, size, start, EvCount(planes, size), (p, spines[k]))|)
  {
    InitInv(cfg, planes, paths);
    LoopKeepsFloor(Init(cfg, planes, paths), es);
    hide LoopRun, Due, Inv, Subset, LivePicks, EvCount;
    LivePicksDue(LoopRun(Init(cfg, planes, paths), es), flow, size, start, p, k);
  }

  /** Action `j` of a run picks for packet `n` of `flow` on the grid of table `t`. */
  ghost predicate PicksOn(c: Setup, w: World, acts: seq<Action>, j: nat, flow: FlowKey, n: nat, t: Table)
    requires WorldOk(c, w) && HonestRun(c, w, acts)
  {
    j < |acts| &&
    match acts[j]
    case Pick(f, m) => f == flow && m == n && WorldAt(c, w, acts, j).loaded == t
    case FinishPick(k, f, m) =>
      var held := WorldAt(c, w, acts, j).held;
      f == flow && m == n && k < |held| && held[k] == t
    case _ => false
  }

  /** The packets of [start, start + count) for which the run picks `ev`, packet `n` at action `pos(n)`. */
  ghost function TwinPicks(
    c: Setup, w: World, acts: seq<Action>, pos: int -> nat, start: nat, count: nat, ev: (nat, nat)): set<int>
    requires WorldOk(c, w) && HonestRun(c, w, acts)
  {
    set n: int | start <= n < start + count && pos(n) < |acts| && ExpectedPicks(c, w, acts)[pos(n)] == Some(ev)
  }

  lemma {:induction false} PickOnTable(
    c: Setup, w: World, acts: seq<Action>, j: nat, flow: FlowKey, n: nat, t: Table)
    requires WorldOk(c, w) && HonestRun(c, w, acts) && PicksOn(c, w, acts, j, flow, n, t)
    ensures SetupOk(c) && TableOk(c, t) && Shaped(t) && j < |acts|
    ensures ExpectedPicks(c, w, acts)[j] == Some(LivePick(t, flow, c.pathsPerPlane, n))
  {
    hide ExpectedPicks, HonestRun, LivePick, Inv, NoGrid, WrittenFrom;
    PickAt(c, w, acts, j);
    InvShaped(t);
  }

  /** Packets picked on the grid of one table are picked as the live policy picks on that table. */
  lemma {:induction false} TwinPicksAreLive(
    c: Setup, w: World, acts: seq<Action>, pos: int -> nat, flow: FlowKey, start: nat, t: Table, ev: (nat, nat))
    requires WorldOk(c, w) && HonestRun(c, w, acts)
    requires forall n: nat :: start <= n < start + 0x1_0000_0000_0000_0000 ==>
      PicksOn(c, w, acts, pos(n), flow, n, t)
    ensures SetupOk(c) && TableOk(c, t)
    ensures TwinPicks(c, w, acts, pos, start, 0x1_0000_0000_0000_0000, ev) ==
      LivePicks(t, flow, c.pathsPerPlane, start, 0x1_0000_0000_0000_0000, ev)
  {
    hide ExpectedPicks, LivePick, Inv, HonestRun, PicksOn, NoGrid, WrittenFrom;
    forall n: nat | start <= n < start + TWO64
      ensures TableOk(c, t) && Shaped(t) && pos(n) < |acts|
      ensures ExpectedPicks(c, w, acts)[pos(n)] == Some(LivePick(t, flow, c.pathsPerPlane, n))
    {
      PickOnTable(c, w, acts, pos(n), flow, n, t);
    }
    assert PicksOn(c, w, acts, pos(start), flow, start, t);
  }

  /**
    The twin is as fair as the live policy: wherever in a run its picks for 2^64 consecutive packets of
    a flow come, between refreshes, picks of other flows and file writes, if they were made on the
    grid of one table each EV of the subset gets its due on that table.
   */
  lemma {:induction false} TwinPicksAreFair(
    c: Setup, w: World, acts: seq<Action>, pos: int -> nat, flow: FlowKey, start: nat, t: Table, p: nat, k: nat)
    requires WorldOk(c, w) && HonestRun(c, w, acts) && p < c.planes && k < c.pathsPerPlane
    requires forall n: nat :: start <= n < start + 0x1_0000_0000_0000_0000 ==>
      PicksOn(c, w, acts, pos(n), flow, n, t)
    ensures TableOk(c, t)
    ensures var spines := Subset(flow, c.paths, c.pathsPerPlane);
      && |spines| == c.pathsPerPlane
      && Due(t, spines, p, k, |TwinPicks(c, w, acts, pos, start, 0x1_0000_0000_0000_0000, (p, spines[k]))|,
           |LivePicks(t, flow, c.pathsPerPlane, start, EvCount(c.planes, c.pathsPerPlane), (p, spines[k]))|)
  {
    var spines := Subset(flow, c.paths, c.pathsPerPlane);
    hide Due, Subset, EvCount, TwinPicks, LivePicks, WorldOk, HonestRun, PicksOn;
    TwinPicksAreLive(c, w, acts, pos, flow, start, t, (p, spines[k]));
    LivePicksDue(t, flow, c.pathsPerPlane, start, p, k);
  }
}
