/**
  The health-aware EV pickers of `srv6_mrc/policy.py`: `HealthAwareMrc`, which reads the live table,
  and its file-backed twin `MrcSnapshot`, which reads a snapshot through a grid and a cache of
  distribution functions.  Both are proved to pick what one function, ChosenEv, says of the weight
  grid; ChosenEv is then proved never to send a packet to a bad EV while the flow has a usable one.
 */
module Policy {
  import opened Arith
  import opened Grids
  import opened EvState
  import opened EvInvariant
  import opened EvTable
  import opened LossRuns
  import opened Picker
  import opened SpineSelect

  // ---------------------------------------------------------------- the pick, as a function

  ghost predicate Fits(g: seq<seq<real>>, spines: seq<nat>) {
    && g != [] && spines != []
    && forall p, k :: 0 <= p < |g| && 0 <= k < |spines| ==> spines[k] < |g[p]|
  }

  ghost function Slice(g: seq<seq<real>>, spines: seq<nat>): (s: seq<seq<real>>)
    requires Fits(g, spines)
    ensures |s| == |g| && Rectangular(s, |spines|)
    ensures forall p, k :: 0 <= p < |g| && 0 <= k < |spines| ==> s[p][k] == g[p][spines[k]]
  {
    seq(|g|, p requires 0 <= p < |g| => seq(|spines|, k requires 0 <= k < |spines| => g[p][spines[k]]))
  }

  /** The flow's weights, plane by plane over its spine subset. */
  ghost function Flat(g: seq<seq<real>>, spines: seq<nat>): (f: seq<real>)
    requires Fits(g, spines)
    ensures |f| == |g| * |spines| > 0
  {
    FlattenLength(Slice(g, spines), |spines|);
    PositiveProduct(|g|, |spines|);
    Flatten(Slice(g, spines))
  }

  lemma {:induction false} PositiveProduct(a: nat, b: nat)
    requires a > 0 && b > 0
    ensures a * b > 0
  {
  }

  ghost function Scan(cdf: seq<real>, u: real): (p: nat)
    requires cdf != []
    ensures p < |cdf|
  {
    if |cdf| == 1 || u < cdf[0] then 0 else 1 + Scan(cdf[1..], u)
  }

  lemma {:induction false} ScanIsFirstAbove(cdf: seq<real>, u: real, p: nat)
    requires IsFirstAbove(cdf, u, p)
    ensures Scan(cdf, u) == p
  {
    if p > 0 {
      assert cdf[0] <= u;
      assert IsFirstAbove(cdf[1..], u, p - 1);
      ScanIsFirstAbove(cdf[1..], u, p - 1);
    }
  }

  lemma {:induction false} ScanFinds(cdf: seq<real>, u: real)
    requires cdf != [] && u < cdf[|cdf| - 1]
    ensures IsFirstAbove(cdf, u, Scan(cdf, u))
  {
    if |cdf| > 1 && u >= cdf[0] { ScanFinds(cdf[1..], u); }
  }

  ghost function PickIndex(flat: seq<real>, h: nat, n: nat): (i: nat)
    requires flat != []
    ensures i < |flat|
  {
    if Sum(flat) <= 0.0 then n % |flat| else Scan(Cdf(flat), Unit(Draw(h, n)))
  }

  /** The (plane, spine) of packet `n` of a flow with hash `h`, for weight grid `g`. */
  ghost function ChosenEv(g: seq<seq<real>>, spines: seq<nat>, h: nat, n: nat): (nat, nat)
    requires Fits(g, spines)
  {
    Decode(spines, PickIndex(Flat(g, spines), h, n))
  }

  function Decode(spines: seq<nat>, i: nat): (nat, nat)
    requires spines != []
  {
    (i / |spines|, spines[i % |spines|])
  }

  // ---------------------------------------------------------------- the pick is safe

  lemma {:induction false} CellOf(g: seq<seq<real>>, spines: seq<nat>, i: nat)
    requires Fits(g, spines) && i < |g| * |spines|
    ensures i / |spines| < |g|
    ensures Flat(g, spines)[i] == g[i / |spines|][spines[i % |spines|]]
  {
    var n := |spines|;
    var p, k := i / n, i % n;
    assert n * |g| == |g| * n;
    DivBound(i, n, |g|);
    FlattenAt(Slice(g, spines), n, p, k);
    assert Index(|g|, n, p, k) == p * n + k == i;
  }

  lemma {:induction false} IndexOfCell(g: seq<seq<real>>, spines: seq<nat>, p: nat, k: nat) returns (i: nat)
    requires Fits(g, spines) && p < |g| && k < |spines|
    ensures i < |g| * |spines| && Flat(g, spines)[i] == g[p][spines[k]]
  {
    i := Index(|g|, |spines|, p, k);
    FlattenAt(Slice(g, spines), |spines|, p, k);
  }

  lemma {:induction false} SumBounds(ws: seq<real>)
    requires NonNegative(ws)
    ensures Sum(ws) >= 0.0
    ensures Sum(ws) == 0.0 <==> forall k :: 0 <= k < |ws| ==> ws[k] == 0.0
  {
    if ws != [] {
      SumBounds(ws[1..]);
      assert forall k :: 1 <= k < |ws| ==> ws[k] == ws[1..][k - 1];
    }
  }

  /** A slot drawn from a vector has weight zero exactly when the whole vector is zero. */
  lemma {:induction false} PickIndexCarriesWeight(flat: seq<real>, h: nat, n: nat)
    requires flat != [] && NonNegative(flat)
    ensures flat[PickIndex(flat, h, n)] == 0.0 <==> forall k :: 0 <= k < |flat| ==> flat[k] == 0.0
  {
    SumBounds(flat);
    if Sum(flat) > 0.0 {
      var u := Unit(Draw(h, n));
      UnitBelowOne(Draw(h, n));
      ShareEnds(flat);
      ScanFinds(Cdf(flat), u);
      PickCarriesWeight(flat, u, Scan(Cdf(flat), u));
    }
  }

  ghost predicate GridNonNegative(g: seq<seq<real>>) {
    forall p, q :: 0 <= p < |g| && 0 <= q < |g[p]| ==> g[p][q] >= 0.0
  }

  /** Every EV of the flow's subset has weight zero. */
  ghost predicate SliceZero(g: seq<seq<real>>, spines: seq<nat>)
    requires Fits(g, spines)
  {
    forall q, k :: 0 <= q < |g| && 0 <= k < |spines| ==> g[q][spines[k]] == 0.0
  }

  lemma {:induction false} FlatMirrorsSlice(g: seq<seq<real>>, spines: seq<nat>)
    requires Fits(g, spines) && GridNonNegative(g)
    ensures NonNegative(Flat(g, spines))
    ensures SliceZero(g, spines) <==> forall i :: 0 <= i < |Flat(g, spines)| ==> Flat(g, spines)[i] == 0.0
  {
    var flat := Flat(g, spines);
    forall i | 0 <= i < |flat|
      ensures flat[i] >= 0.0 && (SliceZero(g, spines) ==> flat[i] == 0.0)
    {
      CellOf(g, spines, i);
    }
    if forall i :: 0 <= i < |flat| ==> flat[i] == 0.0 {
      forall q, k | 0 <= q < |g| && 0 <= k < |spines| ensures g[q][spines[k]] == 0.0 {
        var j := IndexOfCell(g, spines, q, k);
      }
    }
  }

  /**
    The picked EV is in range and in the flow's subset, and it has weight zero exactly when every
    EV of the flow's subset has.
   */
  lemma {:induction false} PickEvIsSafe(g: seq<seq<real>>, spines: seq<nat>, h: nat, n: nat)
    requires Fits(g, spines) && GridNonNegative(g)
    ensures var (p, s) := ChosenEv(g, spines, h, n);
      p < |g| && s in spines && s < |g[p]| && (g[p][s] == 0.0 <==> SliceZero(g, spines))
  {
    FlatMirrorsSlice(g, spines);
    PickIndexCarriesWeight(Flat(g, spines), h, n);
    CellOf(g, spines, PickIndex(Flat(g, spines), h, n));
  }

  lemma {:induction false} ShareSign(w: real, total: real)
    requires total > 0.0 && w >= 0.0
    ensures w / total >= 0.0 && (w / total == 0.0 <==> w == 0.0)
  {
  }

  ghost function StateAt(t: Table, p: nat, q: nat): State
    requires Shaped(t) && p < t.planes && q < t.paths
  {
    t.recs[Index(t.planes, t.paths, p, q)].state
  }

  /** Every EV of the flow's subset is ASSUMED_BAD. */
  ghost predicate SubsetBad(t: Table, spines: seq<nat>)
    requires Shaped(t) && SubsetOf(spines, t.paths)
  {
    forall q, k :: 0 <= q < t.planes && 0 <= k < |spines| ==> StateAt(t, q, spines[k]) == AssumedBad
  }

  /**
    Over every run of the table from a fresh start, every flow subset, hash and packet number: the
    picked EV exists and is in the subset, and it is ASSUMED_BAD exactly when all EVs of the subset
    are.  With the full fan-out it is therefore never bad.
   */
  lemma {:induction false} NeverPicksBad(
    cfg: Config, planes: nat, paths: nat, es: seq<Event>, spines: seq<nat>, h: nat, n: nat)
    requires planes >= 1 && paths >= 1 && SubsetOf(spines, paths)
    ensures var t := Run(Init(cfg, planes, paths), es);
      && Shaped(t) && t.planes == planes && t.paths == paths && Fits(Published(t), spines)
      && var (p, s) := ChosenEv(Published(t), spines, h, n);
      && p < planes && s in spines && s < paths
      && (StateAt(t, p, s) == AssumedBad <==> SubsetBad(t, spines))
      && ((forall x: nat :: x < paths ==> x in spines) ==> StateAt(t, p, s) != AssumedBad)
  {
    EveryRunKeepsFloorAndWeights(cfg, planes, paths, es);
    var t := Run(Init(cfg, planes, paths), es);
    PickOnPublished(t, spines, h, n);
    if forall x: nat :: x < paths ==> x in spines { FullFanOutHasUsable(t, spines); }
  }

  /** The same over every interleaving of probes, ticks, loss windows and whole loss reports. */
  lemma {:induction false} NeverPicksBadAmidReports(
    cfg: Config, planes: nat, paths: nat, es: seq<LoopEvent>, spines: seq<nat>, h: nat, n: nat)
    requires planes >= 1 && paths >= 1 && SubsetOf(spines, paths)
    ensures var t := LoopRun(Init(cfg, planes, paths), es);
      && t.planes == planes && t.paths == paths && Fits(Published(t), spines)
      && var (p, s) := ChosenEv(Published(t), spines, h, n);
      && p < planes && s in spines && s < paths
      && (StateAt(t, p, s) == AssumedBad <==> SubsetBad(t, spines))
      && ((forall x: nat :: x < paths ==> x in spines) ==> StateAt(t, p, s) != AssumedBad)
  {
    InitInv(cfg, planes, paths);
    LoopKeepsFloor(Init(cfg, planes, paths), es);
    var t := LoopRun(Init(cfg, planes, paths), es);
    hide LoopRun, Published, ChosenEv;
    PickOnPublished(t, spines, h, n);
    if forall x: nat :: x < paths ==> x in spines { FullFanOutHasUsable(t, spines); }
  }

  /** What the live policy picks on table `t`. */
  ghost function LivePick(t: Table, flow: FlowKey, size: nat, n: nat): (nat, nat)
    requires Shaped(t) && t.planes >= 1 && 1 <= size <= t.paths
  {
    ChosenEv(Published(t), Subset(flow, t.paths, size), Hash5(flow), n)
  }

  lemma {:induction false} PickOnPublished(t: Table, spines: seq<nat>, h: nat, n: nat)
    requires Shaped(t) && t.planes >= 1 && Usable(t.recs) >= 1 && SubsetOf(spines, t.paths)
    ensures Fits(Published(t), spines)
    ensures var (p, s) := ChosenEv(Published(t), spines, h, n);
      && p < t.planes && s in spines && s < t.paths
      && (StateAt(t, p, s) == AssumedBad <==> SubsetBad(t, spines))
  {
    var g := Published(t);
    PublishedZeros(t);
    PickEvIsSafe(g, spines, h, n);
    assert SliceZero(g, spines) <==> SubsetBad(t, spines);
  }

  lemma {:induction false} FullFanOutHasUsable(t: Table, spines: seq<nat>)
    requires Shaped(t) && Usable(t.recs) >= 1 && SubsetOf(spines, t.paths)
    requires forall x: nat :: x < t.paths ==> x in spines
    ensures !SubsetBad(t, spines)
  {
    var i := SomeUsable(t.recs);
    var q: nat, x: nat := i / t.paths, i % t.paths;
    DivBound(i, t.paths, t.planes);
    assert q * t.paths + x == i;
    assert x in spines;
    hide Usable;
    var k :| 0 <= k < |spines| && spines[k] == x;
    assert StateAt(t, q, spines[k]) == t.recs[i].state;
  }

  /** The published weight of an EV is non-negative, and zero exactly when the EV is bad. */
  lemma {:induction false} PublishedZeros(t: Table)
    requires Shaped(t) && Usable(t.recs) >= 1
    ensures forall p, q :: 0 <= p < t.planes && 0 <= q < t.paths ==>
      && Published(t)[p][q] >= 0.0
      && (Published(t)[p][q] == 0.0 <==> StateAt(t, p, q) == AssumedBad)
  {
    FlatWeightsNormalised(t.recs);
    forall p, q | 0 <= p < t.planes && 0 <= q < t.paths
      ensures Published(t)[p][q] >= 0.0
      ensures Published(t)[p][q] == 0.0 <==> StateAt(t, p, q) == AssumedBad
    {
      ShareSign(Weight(StateAt(t, p, q)), Sum(RawWeights(t.recs)));
    }
  }

  lemma {:induction false} SomeUsable(recs: seq<Rec>) returns (i: nat)
    requires Usable(recs) >= 1
    ensures i < |recs| && recs[i].state != AssumedBad
  {
    if recs[0].state != AssumedBad {
      i := 0;
    } else {
      i := SomeUsable(recs[1..]);
      i := i + 1;
    }
  }

  // ---------------------------------------------------------------- the pickers

  /** Walks the grid plane by plane over the subset, as both pickers do. */
  method Flattened(g: seq<seq<real>>, spines: seq<nat>) returns (flat: seq<real>)
    requires Fits(g, spines)
    ensures flat == Flat(g, spines)
  {
    ghost var s := Slice(g, spines);
    flat := [];
    for plane := 0 to |g|
      invariant flat == Flatten(s[..plane])
    {
      var row: seq<real> := [];
      for k := 0 to |spines|
        invariant row == s[plane][..k]
      {
        row := row + [g[plane][spines[k]]];
      }
      assert row == s[plane] && s[..plane + 1][..plane] == s[..plane];
      flat := flat + row;
    }
    assert s[..|g|] == s;
  }

  /** The per-flow subset, cached under the flow; an `n` out of range cannot be constructed. */
  ghost predicate SubsetsRight(cache: map<FlowKey, seq<nat>>, paths: nat, n: nat) {
    1 <= n <= paths && forall f :: f in cache ==> cache[f] == Subset(f, paths, n)
  }

  method SpinesForFlow(f: FlowKey, cache: map<FlowKey, seq<nat>>, paths: nat, n: nat)
    returns (s: seq<nat>, cache': map<FlowKey, seq<nat>>)
    requires SubsetsRight(cache, paths, n)
    ensures s == Subset(f, paths, n) && SubsetsRight(cache', paths, n)
  {
    if f in cache { return cache[f], cache; }
    s := Subset(f, paths, n);
    cache' := cache[f := s];
  }

  /** One pick on a flattened slice: round-robin when it is all zero, else a weighted draw. */
  method PickSlot(flat: seq<real>, h: nat, n: nat) returns (i: nat)
    requires flat != []
    ensures i == PickIndex(flat, h, n)
  {
    hide Draw, Unit, Cdf, Sum, Scan;
    var total := SumOf(flat);
    if total > 0.0 {
      var cdf := BuildCdf(flat);
      i := WeightedPick(n, h, cdf);
      ScanIsFirstAbove(cdf, Unit(Draw(h, n)), i);
    } else {
      i := n % |flat|;
    }
  }

  /** One pick on a weight grid. */
  method PickFromGrid(g: seq<seq<real>>, spines: seq<nat>, h: nat, n: nat) returns (plane: nat, spine: nat)
    requires Fits(g, spines)
    ensures (plane, spine) == ChosenEv(g, spines, h, n)
  {
    hide PickIndex, Flat, Fits;
    var flat := Flattened(g, spines);
    var i := PickSlot(flat, h, n);
    plane, spine := i / |spines|, spines[i % |spines|];
  }

  /** The live policy, reading the table at every pick. */
  class HealthAwareMrc {
    const table: EvStateTable
    const tenant: string
    const pathsPerPlane: nat
    var spineSubsets: map<FlowKey, seq<nat>>

    ghost predicate Valid()
      reads this
    {
      table.planes >= 1 && SubsetsRight(spineSubsets, table.paths, pathsPerPlane)
    }

    constructor (table: EvStateTable, tenant: string, pathsPerPlane: nat)
      requires table.planes >= 1 && 1 <= pathsPerPlane <= table.paths
      ensures Valid() && this.table == table && this.tenant == tenant && this.pathsPerPlane == pathsPerPlane
    {
      this.table, this.tenant, this.pathsPerPlane, spineSubsets := table, tenant, pathsPerPlane, map[];
    }

    method PickEv(n: nat, flow: FlowKey) returns (plane: nat, spine: nat)
      requires Valid() && table.Valid(tenant)
      modifies this`spineSubsets
      ensures Valid()
      ensures (plane, spine) == LivePick(old(table.Abs(tenant)), flow, pathsPerPlane, n)
    {
      hide ChosenEv, Subset, Hash5, Published;
      var wgrid := table.WeightsEv(tenant);
      var spines, cache := SpinesForFlow(flow, spineSubsets, table.paths, pathsPerPlane);
      spineSubsets := cache;
      plane, spine := PickFromGrid(wgrid.value, spines, Hash5(flow), n);
    }
  }
}
