/**
  What every run of the EV state machine keeps: the demotion floor, weights that are the normalised
  state weights, and the record bounds; and that `tick`, which recounts the usable EVs at every demote,
  is the same as one row-major pass carrying a single running count.
 */
module EvInvariant {
  import opened Arith
  import opened Grids
  import opened EvState

  // ---------------------------------------------------------------- counting

  function IsUsable(r: Rec): nat { if r.state != AssumedBad then 1 else 0 }

  lemma {:induction false} UsableConcat(a: seq<Rec>, b: seq<Rec>)
    ensures Usable(a + b) == Usable(a) + Usable(b)
  {
    if a == [] {
      assert a + b == b;
    } else {
      assert (a + b)[1..] == a[1..] + b;
      UsableConcat(a[1..], b);
    }
  }

  lemma {:induction false} UsableSplit(recs: seq<Rec>, i: nat)
    requires i < |recs|
    ensures Usable(recs) == UsableWithout(recs, i) + IsUsable(recs[i])
  {
    if i > 0 {
      UsableSplit(recs[1..], i - 1);
      assert recs[..i][1..] == recs[1..][..i - 1];
      assert recs[1..][i..] == recs[i + 1..];
    }
  }

  lemma {:induction false} UsableUpdate(recs: seq<Rec>, i: nat, r: Rec)
    requires i < |recs|
    ensures Usable(recs[i := r]) == Usable(recs) - IsUsable(recs[i]) + IsUsable(r)
    ensures UsableWithout(recs[i := r], i) == UsableWithout(recs, i)
  {
    var u := recs[i := r];
    assert u[..i] == recs[..i] && u[i + 1..] == recs[i + 1..];
    UsableSplit(recs, i);
    UsableSplit(u, i);
  }

  lemma {:induction false} SameStates(a: seq<Rec>, b: seq<Rec>)
    requires |a| == |b|
    requires forall i :: 0 <= i < |a| ==> a[i].state == b[i].state
    ensures FlatWeights(a) == FlatWeights(b)
  {
    assert RawWeights(a) == RawWeights(b);
  }

  // ---------------------------------------------------------------- the invariant

  ghost predicate RecOk(cfg: Config, r: Rec) {
    |r.buckets| <= cfg.windowTicks && r.level <= cfg.backoffMaxLevel
  }

  /** The floor holds and records are bounded. */
  ghost predicate Inv(t: Table) {
    && Shaped(t)
    && 1 <= t.minActive <= Usable(t.recs)
    && (forall i :: 0 <= i < |t.recs| ==> RecOk(t.cfg, t.recs[i]))
  }

  ghost predicate SameShape(t: Table, t': Table) {
    && t'.cfg == t.cfg && t'.planes == t.planes && t'.paths == t.paths
    && t'.minActive == t.minActive && |t'.recs| == |t.recs|
  }

  lemma {:induction false} InitInv(cfg: Config, planes: nat, paths: nat)
    requires planes >= 1 && paths >= 1
    ensures Inv(Init(cfg, planes, paths))
  {
    var t := Init(cfg, planes, paths);
    assert planes * paths >= 1 by { IndexBound(planes, paths, 0, 0); }
    AllUsable(t.recs);
  }

  lemma {:induction false} AllUsable(recs: seq<Rec>)
    requires forall i :: 0 <= i < |recs| ==> recs[i].state != AssumedBad
    ensures Usable(recs) == |recs|
  {
    if recs != [] { AllUsable(recs[1..]); }
  }

  lemma {:induction false} PutInv(t: Table, i: nat, r: Rec)
    requires Inv(t) && i < |t.recs|
    requires r.state == t.recs[i].state && RecOk(t.cfg, r)
    ensures Inv(Put(t, i, r))
  {
    UsableUpdate(t.recs, i, r);
  }

  lemma {:induction false} TransitionInv(t: Table, i: nat, s: State)
    requires Inv(t) && i < |t.recs|
    requires s == AssumedBad ==> UsableWithout(t.recs, i) >= t.minActive
    ensures Inv(Transition(t, i, s))
  {
    UsableUpdate(t.recs, i, Entered(t.recs[i], s, t.ticks));
    UsableSplit(t.recs, i);
  }

  lemma {:induction false} TryDemoteInv(t: Table, i: nat, byLoss: bool)
    requires Inv(t) && i < |t.recs|
    ensures Inv(TryDemote(t, i, byLoss))
  {
    var r := t.recs[i];
    if UsableWithout(t.recs, i) < t.minActive {
      PutInv(t, i, r.(suppressed := r.suppressed + 1));
    } else {
      var marked := r.(level := DemoteLevel(t.cfg, r, byLoss, t.ticks), lossDemoted := byLoss);
      PutInv(t, i, marked);
      UsableUpdate(t.recs, i, marked);
      TransitionInv(Put(t, i, marked), i, AssumedBad);
    }
  }

  lemma {:induction false} EvaluateInv(t: Table, i: nat)
    requires Inv(t) && i < |t.recs|
    ensures Inv(Evaluate(t, i))
  {
    var r := t.recs[i];
    var sent, recv := SumSent(r.buckets), SumRecv(r.buckets);
    assert RecOk(t.cfg, r);
    hide Usable, TryDemote, Transition;
    if sent == 0 {
      PutInv(t, i, r.(lastProbeRatio := 0.0));
    } else {
      var r1 := r.(lastProbeRatio := ProbeRatio(sent, recv));
      PutInv(t, i, r1.(healthy := 0));
      TryDemoteInv(Put(t, i, r1.(healthy := 0)), i, false);
      var r2 := r1.(healthy := r1.healthy + 1);
      PutInv(t, i, r2);
      TransitionInv(Put(t, i, r2), i, Good);
    }
  }

  lemma {:induction false} TickFromInv(t: Table, i: nat)
    requires Inv(t) && i <= |t.recs|
    ensures Inv(TickFrom(t, i)) && SameShape(t, TickFrom(t, i)) && TickFrom(t, i).ticks == t.ticks
    decreases |t.recs| - i
  {
    if i < |t.recs| {
      var t1 := Put(t, i, Rotate(t.cfg, t.recs[i]));
      PutInv(t, i, Rotate(t.cfg, t.recs[i]));
      EvaluateInv(t1, i);
      EvaluateFrame(t1, i);
      TickFromInv(Evaluate(t1, i), i + 1);
    }
  }

  lemma {:induction false} LossWindowInv(t: Table, i: nat, seen: nat, expected: nat)
    requires Inv(t) && i < |t.recs|
    ensures Inv(LossWindow(t, i, seen, expected)) && SameShape(t, LossWindow(t, i, seen, expected))
    ensures LossWindow(t, i, seen, expected).ticks == t.ticks
  {
    if expected != 0 {
      var ratio := LossRatio(seen, expected);
      var r := t.recs[i].(lastLossRatio := ratio);
      if ratio > t.cfg.lossThreshold {
        var r1 := r.(lossStreak := r.lossStreak + 1);
        PutInv(t, i, r1);
        TryDemoteInv(Put(t, i, r1), i, true);
      } else if ratio <= t.cfg.lossThreshold / 2.0 {
        PutInv(t, i, r.(lossStreak := 0));
      } else {
        PutInv(t, i, r);
      }
    }
  }

  lemma {:induction false} StepInv(t: Table, e: Event)
    requires Inv(t)
    ensures Inv(Step(t, e)) && SameShape(t, Step(t, e))
  {
    match e
    case TickEvent => TickFromInv(t.(ticks := t.ticks + 1), 0);
    case ProbeSent(i) => if i < |t.recs| { PutInv(t, i, Step(t, e).recs[i]); }
    case ProbeRecv(i) => if i < |t.recs| { PutInv(t, i, Step(t, e).recs[i]); }
    case Loss(i, seen, expected) => if i < |t.recs| { LossWindowInv(t, i, seen, expected); }
  }

  lemma {:induction false} RunInv(t: Table, es: seq<Event>)
    requires Inv(t)
    ensures Inv(Run(t, es)) && SameShape(t, Run(t, es))
    decreases |es|
  {
    if es != [] {
      StepInv(t, es[0]);
      RunInv(Step(t, es[0]), es[1..]);
    }
  }

  // ---------------------------------------------------------------- published weights

  lemma {:induction false} SumScaled(w: seq<real>, v: seq<real>, total: real)
    requires total > 0.0 && |v| == |w|
    requires forall i :: 0 <= i < |w| ==> v[i] == w[i] / total
    ensures Sum(v) == Sum(w) / total
  {
    if w != [] { SumScaled(w[1..], v[1..], total); }
  }

  lemma {:induction false} RawSumPositive(recs: seq<Rec>)
    ensures Sum(RawWeights(recs)) >= Usable(recs) as real / 2.0
  {
    if recs != [] {
      RawSumPositive(recs[1..]);
      assert RawWeights(recs)[1..] == RawWeights(recs[1..]);
    }
  }

  lemma {:induction false} FlatWeightsAt(recs: seq<Rec>, raw: seq<real>, total: real)
    requires raw == RawWeights(recs) && total == Sum(raw) > 0.0
    ensures forall i :: 0 <= i < |recs| ==> FlatWeights(recs)[i] == raw[i] / total
  {
  }

  /** With one usable EV the weights are the normalised state weights: the uniform branch is dead. */
  lemma {:induction false} FlatWeightsNormalised(recs: seq<Rec>)
    requires Usable(recs) >= 1
    ensures Sum(RawWeights(recs)) > 0.0
    ensures Sum(FlatWeights(recs)) == 1.0
    ensures forall i :: 0 <= i < |recs| ==>
      FlatWeights(recs)[i] == Weight(recs[i].state) / Sum(RawWeights(recs))
  {
    var raw := RawWeights(recs);
    var total := Sum(raw);
    assert total > 0.0 by { RawSumPositive(recs); }
    FlatWeightsAt(recs, raw, total);
    SumOfShares(raw, FlatWeights(recs), total);
  }

  lemma {:induction false} SumOfShares(w: seq<real>, v: seq<real>, total: real)
    requires total == Sum(w) > 0.0 && |v| == |w|
    requires forall i :: 0 <= i < |w| ==> v[i] == w[i] / total
    ensures Sum(v) == 1.0
  {
    SumScaled(w, v, total);
    SelfRatio(total);
  }

  lemma {:induction false} SelfRatio(x: real)
    requires x > 0.0
    ensures x / x == 1.0
  {
  }

  /**
    Over every run from a fresh table, whatever the configuration and the events: at least
    `minActive >= 1` EVs stay usable, and the grid to publish holds exactly the normalised weights
    of the current states, which sum to one: the uniform fallback is unreachable.
   */
  lemma {:induction false} EveryRunKeepsFloorAndWeights(cfg: Config, planes: nat, paths: nat, es: seq<Event>)
    requires planes >= 1 && paths >= 1
    ensures var t := Run(Init(cfg, planes, paths), es);
      && t.planes == planes && t.paths == paths && |t.recs| == planes * paths
      && t.minActive == cfg.ResolveMinActive(planes * paths)
      && 1 <= t.minActive <= Usable(t.recs)
      && Sum(RawWeights(t.recs)) > 0.0
      && Sum(FlatWeights(t.recs)) == 1.0
      && (forall p, q :: 0 <= p < planes && 0 <= q < paths ==>
            Published(t)[p][q] ==
            Weight(t.recs[Index(planes, paths, p, q)].state) / Sum(RawWeights(t.recs)))
  {
    InitInv(cfg, planes, paths);
    RunInv(Init(cfg, planes, paths), es);
    FlatWeightsNormalised(Run(Init(cfg, planes, paths), es).recs);
  }

  // ---------------------------------------------------------------- one running count

  /** One EV's share of a tick, given the number `u` of usable EVs at that moment. */
  function Cell(cfg: Config, minActive: int, now: nat, r: Rec, u: int): (Rec, int) {
    var r0 := Rotate(cfg, r);
    CellOn(cfg, minActive, now, r0, SumSent(r0.buckets), SumRecv(r0.buckets), u)
  }

  function CellOn(cfg: Config, minActive: int, now: nat, r: Rec, sent: nat, recv: nat, u: int): (Rec, int)
  {
    if sent == 0 then (r.(lastProbeRatio := 0.0), u)
    else
      var ratio := ProbeRatio(sent, recv);
      var r1 := r.(lastProbeRatio := ratio);
      if sent < cfg.minSamples then (r1.(healthy := 0), u)
      else if ratio < cfg.failRatio then
        if r.state == AssumedBad then (r1.(healthy := 0), u)
        else if u - 1 < minActive then (r1.(healthy := 0, suppressed := r1.suppressed + 1), u)
        else (Entered(r1.(healthy := 0, lossDemoted := false), AssumedBad, now), u - 1)
      else if ratio >= cfg.recoverRatio then
        var r2 := r1.(healthy := r1.healthy + 1);
        if r2.state != Good && r2.lossStreak == 0 && r2.healthy >= Hold(cfg, r2)
        then (Entered(r2, Good, now), u + 1 - IsUsable(r))
        else (r2, u)
      else (r1.(healthy := 0), u)
  }

  function FoldCells(cfg: Config, minActive: int, now: nat, rs: seq<Rec>, u: int): (out: seq<Rec>)
    ensures |out| == |rs|
  {
    if rs == [] then []
    else
      var (r, u') := Cell(cfg, minActive, now, rs[0], u);
      [r] + FoldCells(cfg, minActive, now, rs[1..], u')
  }

  /** What a demote attempt does to the records, by the number of usable EVs. */
  lemma {:induction false} TryDemoteRecs(t: Table, i: nat, byLoss: bool)
    requires i < |t.recs| && t.recs[i].state != AssumedBad
    ensures var r := t.recs[i]; TryDemote(t, i, byLoss).recs == t.recs[i :=
      if Usable(t.recs) - 1 < t.minActive then r.(suppressed := r.suppressed + 1)
      else Entered(r.(level := DemoteLevel(t.cfg, r, byLoss, t.ticks), lossDemoted := byLoss), AssumedBad, t.ticks)]
  {
    UsableSplit(t.recs, i);
  }

  lemma {:induction false} JudgeIsCell(t: Table, i: nat, sent: nat, recv: nat)
    requires i < |t.recs|
    ensures var (r, u) := CellOn(t.cfg, t.minActive, t.ticks, t.recs[i], sent, recv, Usable(t.recs));
      Judge(t, i, sent, recv).recs == t.recs[i := r]
  {
    hide Usable, TryDemote;
    var r := t.recs[i];
    if sent > 0 && sent >= t.cfg.minSamples && ProbeRatio(sent, recv) < t.cfg.failRatio && r.state != AssumedBad {
      var r1 := r.(lastProbeRatio := ProbeRatio(sent, recv), healthy := 0);
      UsableUpdate(t.recs, i, r1);
      TryDemoteRecs(Put(t, i, r1), i, false);
    }
  }

  lemma {:induction false} CellCounts(t: Table, i: nat, sent: nat, recv: nat)
    requires i < |t.recs|
    ensures var (r, u) := CellOn(t.cfg, t.minActive, t.ticks, t.recs[i], sent, recv, Usable(t.recs));
      Usable(t.recs[i := r]) == u
  {
    var (r, u) := CellOn(t.cfg, t.minActive, t.ticks, t.recs[i], sent, recv, Usable(t.recs));
    UsableUpdate(t.recs, i, r);
  }

  lemma {:induction false} EvaluateIsCell(t: Table, i: nat)
    requires i < |t.recs|
    ensures var t' := Evaluate(Put(t, i, Rotate(t.cfg, t.recs[i])), i);
            var (r, u) := Cell(t.cfg, t.minActive, t.ticks, t.recs[i], Usable(t.recs));
      t'.recs == t.recs[i := r] && Usable(t'.recs) == u
  {
    var r0 := Rotate(t.cfg, t.recs[i]);
    var t1 := Put(t, i, r0);
    UsableUpdate(t.recs, i, r0);
    JudgeIsCell(t1, i, SumSent(r0.buckets), SumRecv(r0.buckets));
    CellCounts(t1, i, SumSent(r0.buckets), SumRecv(r0.buckets));
    var (r, u) := Cell(t.cfg, t.minActive, t.ticks, t.recs[i], Usable(t.recs));
    assert t1.recs[i := r] == t.recs[i := r];
  }

  lemma {:induction false} FoldStep(cfg: Config, minActive: int, now: nat, rs: seq<Rec>, i: nat, u: int)
    requires i < |rs|
    ensures var (r, u') := Cell(cfg, minActive, now, rs[i], u);
      FoldCells(cfg, minActive, now, rs[i..], u) == [r] + FoldCells(cfg, minActive, now, rs[i + 1..], u')
  {
    assert rs[i..][1..] == rs[i + 1..];
  }

  lemma {:induction false} TickOne(t: Table, i: nat) returns (t2: Table)
    requires i < |t.recs|
    ensures |t2.recs| == |t.recs|
    ensures t2.cfg == t.cfg && t2.minActive == t.minActive && t2.ticks == t.ticks
    ensures TickFrom(t, i) == TickFrom(t2, i + 1)
    ensures var (r, u) := Cell(t.cfg, t.minActive, t.ticks, t.recs[i], Usable(t.recs));
      t2.recs == t.recs[i := r] && Usable(t2.recs) == u
  {
    var t1 := Put(t, i, Rotate(t.cfg, t.recs[i]));
    t2 := Evaluate(t1, i);
    EvaluateFrame(t1, i);
    EvaluateIsCell(t, i);
  }

  lemma {:induction false} UpdateSlices<T>(s: seq<T>, i: nat, x: T, rest: seq<T>)
    requires i < |s|
    ensures s[i := x][..i + 1] + rest == s[..i] + ([x] + rest)
    ensures s[i := x][i + 1..] == s[i + 1..]
  {
    assert s[i := x][..i + 1] == s[..i] + [x];
  }

  lemma {:induction false} TickFromIsFold(t: Table, i: nat)
    requires i <= |t.recs|
    ensures TickFrom(t, i).recs ==
      t.recs[..i] + FoldCells(t.cfg, t.minActive, t.ticks, t.recs[i..], Usable(t.recs))
    decreases |t.recs| - i
  {
    if i == |t.recs| {
      assert t.recs[i..] == [] && t.recs[..i] == t.recs;
    } else {
      hide *;
      var t2 := TickOne(t, i);
      var (r, u) := Cell(t.cfg, t.minActive, t.ticks, t.recs[i], Usable(t.recs));
      var rest := FoldCells(t.cfg, t.minActive, t.ticks, t.recs[i + 1..], u);
      TickFromIsFold(t2, i + 1);
      UpdateSlices(t.recs, i, r, rest);
      assert TickFrom(t2, i + 1).recs == t.recs[..i] + ([r] + rest);
      FoldStep(t.cfg, t.minActive, t.ticks, t.recs, i, Usable(t.recs));
    }
  }

  /** `tick` recounts the table before every demote; one pass with a running count does the same. */
  lemma {:induction false} TickIsOnePass(t: Table)
    ensures Tick(t).recs ==
      FoldCells(t.cfg, t.minActive, t.ticks + 1, t.recs, Usable(t.recs))
  {
    TickFromIsFold(t.(ticks := t.ticks + 1), 0);
    assert t.recs[..0] == [] && t.recs[0..] == t.recs;
  }

  // ---------------------------------------------------------------- fabric-wide probe failure

  /** The window of `r`, once this tick's bucket is in, is failing. */
  ghost predicate Failing(cfg: Config, r: Rec) {
    var sent, recv := SumSent(Rotate(cfg, r).buckets), SumRecv(Rotate(cfg, r).buckets);
    sent > 0 && sent >= cfg.minSamples && Min(recv, sent) as real < cfg.failRatio * sent as real
  }

  lemma {:induction false} FailingRatio(cfg: Config, r: Rec)
    requires Failing(cfg, r)
    ensures var b := Rotate(cfg, r).buckets; ProbeRatio(SumSent(b), SumRecv(b)) < cfg.failRatio
  {
    var b := Rotate(cfg, r).buckets;
    DivideBoth(Min(SumRecv(b), SumSent(b)) as real, SumSent(b) as real, cfg.failRatio);
  }

  lemma {:induction false} FoldAllFailing(cfg: Config, minActive: int, now: nat, rs: seq<Rec>, u: int)
    requires forall i :: 0 <= i < |rs| ==> Failing(cfg, rs[i])
    requires u >= minActive >= 1
    ensures forall i :: 0 <= i < |rs| ==>
      FoldCells(cfg, minActive, now, rs, u)[i].state ==
      if Usable(rs[..i]) < u - minActive then AssumedBad else rs[i].state
    decreases |rs|
  {
    if rs != [] {
      FailingRatio(cfg, rs[0]);
      var (r, u') := Cell(cfg, minActive, now, rs[0], u);
      FoldAllFailing(cfg, minActive, now, rs[1..], u');
      var out := FoldCells(cfg, minActive, now, rs, u);
      forall i | 0 <= i < |rs|
        ensures out[i].state == if Usable(rs[..i]) < u - minActive then AssumedBad else rs[i].state
      {
        if i > 0 {
          assert rs[..i][1..] == rs[1..][..i - 1];
          assert out[i] == FoldCells(cfg, minActive, now, rs[1..], u')[i - 1];
        }
      }
    }
  }

  /**
    When every window fails at once, one tick demotes exactly the first `usable - minActive` EVs
    that were not already bad, in row-major order, and no others.
   */
  lemma {:induction false} FabricWideFailure(t: Table)
    requires Inv(t)
    requires forall i :: 0 <= i < |t.recs| ==> Failing(t.cfg, t.recs[i])
    ensures forall i :: 0 <= i < |t.recs| ==>
      Tick(t).recs[i].state ==
      if Usable(t.recs[..i]) < Usable(t.recs) - t.minActive then AssumedBad else t.recs[i].state
  {
    TickIsOnePass(t);
    FoldAllFailing(t.cfg, t.minActive, t.ticks + 1, t.recs, Usable(t.recs));
  }

  lemma {:induction false} FoldCount(cfg: Config, minActive: int, now: nat, rs: seq<Rec>, u: int)
    requires forall i :: 0 <= i < |rs| ==> Failing(cfg, rs[i])
    requires u >= minActive
    ensures Usable(FoldCells(cfg, minActive, now, rs, u)) == Usable(rs) - Min(Usable(rs), u - minActive)
    decreases |rs|
  {
    if rs != [] {
      FailingRatio(cfg, rs[0]);
      var (r, u') := Cell(cfg, minActive, now, rs[0], u);
      FoldCount(cfg, minActive, now, rs[1..], u');
      assert FoldCells(cfg, minActive, now, rs, u)[1..] == FoldCells(cfg, minActive, now, rs[1..], u');
    }
  }

  /** The floor a configuration asks for: half the EVs unless it sets one, and always within 1 and all. */
  ghost predicate FloorOf(cfg: Config, total: nat, floor: int) {
    match cfg.minActiveEvs
    case None => if total < 2 then floor == 1 else 2 * floor <= total < 2 * floor + 2
    case Some(n) => if n < 1 then floor == 1 else if n > total then floor == total else floor == n
  }

  /**
    The floor is the configured one, half the EVs by default: over every run from a fresh table no
    fewer EVs stay usable, and when every window fails at once the next tick leaves exactly so many.
   */
  lemma {:induction false} FloorIsReached(cfg: Config, planes: nat, paths: nat, es: seq<Event>, floor: int)
    requires planes >= 1 && paths >= 1 && FloorOf(cfg, planes * paths, floor)
    ensures var t := Run(Init(cfg, planes, paths), es);
      && Usable(t.recs) >= floor
      && ((forall i :: 0 <= i < |t.recs| ==> Failing(cfg, t.recs[i])) ==> Usable(Tick(t).recs) == floor)
  {
    InitInv(cfg, planes, paths);
    RunInv(Init(cfg, planes, paths), es);
    assert planes * paths >= 1 by { IndexBound(planes, paths, 0, 0); }
    var t := Run(Init(cfg, planes, paths), es);
    assert t.minActive == cfg.ResolveMinActive(planes * paths) == floor;
    hide Run, Usable, Failing;
    if forall i :: 0 <= i < |t.recs| ==> Failing(cfg, t.recs[i]) {
      TickIsOnePass(t);
      FoldCount(cfg, t.minActive, t.ticks + 1, t.recs, Usable(t.recs));
    }
  }
}
