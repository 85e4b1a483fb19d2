/**
  The whole detection loop over time: probe events, ticks and fused loss reports in any order.  The
  floor holds throughout; an EV that delivers is never pushed towards a loss demote; an EV that
  stays silent under covering reports is demoted or its demote is recorded as stopped by the floor.
 */
module LossRuns {
  import opened Arith
  import opened Wrappers
  import opened Grids
  import opened EvState
  import opened EvInvariant
  import opened EvRuns
  import opened LossFusion

  datatype LoopEvent =
    | Core(e: Event)
    | Report(rs: seq<LossRec>, paired: Option<SentWindow>)

  /** One step of the loop.  The ring only holds windows of the grid's shape, so no other pairs. */
  ghost function LoopStep(t: Table, e: LoopEvent): (t': Table)
    requires Shaped(t)
    ensures Shaped(t') && SameShape(t, t')
  {
    match e
    case Core(c) => StepShape(t, c); Step(t, c)
    case Report(rs, p) => if PairFits(p, t) then Fuse(t, rs, p) else t
  }

  ghost function LoopRun(t: Table, es: seq<LoopEvent>): (t': Table)
    requires Shaped(t)
    ensures Shaped(t') && SameShape(t, t')
    decreases |es|
  {
    if es == [] then t else LoopRun(LoopStep(t, es[0]), es[1..])
  }

  // ---------------------------------------------------------------- the floor, over the whole loop

  lemma {:induction false} FuseRecsInv(t: Table, rs: seq<LossRec>, p: Option<SentWindow>)
    requires Inv(t) && PairFits(p, t)
    ensures Inv(FuseRecs(t, rs, p))
    decreases |rs|
  {
    if rs != [] {
      var r := rs[0];
      if !r.NoData() && SentAt(p, r.plane, r.path) != 0 {
        LossWindowInv(t, Index(t.planes, t.paths, r.plane, r.path), r.Arrived(), SentAt(p, r.plane, r.path));
      }
      FuseRecsInv(FuseRec(t, r, p), rs[1..], p);
    }
  }

  lemma {:induction false} AbsentInv(t: Table, rs: seq<LossRec>, w: SentWindow, p: nat, q: nat)
    requires Inv(t) && Fitting(w, t) && p <= t.planes && q <= t.paths
    ensures Inv(AbsentFrom(t, rs, w, p, q))
    decreases t.planes - p, t.paths - q
  {
    if p < t.planes {
      if q == t.paths {
        AbsentInv(t, rs, w, p + 1, 0);
      } else {
        LossWindowInv(t, Index(t.planes, t.paths, p, q), 0, w.sent[p][q]);
        AbsentInv(AbsentCell(t, rs, w, p, q), rs, w, p, q + 1);
      }
    }
  }

  lemma {:induction false} LoopStepInv(t: Table, e: LoopEvent)
    requires Inv(t)
    ensures Inv(LoopStep(t, e))
  {
    match e
    case Core(c) => StepInv(t, c);
    case Report(rs, p) =>
      if PairFits(p, t) {
        FuseRecsInv(t, rs, p);
        if p.Some? { AbsentInv(FuseRecs(t, rs, p), rs, p.value, 0, 0); }
      }
  }

  /** However probes, ticks and loss reports interleave, at least `minActive >= 1` EVs stay usable. */
  lemma {:induction false} LoopKeepsFloor(t: Table, es: seq<LoopEvent>)
    requires Inv(t)
    ensures Inv(LoopRun(t, es))
    decreases |es|
  {
    if es != [] {
      LoopStepInv(t, es[0]);
      LoopKeepsFloor(LoopStep(t, es[0]), es[1..]);
    }
  }

  // ---------------------------------------------------------------- one EV through a report

  /** A loss window of another EV does not touch this one. */
  lemma {:induction false} LossWindowAt(t: Table, j: nat, seen: nat, expected: nat, i: nat)
    requires i < |t.recs| && j < |t.recs|
    ensures LossWindow(t, j, seen, expected).recs[i] ==
      if j == i then LossCell(t.cfg, t.minActive, t.ticks, t.recs[i], Usable(t.recs), seen, expected)
      else t.recs[i]
  {
    LossWindowCell(t, j, seen, expected);
  }

  /** No step up of the loss evidence: streak, level and mark do not grow. */
  ghost predicate Calmer(r: Rec, r': Rec) {
    && r'.lossStreak <= r.lossStreak && r'.level == r.level
    && (r'.lossDemoted ==> r.lossDemoted)
  }

  /** `expected` sent, `seen` arrived: not above the loss threshold. */
  ghost predicate Tolerable(cfg: Config, seen: nat, expected: nat) {
    expected == 0 || LossRatio(seen, expected) <= cfg.lossThreshold
  }

  /** The threshold in the terms of the counts: at least (1 - threshold) of the sends arrived. */
  lemma {:induction false} TolerableByCounts(cfg: Config, seen: nat, expected: nat)
    requires 0 < expected && cfg.lossThreshold >= 0.0
    ensures Tolerable(cfg, seen, expected) <==>
      seen as real >= (1.0 - cfg.lossThreshold) * expected as real
  {
    var s := Min(seen, expected);
    var x := expected as real;
    assert (expected - s) as real == x - s as real;
    DivideBoth(x - s as real, x, cfg.lossThreshold);
    assert cfg.lossThreshold * x == x - (1.0 - cfg.lossThreshold) * x;
    if seen > expected { assert (1.0 - cfg.lossThreshold) * x <= x; }
  }

  // ---------------------------------------------------------------- coverage, in numbers

  /** The packets a report says arrived, whole or trimmed. */
  function ArrivedIn(rs: seq<LossRec>): nat {
    Total(seq(|rs|, k requires 0 <= k < |rs| => rs[k].seen + rs[k].trimmed))
  }

  /** The packets sent on each plane of a window. */
  function PlaneTotals(g: seq<seq<nat>>): (xs: seq<nat>)
    ensures |xs| == |g| && forall p :: 0 <= p < |g| ==> xs[p] == Total(g[p])
  {
    seq(|g|, p requires 0 <= p < |g| => Total(g[p]))
  }

  /** The packets sent in a window, over all its planes and paths. */
  function SentIn(w: SentWindow): nat { Total(PlaneTotals(w.sent)) }

  /** At least half of what a window sent arrived, and it sent something. */
  predicate HalfArrived(rs: seq<LossRec>, w: SentWindow) { 2 * ArrivedIn(rs) >= SentIn(w) > 0 }

  lemma {:induction false} ArrivedTotals(rs: seq<LossRec>)
    ensures TotalArrived(rs) == ArrivedIn(rs)
  {
    if rs != [] {
      var xs := seq(|rs|, k requires 0 <= k < |rs| => rs[k].seen + rs[k].trimmed);
      var rest := rs[1..];
      ArrivedTotals(rest);
      TotalFirst(xs);
      assert xs[1..] == seq(|rest|, k requires 0 <= k < |rest| => rest[k].seen + rest[k].trimmed);
    }
  }

  lemma {:induction false} RowTotals(row: seq<nat>)
    ensures SumRow(row) == Total(row)
  {
    if row != [] {
      RowTotals(row[1..]);
      TotalFirst(row);
    }
  }

  lemma {:induction false} GridTotals(g: seq<seq<nat>>)
    ensures SumGrid(g) == Total(PlaneTotals(g))
  {
    if g != [] {
      GridTotals(g[1..]);
      RowTotals(g[0]);
      TotalFirst(PlaneTotals(g));
      assert PlaneTotals(g)[1..] == PlaneTotals(g[1..]);
    }
  }

  /** The coverage test is the one in numbers. */
  lemma {:induction false} CoversIsHalf(rs: seq<LossRec>, w: SentWindow)
    ensures Covers(rs, w) <==> HalfArrived(rs, w)
  {
    ArrivedTotals(rs);
    GridTotals(w.sent);
  }

  /** What keeps EV (p, q) out of trouble in one event. */
  ghost predicate Quiet(t: Table, e: LoopEvent, p: nat, q: nat)
    requires Shaped(t) && p < t.planes && q < t.paths
  {
    match e
    case Core(Loss(j, seen, expected)) =>
      j == Index(t.planes, t.paths, p, q) ==> Tolerable(t.cfg, seen, expected)
    case Core(_) => true
    case Report(rs, w) =>
      && (w.Some? && PairFits(w, t) ==> QuietRecs(t.cfg, rs, w.value.sent[p][q], p, q))
      && (w.Some? && PairFits(w, t) && HalfArrived(rs, w.value) && w.value.sent[p][q] >= 2 ==> Reported(rs, p, q))
  }

  /** The records of EV (p, q), of which `sent` packets were sent, show no loss above the threshold. */
  ghost predicate QuietRecs(cfg: Config, rs: seq<LossRec>, sent: nat, p: nat, q: nat) {
    forall k :: 0 <= k < |rs| && rs[k].plane == p && rs[k].path == q ==>
      rs[k].NoData() || Tolerable(cfg, rs[k].seen + rs[k].trimmed, sent)
  }

  lemma {:induction false} QuietRecsStep(t: Table, rs: seq<LossRec>, w: Option<SentWindow>, p: nat, q: nat)
    requires PairFits(w, t) && p < t.planes && q < t.paths
    requires QuietRecs(t.cfg, rs, SentAt(w, p, q), p, q)
    ensures var i := Index(t.planes, t.paths, p, q); Calmer(t.recs[i], FuseRecs(t, rs, w).recs[i])
    decreases |rs|
  {
    if rs != [] {
      var r := rs[0];
      var i := Index(t.planes, t.paths, p, q);
      if !r.NoData() && SentAt(w, r.plane, r.path) != 0 {
        SameCell(t.paths, r.plane, r.path, p, q);
        LossWindowAt(t, Index(t.planes, t.paths, r.plane, r.path), r.Arrived(), SentAt(w, r.plane, r.path), i);
      }
      QuietRecsStep(FuseRec(t, r, w), rs[1..], w, p, q);
    }
  }

  /** The absent pass leaves alone an EV that was reported, or sent on too little, or already bad. */
  lemma {:induction false} AbsentSpares(t: Table, rs: seq<LossRec>, w: SentWindow, p0: nat, q0: nat, p: nat, q: nat)
    requires Shaped(t) && Fitting(w, t) && p0 <= t.planes && q0 <= t.paths && p < t.planes && q < t.paths
    requires !CountsAsLost(t, rs, w, p, q)
    ensures var i := Index(t.planes, t.paths, p, q); AbsentFrom(t, rs, w, p0, q0).recs[i] == t.recs[i]
    decreases t.planes - p0, t.paths - q0
  {
    if p0 < t.planes {
      if q0 == t.paths {
        AbsentSpares(t, rs, w, p0 + 1, 0, p, q);
      } else {
        SameCell(t.paths, p0, q0, p, q);
        if CountsAsLost(t, rs, w, p0, q0) {
          LossWindowAt(t, Index(t.planes, t.paths, p0, q0), 0, w.sent[p0][q0], Index(t.planes, t.paths, p, q));
        }
        AbsentSpares(AbsentCell(t, rs, w, p0, q0), rs, w, p0, q0 + 1, p, q);
      }
    }
  }

  lemma {:induction false} QuietStep(t: Table, e: LoopEvent, p: nat, q: nat)
    requires Shaped(t) && p < t.planes && q < t.paths && Quiet(t, e, p, q)
    ensures var i := Index(t.planes, t.paths, p, q); Calmer(t.recs[i], LoopStep(t, e).recs[i])
  {
    var i := Index(t.planes, t.paths, p, q);
    match e
    case Core(c) =>
      var v := StepCell(t, c, i);
      if c == TickEvent {
        var r0 := Rotate(t.cfg, t.recs[i]);
        CellCalmer(t.cfg, t.minActive, t.ticks + 1, r0, SumSent(r0.buckets), SumRecv(r0.buckets), v);
      }
    case Report(rs, w) =>
      if PairFits(w, t) {
        QuietRecsStep(t, rs, w, p, q);
        if w.Some? && Covers(rs, w.value) {
          CoversIsHalf(rs, w.value);
          AbsentSpares(FuseRecs(t, rs, w), rs, w.value, 0, 0, p, q);
        }
      }
  }

  lemma {:induction false} CellCalmer(cfg: Config, minActive: int, now: nat, r: Rec, sent: nat, recv: nat, u: int)
    ensures Calmer(r, CellOn(cfg, minActive, now, r, sent, recv, u).0)
  {
  }

  ghost predicate QuietRun(t: Table, es: seq<LoopEvent>, p: nat, q: nat)
    requires Shaped(t) && p < t.planes && q < t.paths
  {
    forall k :: 0 <= k < |es| ==> Quiet(t, es[k], p, q)
  }

  /**
    No phantom loss.  Over any run in which every loss window and every report leaves EV (p, q)
    within the threshold (see TolerableByCounts: at least 1 - threshold of the sends arrived, whole
    or trimmed) and no covering report omits it while it carried traffic, the EV never gains loss
    streak, never moves its backoff level and is never demoted by loss, whatever the others do.
   */
  lemma {:induction false} NoPhantomLoss(t: Table, es: seq<LoopEvent>, p: nat, q: nat)
    requires Shaped(t) && p < t.planes && q < t.paths && QuietRun(t, es, p, q)
    ensures var i := Index(t.planes, t.paths, p, q); Calmer(t.recs[i], LoopRun(t, es).recs[i])
    decreases |es|
  {
    if es != [] {
      assert Quiet(t, es[0], p, q);
      QuietStep(t, es[0], p, q);
      forall k | 0 <= k < |es[1..]| ensures Quiet(LoopStep(t, es[0]), es[1..][k], p, q) {
        assert Quiet(t, es[k + 1], p, q);
      }
      NoPhantomLoss(LoopStep(t, es[0]), es[1..], p, q);
    }
  }

  // ---------------------------------------------------------------- blackholes

  /** At least half of a window arrived, the report omits EV (p, q), and at least 2 packets were sent on it. */
  ghost predicate Blackholes(t: Table, e: LoopEvent, p: nat, q: nat)
    requires Shaped(t) && p < t.planes && q < t.paths
  {
    && e.Report? && e.paired.Some? && PairFits(e.paired, t) && e.rs != []
    && HalfArrived(e.rs, e.paired.value) && !Reported(e.rs, p, q)
    && e.paired.value.sent[p][q] >= 2
  }

  /** No clean window: nothing in `e` clears the loss streak of EV (p, q). */
  ghost predicate NotClean(t: Table, e: LoopEvent, p: nat, q: nat)
    requires Shaped(t) && p < t.planes && q < t.paths
  {
    match e
    case Core(Loss(j, seen, expected)) =>
      j == Index(t.planes, t.paths, p, q) && expected > 0 ==>
        LossRatio(seen, expected) > t.cfg.lossThreshold / 2.0
    case Core(_) => true
    case Report(rs, w) =>
      forall k :: 0 <= k < |rs| && rs[k].plane == p && rs[k].path == q && SentAt(w, p, q) > 0 ==>
        rs[k].NoData() || LossRatio(rs[k].Arrived(), SentAt(w, p, q)) > t.cfg.lossThreshold / 2.0
  }

  function Hit(b: bool): nat { if b then 1 else 0 }

  /** The loss evidence of a record that is still usable: grown by `hit`, with its consequence. */
  ghost predicate Mounting(cfg: Config, r: Rec, r': Rec, hit: nat) {
    && r'.suppressed >= r.suppressed
    && (r.state != AssumedBad && r'.state != AssumedBad ==>
          && r'.lossStreak >= r.lossStreak + hit
          && (hit > 0 && r.lossStreak + hit >= cfg.lossDemoteConsecutive ==> r'.suppressed > r.suppressed))
  }

  lemma {:induction false} LossCellMounts(
    cfg: Config, minActive: int, now: nat, r: Rec, u: int, seen: nat, expected: nat)
    requires expected > 0 ==> LossRatio(seen, expected) > cfg.lossThreshold / 2.0
    ensures var r' := LossCell(cfg, minActive, now, r, u, seen, expected);
      && Mounting(cfg, r, r', Hit(expected > 0 && LossRatio(seen, expected) > cfg.lossThreshold))
      && (r.state == AssumedBad ==> r'.state == AssumedBad)
      && (r'.state != AssumedBad ==> r'.state == r.state)
  {
  }

  lemma {:induction false} NotCleanRecs(t: Table, rs: seq<LossRec>, w: Option<SentWindow>, p: nat, q: nat)
    requires PairFits(w, t) && p < t.planes && q < t.paths && NotClean(t, Report(rs, w), p, q)
    ensures var i := Index(t.planes, t.paths, p, q); var r, r' := t.recs[i], FuseRecs(t, rs, w).recs[i];
      && Mounting(t.cfg, r, r', 0) && (r.state == AssumedBad ==> r'.state == AssumedBad)
      && (!Reported(rs, p, q) ==> r' == r)
    decreases |rs|
  {
    if rs != [] {
      var r := rs[0];
      var i := Index(t.planes, t.paths, p, q);
      if !r.NoData() && SentAt(w, r.plane, r.path) != 0 {
        SameCell(t.paths, r.plane, r.path, p, q);
        LossWindowAt(t, Index(t.planes, t.paths, r.plane, r.path), r.Arrived(), SentAt(w, r.plane, r.path), i);
        if r.plane == p && r.path == q {
          LossCellMounts(t.cfg, t.minActive, t.ticks, t.recs[i], Usable(t.recs), r.Arrived(), SentAt(w, p, q));
        }
      }
      NotCleanRecs(FuseRec(t, r, w), rs[1..], w, p, q);
      if Reported(rs[1..], p, q) {
        var k :| 0 <= k < |rs[1..]| && rs[1..][k].plane == p && rs[1..][k].path == q;
        assert rs[k + 1].plane == p && rs[k + 1].path == q;
      }
    }
  }

  /** The absent pass records total loss on exactly the EV it should, once. */
  lemma {:induction false} AbsentStrikes(t: Table, rs: seq<LossRec>, w: SentWindow, p0: nat, q0: nat, p: nat, q: nat)
    returns (u: int)
    requires Shaped(t) && Fitting(w, t) && p0 <= t.planes && q0 <= t.paths && p < t.planes && q < t.paths
    requires CountsAsLost(t, rs, w, p, q)
    requires p0 < p || (p0 == p && q0 <= q)
    ensures var i := Index(t.planes, t.paths, p, q);
      AbsentFrom(t, rs, w, p0, q0).recs[i] ==
      LossCell(t.cfg, t.minActive, t.ticks, t.recs[i], u, 0, w.sent[p][q])
    decreases t.planes - p0, t.paths - q0
  {
    var i := Index(t.planes, t.paths, p, q);
    if q0 == t.paths {
      u := AbsentStrikes(t, rs, w, p0 + 1, 0, p, q);
    } else {
      SameCell(t.paths, p0, q0, p, q);
      LossWindowAt(t, Index(t.planes, t.paths, p0, q0), 0, w.sent[p0][q0], i);
      var t1 := AbsentCell(t, rs, w, p0, q0);
      if p0 == p && q0 == q {
        u := Usable(t.recs);
        AbsentPast(t1, rs, w, p, q + 1, p, q);
      } else {
        u := AbsentStrikes(t1, rs, w, p0, q0 + 1, p, q);
      }
    }
  }

  /** Cells after (p, q) in row-major order do not touch it. */
  lemma {:induction false} AbsentPast(t: Table, rs: seq<LossRec>, w: SentWindow, p0: nat, q0: nat, p: nat, q: nat)
    requires Shaped(t) && Fitting(w, t) && p0 <= t.planes && q0 <= t.paths && p < t.planes && q < t.paths
    requires p0 > p || (p0 == p && q0 > q)
    ensures var i := Index(t.planes, t.paths, p, q); AbsentFrom(t, rs, w, p0, q0).recs[i] == t.recs[i]
    decreases t.planes - p0, t.paths - q0
  {
    if p0 < t.planes {
      if q0 == t.paths {
        AbsentPast(t, rs, w, p0 + 1, 0, p, q);
      } else {
        SameCell(t.paths, p0, q0, p, q);
        LossWindowAt(t, Index(t.planes, t.paths, p0, q0), 0, w.sent[p0][q0], Index(t.planes, t.paths, p, q));
        AbsentPast(AbsentCell(t, rs, w, p0, q0), rs, w, p0, q0 + 1, p, q);
      }
    }
  }

  /** Absence never touches an EV that is already bad, so it cannot re-arm the recovery gate. */
  lemma {:induction false} AbsenceSparesBad(t: Table, rs: seq<LossRec>, w: Option<SentWindow>, p: nat, q: nat)
    requires PairFits(w, t) && p < t.planes && q < t.paths && !Reported(rs, p, q)
    requires t.recs[Index(t.planes, t.paths, p, q)].state == AssumedBad
    ensures var i := Index(t.planes, t.paths, p, q); Fuse(t, rs, w).recs[i] == t.recs[i]
  {
    forall k | 0 <= k < |rs| && rs[k].plane == p && rs[k].path == q ensures false { }
    NotCleanRecs(t, rs, w, p, q);
    if rs != [] && w.Some? && Covers(rs, w.value) {
      AbsentSpares(FuseRecs(t, rs, w), rs, w.value, 0, 0, p, q);
    }
  }

  lemma {:induction false} CellMounts(cfg: Config, minActive: int, now: nat, r: Rec, sent: nat, recv: nat, u: int)
    ensures Mounting(cfg, r, CellOn(cfg, minActive, now, r, sent, recv, u).0, 0)
  {
  }

  lemma {:induction false} TotalLoss(expected: nat)
    requires expected > 0
    ensures LossRatio(0, expected) == 1.0
  {
    SelfRatio(expected as real);
  }

  lemma {:induction false} ReportMounts(t: Table, rs: seq<LossRec>, w: Option<SentWindow>, p: nat, q: nat)
    requires PairFits(w, t) && p < t.planes && q < t.paths && t.cfg.lossThreshold < 1.0
    requires NotClean(t, Report(rs, w), p, q)
    ensures var i := Index(t.planes, t.paths, p, q);
      Mounting(t.cfg, t.recs[i], Fuse(t, rs, w).recs[i], Hit(Blackholes(t, Report(rs, w), p, q)))
  {
    NotCleanRecs(t, rs, w, p, q);
    if w.Some? { CoversIsHalf(rs, w.value); }
    hide HalfArrived;
    if rs != [] && w.Some? && Covers(rs, w.value) {
      var t1 := FuseRecs(t, rs, w);
      if CountsAsLost(t1, rs, w.value, p, q) {
        var u := AbsentStrikes(t1, rs, w.value, 0, 0, p, q);
        var i, sent := Index(t.planes, t.paths, p, q), w.value.sent[p][q];
        TotalLoss(sent);
        LossCellMounts(t.cfg, t.minActive, t.ticks, t1.recs[i], u, 0, sent);
      } else {
        AbsentSpares(t1, rs, w.value, 0, 0, p, q);
      }
    }
  }

  lemma {:induction false} StepMounts(t: Table, e: LoopEvent, p: nat, q: nat)
    requires Shaped(t) && p < t.planes && q < t.paths && t.cfg.lossThreshold < 1.0
    requires NotClean(t, e, p, q)
    ensures var i := Index(t.planes, t.paths, p, q);
      Mounting(t.cfg, t.recs[i], LoopStep(t, e).recs[i], Hit(Blackholes(t, e, p, q)))
  {
    match e
    case Core(c) =>
      var i := Index(t.planes, t.paths, p, q);
      var v := StepCell(t, c, i);
      match c {
        case TickEvent =>
          var r0 := Rotate(t.cfg, t.recs[i]);
          CellMounts(t.cfg, t.minActive, t.ticks + 1, r0, SumSent(r0.buckets), SumRecv(r0.buckets), v);
        case Loss(j, seen, expected) =>
          if j == i { LossCellMounts(t.cfg, t.minActive, t.ticks, t.recs[i], v, seen, expected); }
        case ProbeSent(_) =>
        case ProbeRecv(_) =>
      }
    case Report(rs, w) =>
      if PairFits(w, t) { ReportMounts(t, rs, w, p, q); }
  }

  /** EV (p, q) is ASSUMED_BAD at some point of the run, start and end included. */
  ghost predicate BadSometime(t: Table, es: seq<LoopEvent>, p: nat, q: nat)
    requires Shaped(t) && p < t.planes && q < t.paths
    decreases |es|
  {
    || t.recs[Index(t.planes, t.paths, p, q)].state == AssumedBad
    || (es != [] && BadSometime(LoopStep(t, es[0]), es[1..], p, q))
  }

  /** The number of reports of the run that blackhole EV (p, q). */
  ghost function Hits(t: Table, es: seq<LoopEvent>, p: nat, q: nat): nat
    requires Shaped(t) && p < t.planes && q < t.paths
    decreases |es|
  {
    if es == [] then 0
    else Hit(Blackholes(t, es[0], p, q)) + Hits(LoopStep(t, es[0]), es[1..], p, q)
  }

  ghost predicate NeverClean(t: Table, es: seq<LoopEvent>, p: nat, q: nat)
    requires Shaped(t) && p < t.planes && q < t.paths
    decreases |es|
  {
    es == [] || (NotClean(t, es[0], p, q) && NeverClean(LoopStep(t, es[0]), es[1..], p, q))
  }

  lemma {:induction false} RunMounts(t: Table, es: seq<LoopEvent>, p: nat, q: nat)
    requires Shaped(t) && p < t.planes && q < t.paths && t.cfg.lossThreshold < 1.0
    requires NeverClean(t, es, p, q) && !BadSometime(t, es, p, q)
    ensures var i := Index(t.planes, t.paths, p, q);
      && LoopRun(t, es).recs[i].state != AssumedBad
      && Mounting(t.cfg, t.recs[i], LoopRun(t, es).recs[i], Hits(t, es, p, q))
    decreases |es|
  {
    if es != [] {
      StepMounts(t, es[0], p, q);
      RunMounts(LoopStep(t, es[0]), es[1..], p, q);
    }
  }

  /**
    Blackhole detection.  If over a run at least `lossDemoteConsecutive` paired, covering reports
    omit EV (p, q) while it carried traffic, and no window of that EV in the run was clean, then the
    EV was ASSUMED_BAD at some point of the run, or a demote of it was recorded as suppressed by the
    floor.  Ticks, probes and anything about other EVs may come in between.
   */
  lemma {:induction false} BlackholeDetected(t: Table, es: seq<LoopEvent>, p: nat, q: nat)
    requires Shaped(t) && p < t.planes && q < t.paths && t.cfg.lossThreshold < 1.0
    requires NeverClean(t, es, p, q)
    requires Hits(t, es, p, q) >= Max(1, t.cfg.lossDemoteConsecutive)
    ensures BadSometime(t, es, p, q) ||
      LoopRun(t, es).recs[Index(t.planes, t.paths, p, q)].suppressed >
      t.recs[Index(t.planes, t.paths, p, q)].suppressed
  {
    if !BadSometime(t, es, p, q) { RunMounts(t, es, p, q); }
  }
}
