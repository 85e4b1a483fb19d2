/**
  Fusing loss reports with the sender's own counts (`srv6_mrc/mrc/loss_compute.py`), as functions
  on values, and which parts of a report the fusion depends on.  What it means over whole runs is in LossRuns.
 */
module LossFusion {
  import opened Wrappers
  import opened Grids
  import opened EvState

  const MIN_SENT_FOR_ABSENT_LOSS: nat := 2

  /** One closed emit window of the sender: packets sent per (plane, path). */
  datatype SentWindow = SentWindow(start: int, end: int, sent: seq<seq<nat>>, windowId: nat)
  {
    function Midpoint(): int { (start + end) / 2 }
  }

  datatype LossRec = LossRec(plane: nat, path: nat, seen: nat, expected: nat, maxGap: nat, trimmed: nat)
  {
    /** Arrivals, whole or trimmed: both count as delivered. */
    function Arrived(): nat { seen + trimmed }
    predicate NoData() { seen == 0 && expected == 0 && trimmed == 0 }
  }

  datatype LossReport = LossReport(windowId: nat, planes: seq<LossRec>)

  datatype Stats = Stats(
    reports: nat, updated: nat, skippedNoData: nat, paired: nat, fellBack: nat, noPairing: nat,
    absentLost: nat, lowCoverage: nat)

  ghost predicate Fitting(w: SentWindow, t: Table) {
    |w.sent| == t.planes && Rectangular(w.sent, t.paths)
  }

  /** The sender's count for a cell, zero outside the window's grid or without a window. */
  function SentAt(p: Option<SentWindow>, plane: nat, path: nat): nat {
    if p.Some? && plane < |p.value.sent| && path < |p.value.sent[plane]|
    then p.value.sent[plane][path] else 0
  }

  ghost predicate PairFits(p: Option<SentWindow>, t: Table) {
    Shaped(t) && (p.Some? ==> Fitting(p.value, t))
  }

  // ---------------------------------------------------------------- reported EVs

  ghost function FuseRec(t: Table, r: LossRec, p: Option<SentWindow>): (t': Table)
    requires PairFits(p, t)
    ensures Frame(t, t')
  {
    if r.NoData() || SentAt(p, r.plane, r.path) == 0 then t
    else LossWindow(t, Index(t.planes, t.paths, r.plane, r.path), r.Arrived(), SentAt(p, r.plane, r.path))
  }

  function CountRec(s: Stats, r: LossRec, p: Option<SentWindow>): Stats {
    if r.NoData() then s.(skippedNoData := s.skippedNoData + 1)
    else if SentAt(p, r.plane, r.path) == 0 then s.(fellBack := s.fellBack + 1)
    else s.(updated := s.updated + 1, paired := s.paired + 1)
  }

  ghost function FuseRecs(t: Table, rs: seq<LossRec>, p: Option<SentWindow>): (t': Table)
    requires PairFits(p, t)
    ensures Frame(t, t')
    decreases |rs|
  {
    if rs == [] then t else FuseRecs(FuseRec(t, rs[0], p), rs[1..], p)
  }

  ghost function CountRecs(s: Stats, rs: seq<LossRec>, p: Option<SentWindow>): Stats
    decreases |rs|
  {
    if rs == [] then s else CountRecs(CountRec(s, rs[0], p), rs[1..], p)
  }

  // ---------------------------------------------------------------- absent EVs

  function SumRow(row: seq<nat>): nat {
    if row == [] then 0 else row[0] + SumRow(row[1..])
  }

  function SumGrid(g: seq<seq<nat>>): nat {
    if g == [] then 0 else SumRow(g[0]) + SumGrid(g[1..])
  }

  function TotalArrived(rs: seq<LossRec>): nat {
    if rs == [] then 0 else rs[0].Arrived() + TotalArrived(rs[1..])
  }

  /** The report covers at least half of what the paired window sent. */
  predicate Covers(rs: seq<LossRec>, w: SentWindow) {
    SumGrid(w.sent) != 0 && 2 * TotalArrived(rs) >= SumGrid(w.sent)
  }

  ghost predicate Reported(rs: seq<LossRec>, plane: nat, path: nat) {
    exists k :: 0 <= k < |rs| && rs[k].plane == plane && rs[k].path == path
  }

  /** Absence of this EV from the report counts as total loss. */
  ghost predicate CountsAsLost(t: Table, rs: seq<LossRec>, w: SentWindow, p: nat, q: nat)
    requires Shaped(t) && Fitting(w, t) && p < t.planes && q < t.paths
  {
    && w.sent[p][q] >= MIN_SENT_FOR_ABSENT_LOSS
    && !Reported(rs, p, q)
    && t.recs[Index(t.planes, t.paths, p, q)].state != AssumedBad
  }

  ghost function AbsentCell(t: Table, rs: seq<LossRec>, w: SentWindow, p: nat, q: nat): (t': Table)
    requires Shaped(t) && Fitting(w, t) && p < t.planes && q < t.paths
    ensures Frame(t, t')
  {
    if CountsAsLost(t, rs, w, p, q)
    then LossWindow(t, Index(t.planes, t.paths, p, q), 0, w.sent[p][q]) else t
  }

  /** The absent-EV pass, from cell (p, q) on in row-major order. */
  ghost function AbsentFrom(t: Table, rs: seq<LossRec>, w: SentWindow, p: nat, q: nat): (t': Table)
    requires Shaped(t) && Fitting(w, t) && p <= t.planes && q <= t.paths
    ensures Frame(t, t')
    decreases t.planes - p, t.paths - q
  {
    if p == t.planes then t
    else if q == t.paths then AbsentFrom(t, rs, w, p + 1, 0)
    else AbsentFrom(AbsentCell(t, rs, w, p, q), rs, w, p, q + 1)
  }

  /** `apply_loss_report` on the table, given the window `find_closest` paired. */
  ghost function Fuse(t: Table, rs: seq<LossRec>, p: Option<SentWindow>): (t': Table)
    requires PairFits(p, t)
    ensures Frame(t, t')
  {
    if rs == [] then t
    else
      var t1 := FuseRecs(t, rs, p);
      if p.None? || !Covers(rs, p.value) then t1 else AbsentFrom(t1, rs, p.value, 0, 0)
  }

  // ---------------------------------------------------------------- no phantom loss

  /** A report without a paired window leaves the table alone. */
  lemma {:induction false} UnpairedChangesNothing(t: Table, rs: seq<LossRec>)
    requires Shaped(t)
    ensures Fuse(t, rs, None) == t
  {
    UnpairedRecs(t, rs);
  }

  lemma {:induction false} UnpairedRecs(t: Table, rs: seq<LossRec>)
    requires Shaped(t)
    ensures FuseRecs(t, rs, None) == t
  {
    if rs != [] { UnpairedRecs(t, rs[1..]); }
  }

  /** Every record lands in exactly one of three counters, and `paired` follows `updated`. */
  lemma {:induction false} EveryRecordCounted(s: Stats, rs: seq<LossRec>, p: Option<SentWindow>)
    ensures var s' := CountRecs(s, rs, p);
      && s'.updated + s'.skippedNoData + s'.fellBack == s.updated + s.skippedNoData + s.fellBack + |rs|
      && s'.paired - s.paired == s'.updated - s.updated
      && s' == s.(updated := s'.updated, skippedNoData := s'.skippedNoData, fellBack := s'.fellBack,
                  paired := s'.paired)
    decreases |rs|
  {
    if rs != [] { EveryRecordCounted(CountRec(s, rs[0], p), rs[1..], p); }
  }

  /** Two records the fusion cannot tell apart. */
  predicate SameEvidence(a: LossRec, b: LossRec) {
    && a.plane == b.plane && a.path == b.path && a.Arrived() == b.Arrived()
    && (a.Arrived() == 0 ==> (a.expected == 0 <==> b.expected == 0))
  }

  /**
    A report acts through its arrival counts seen + trimmed alone; the receiver's own `expected`
    matters only for a record without any arrival, and there only by being zero.
   */
  lemma {:induction false} OnlyArrivalsMatter(t: Table, a: seq<LossRec>, b: seq<LossRec>, p: Option<SentWindow>)
    requires PairFits(p, t) && |a| == |b|
    requires forall k :: 0 <= k < |a| ==> SameEvidence(a[k], b[k])
    ensures Fuse(t, a, p) == Fuse(t, b, p)
  {
    SameRecs(t, a, b, p);
    SameTotals(a, b);
    if a != [] && p.Some? && Covers(a, p.value) {
      assert forall k :: 0 <= k < |a| ==> SameEvidence(b[k], a[k]);
      AbsentSame(FuseRecs(t, a, p), a, b, p.value, 0, 0);
    }
  }

  lemma {:induction false} SameRecs(t: Table, a: seq<LossRec>, b: seq<LossRec>, p: Option<SentWindow>)
    requires PairFits(p, t) && |a| == |b|
    requires forall k :: 0 <= k < |a| ==> SameEvidence(a[k], b[k])
    ensures FuseRecs(t, a, p) == FuseRecs(t, b, p)
    decreases |a|
  {
    if a != [] {
      assert SameEvidence(a[0], b[0]);
      SameRecs(FuseRec(t, a[0], p), a[1..], b[1..], p);
    }
  }

  lemma {:induction false} SameTotals(a: seq<LossRec>, b: seq<LossRec>)
    requires |a| == |b| && forall k :: 0 <= k < |a| ==> SameEvidence(a[k], b[k])
    ensures TotalArrived(a) == TotalArrived(b)
  {
    if a != [] {
      assert SameEvidence(a[0], b[0]);
      SameTotals(a[1..], b[1..]);
    }
  }

  lemma {:induction false} AbsentSame(t: Table, a: seq<LossRec>, b: seq<LossRec>, w: SentWindow, p: nat, q: nat)
    requires Shaped(t) && Fitting(w, t) && p <= t.planes && q <= t.paths && |a| == |b|
    requires forall k :: 0 <= k < |a| ==> SameEvidence(a[k], b[k])
    ensures AbsentFrom(t, a, w, p, q) == AbsentFrom(t, b, w, p, q)
    decreases t.planes - p, t.paths - q
  {
    if p < t.planes {
      if q == t.paths {
        AbsentSame(t, a, b, w, p + 1, 0);
      } else {
        ReportedSame(a, b, p, q);
        ReportedSame(b, a, p, q);
        AbsentSame(AbsentCell(t, a, w, p, q), a, b, w, p, q + 1);
      }
    }
  }

  lemma {:induction false} ReportedSame(a: seq<LossRec>, b: seq<LossRec>, p: nat, q: nat)
    requires |a| == |b|
    requires forall k :: 0 <= k < |a| ==> a[k].plane == b[k].plane && a[k].path == b[k].path
    ensures Reported(a, p, q) ==> Reported(b, p, q)
  {
    if Reported(a, p, q) {
      var k :| 0 <= k < |a| && a[k].plane == p && a[k].path == q;
      assert b[k].plane == p && b[k].path == q;
    }
  }

  /** One record per EV, as the receiver emits them. */
  predicate OnePerEv(rs: seq<LossRec>) {
    forall i, j :: 0 <= i < j < |rs| ==> rs[i].plane != rs[j].plane || rs[i].path != rs[j].path
  }

  /** A window in which one packet was sent, on EV (plane, path). */
  function Lone(planes: nat, paths: nat, plane: nat, path: nat): SentWindow {
    SentWindow(0, 0, seq(planes, p => seq(paths, q => if p == plane && q == path then 1 else 0)), 0)
  }

  lemma {:induction false} NothingAbsent(t: Table, rs: seq<LossRec>, w: SentWindow, p: nat, q: nat)
    requires Shaped(t) && Fitting(w, t) && p <= t.planes && q <= t.paths
    requires forall a, b :: 0 <= a < t.planes && 0 <= b < t.paths ==> w.sent[a][b] < MIN_SENT_FOR_ABSENT_LOSS
    ensures AbsentFrom(t, rs, w, p, q) == t
    decreases t.planes - p, t.paths - q
  {
    if p < t.planes {
      if q == t.paths { NothingAbsent(t, rs, w, p + 1, 0); } else { NothingAbsent(t, rs, w, p, q + 1); }
    }
  }

  /** Records of EVs that sent nothing change nothing. */
  lemma {:induction false} OthersSilent(t: Table, rs: seq<LossRec>, p: Option<SentWindow>)
    requires PairFits(p, t) && forall k :: 0 <= k < |rs| ==> SentAt(p, rs[k].plane, rs[k].path) == 0
    ensures FuseRecs(t, rs, p) == t
  {
    if rs != [] { OthersSilent(t, rs[1..], p); }
  }

  lemma {:induction false} OnlyOneSpeaks(t: Table, rs: seq<LossRec>, p: Option<SentWindow>, k: nat)
    requires PairFits(p, t) && k < |rs|
    requires forall j :: 0 <= j < |rs| && j != k ==> SentAt(p, rs[j].plane, rs[j].path) == 0
    ensures FuseRecs(t, rs, p) == FuseRec(t, rs[k], p)
    decreases |rs|
  {
    if k == 0 { OthersSilent(FuseRec(t, rs[0], p), rs[1..], p); } else { OnlyOneSpeaks(t, rs[1..], p, k - 1); }
  }

  lemma {:induction false} RatioNoted(t: Table, i: nat, ratio: real)
    requires i < |t.recs|
    ensures NoteLoss(t, i, ratio).recs[i].lastLossRatio == ratio
  {
  }

  /** What a report makes of a fresh table when only its record `k`, without arrivals, sent anything. */
  lemma {:induction false} LoneRecord(cfg: Config, rs: seq<LossRec>, k: nat)
    requires OnePerEv(rs) && k < |rs| && rs[k].Arrived() == 0
    ensures var planes, paths := rs[k].plane + 1, rs[k].path + 1;
      var t, w := Init(cfg, planes, paths), Some(Lone(planes, paths, rs[k].plane, rs[k].path));
      PairFits(w, t) && Fuse(t, rs, w).recs[Index(planes, paths, rs[k].plane, rs[k].path)].lastLossRatio
        == if rs[k].expected == 0 then 0.0 else 1.0
  {
    var r := rs[k];
    var planes, paths := r.plane + 1, r.path + 1;
    var t, w := Init(cfg, planes, paths), Lone(planes, paths, r.plane, r.path);
    var i := Index(planes, paths, r.plane, r.path);
    OnlyOneSpeaks(t, rs, Some(w), k);
    NothingAbsent(FuseRec(t, r, Some(w)), rs, w, 0, 0);
    if r.expected != 0 { RatioNoted(t, i, LossRatio(0, 1)); }
  }

  /**
    The exact condition.  Two reports with one record per EV and the same arrival counts act alike on
    every table with every paired window if and only if their records without any arrival agree on
    whether `expected` is zero.
   */
  lemma {:induction false} SameEffectIffSameEvidence(cfg: Config, a: seq<LossRec>, b: seq<LossRec>)
    requires |a| == |b| && OnePerEv(a) && OnePerEv(b)
    requires forall k :: 0 <= k < |a| ==>
      a[k].plane == b[k].plane && a[k].path == b[k].path && a[k].Arrived() == b[k].Arrived()
    ensures (forall t, p :: PairFits(p, t) ==> Fuse(t, a, p) == Fuse(t, b, p))
      <==> forall k :: 0 <= k < |a| && a[k].Arrived() == 0 ==> (a[k].expected == 0 <==> b[k].expected == 0)
  {
    if forall k :: 0 <= k < |a| && a[k].Arrived() == 0 ==> (a[k].expected == 0 <==> b[k].expected == 0) {
      forall t, p | PairFits(p, t) ensures Fuse(t, a, p) == Fuse(t, b, p) {
        OnlyArrivalsMatter(t, a, b, p);
      }
    } else {
      var k :| 0 <= k < |a| && a[k].Arrived() == 0 && (a[k].expected == 0) != (b[k].expected == 0);
      LoneRecord(cfg, a, k);
      LoneRecord(cfg, b, k);
    }
  }

  /** `expected` does matter there: the same empty record is total loss or no evidence by it. */
  lemma {:induction false} ExpectedMattersWithoutArrivals(cfg: Config)
    requires cfg.lossThreshold < 1.0 && cfg.lossDemoteConsecutive > 1
    ensures var t := Init(cfg, 1, 1);
      var w := Some(SentWindow(0, 0, [[4]], 0));
      && Fuse(t, [LossRec(0, 0, 0, 0, 0, 0)], w).recs[0].lossStreak == 0
      && Fuse(t, [LossRec(0, 0, 0, 1, 0, 0)], w).recs[0].lossStreak == 1
  {
    var t := Init(cfg, 1, 1);
    var w := SentWindow(0, 0, [[4]], 0);
    assert SumGrid([[4]]) == 4 by { assert SumRow([4]) == 4; }
    var a, b := LossRec(0, 0, 0, 0, 0, 0), LossRec(0, 0, 0, 1, 0, 0);
    assert TotalArrived([a]) == 0 && TotalArrived([b]) == 0;
    assert FuseRecs(t, [a], Some(w)) == t;
    assert FuseRecs(t, [b], Some(w)) == LossWindow(t, 0, 0, 4);
    assert LossRatio(0, 4) == 1.0;
  }
}
