/**
  The objects of `srv6_mrc/mrc/loss_compute.py`: the bounded ring of emit windows, the fusion
  counters, and `apply_loss_report` running on a live EVStateTable, proved against LossFusion.
 */
module LossReports {
  import opened Wrappers
  import opened Grids
  import opened EvState
  import opened EvTable
  import opened LossFusion

  function Skew(w: SentWindow, target: int): nat {
    var d := w.Midpoint() - target;
    if d < 0 then -d else d
  }

  /** How far a time is from the middle of a window's start and end, rounded down. */
  ghost function Distance(w: SentWindow, target: int): int {
    if (w.start + w.end) / 2 < target then target - (w.start + w.end) / 2 else (w.start + w.end) / 2 - target
  }

  /**
    `r` is the window whose middle is nearest to the target, the oldest of equals, within the
    skew; none exactly when no window is within the skew.
   */
  ghost predicate IsClosest(ring: seq<SentWindow>, target: int, maxSkew: int, r: Option<SentWindow>) {
    match r
    case None => forall w :: w in ring ==> Distance(w, target) > maxSkew
    case Some(best) =>
      exists k :: && 0 <= k < |ring| && ring[k] == best && Distance(best, target) <= maxSkew
                  && (forall j :: 0 <= j < |ring| ==> Distance(best, target) <= Distance(ring[j], target))
                  && (forall j :: 0 <= j < k ==> Distance(best, target) < Distance(ring[j], target))
  }

  lemma {:induction false} SkewIsDistance(w: SentWindow, target: int)
    ensures Skew(w, target) == Distance(w, target)
  {
  }

  class SentWindowRing {
    const planes: nat
    const paths: nat
    const capacity: nat
    var ring: seq<SentWindow>

    ghost predicate Valid()
      reads this
    {
      && capacity >= 1 && |ring| <= capacity
      && forall w :: w in ring ==> |w.sent| == planes && Rectangular(w.sent, paths)
    }

    constructor (planes: nat, paths: nat, capacity: nat)
      requires planes >= 1 && paths >= 1 && capacity >= 1
      ensures Valid() && ring == []
      ensures this.planes == planes && this.paths == paths && this.capacity == capacity
    {
      this.planes, this.paths, this.capacity, ring := planes, paths, capacity, [];
    }

    /** `push`; a window of another shape raises. */
    method Push(w: SentWindow) returns (ok: bool)
      requires Valid()
      modifies this
      ensures Valid()
      ensures ok == (|w.sent| == planes && Rectangular(w.sent, paths))
      ensures ring == if ok then LastN(old(ring) + [w], capacity) else old(ring)
    {
      if |w.sent| != planes { return false; }
      for p := 0 to |w.sent|
        invariant Rectangular(w.sent[..p], paths)
      {
        if |w.sent[p]| != paths { return false; }
        assert w.sent[..p + 1] == w.sent[..p] + [w.sent[p]];
      }
      assert w.sent[..|w.sent|] == w.sent;
      ring := LastN(ring + [w], capacity);
      return true;
    }

    /** `find_closest`. */
    method FindClosest(target: int, maxSkew: int) returns (best: Option<SentWindow>)
      requires Valid()
      ensures IsClosest(ring, target, maxSkew, best)
      ensures best.Some? ==> best.value in ring
    {
      hide Skew, Distance;
      best := None;
      var bestSkew := maxSkew + 1;
      for k := 0 to |ring|
        invariant IsClosest(ring[..k], target, maxSkew, best)
        invariant bestSkew == if best.Some? then Distance(best.value, target) else maxSkew + 1
      {
        SkewIsDistance(ring[k], target);
        var skew := Skew(ring[k], target);
        assert ring[..k + 1] == ring[..k] + [ring[k]];
        if skew < bestSkew {
          bestSkew := skew;
          best := Some(ring[k]);
          assert ring[..k + 1][k] == ring[k];
        }
      }
      assert ring[..|ring|] == ring;
    }
  }

  class LossFusionStats {
    var s: Stats

    constructor ()
      ensures s == Stats(0, 0, 0, 0, 0, 0, 0, 0)
    {
      s := Stats(0, 0, 0, 0, 0, 0, 0, 0);
    }
  }

  /** How many EVs the absent pass records as lost, from cell (p, q) on. */
  ghost function AbsentCount(t: Table, rs: seq<LossRec>, w: SentWindow, p: nat, q: nat): nat
    requires Shaped(t) && Fitting(w, t) && p <= t.planes && q <= t.paths
    decreases t.planes - p, t.paths - q
  {
    if p == t.planes then 0
    else if q == t.paths then AbsentCount(t, rs, w, p + 1, 0)
    else
      var here := if CountsAsLost(t, rs, w, p, q) then 1 else 0;
      here + AbsentCount(AbsentCell(t, rs, w, p, q), rs, w, p, q + 1)
  }

  /** The counters after a report. */
  ghost function CountReport(s: Stats, t: Table, rs: seq<LossRec>, p: Option<SentWindow>): Stats
    requires PairFits(p, t)
  {
    if rs == [] then s
    else
      var s1 := s.(reports := s.reports + 1, noPairing := s.noPairing + if p.None? then 1 else 0);
      var s2 := CountRecs(s1, rs, p);
      if p.None? then s2
      else if !Covers(rs, p.value) then s2.(lowCoverage := s2.lowCoverage + 1)
      else s2.(absentLost := s2.absentLost + AbsentCount(FuseRecs(t, rs, p), rs, p.value, 0, 0))
  }

  /** `apply_loss_report`.  The counters are threaded through as a value and stored once. */
  method ApplyLossReport(table: EvStateTable, tenant: string, report: LossReport, ring: SentWindowRing,
    receivedAt: int, maxSkew: int, stats: LossFusionStats) returns (paired: Option<SentWindow>)
    requires table.Valid(tenant) && ring.Valid()
    requires ring.planes == table.planes && ring.paths == table.paths
    modifies table`weightsCache, table.Records(tenant), stats
    ensures table.Valid(tenant)
    ensures report.planes != [] ==> IsClosest(old(ring.ring), receivedAt, maxSkew, paired)
    ensures PairFits(paired, old(table.Abs(tenant)))
    ensures table.Abs(tenant) == Fuse(old(table.Abs(tenant)), report.planes, paired)
    ensures stats.s == CountReport(old(stats.s), old(table.Abs(tenant)), report.planes, paired)
  {
    hide Fuse, CountReport, FlatWeights, Grid;
    var s;
    paired, s := FuseReport(table, tenant, report, ring, receivedAt, maxSkew, stats.s);
    stats.s := s;
  }

  method FuseReport(table: EvStateTable, tenant: string, report: LossReport, ring: SentWindowRing,
    receivedAt: int, maxSkew: int, s: Stats) returns (paired: Option<SentWindow>, s': Stats)
    requires table.Valid(tenant) && ring.Valid()
    requires ring.planes == table.planes && ring.paths == table.paths
    modifies table`weightsCache, table.Records(tenant)
    ensures table.Valid(tenant)
    ensures report.planes != [] ==> IsClosest(old(ring.ring), receivedAt, maxSkew, paired)
    ensures PairFits(paired, old(table.Abs(tenant)))
    ensures table.Abs(tenant) == Fuse(old(table.Abs(tenant)), report.planes, paired)
    ensures s' == CountReport(s, old(table.Abs(tenant)), report.planes, paired)
  {
    hide FuseRecs, AbsentFrom, AbsentCount, CountRecs, Covers, FlatWeights, Grid;
    var rs := report.planes;
    if rs == [] { return None, s; }
    paired := ring.FindClosest(receivedAt, maxSkew);
    s' := s.(reports := s.reports + 1, noPairing := s.noPairing + if paired == None then 1 else 0);
    s' := FuseReported(table, tenant, rs, paired, s');
    if paired != None { s' := FuseRest(table, tenant, rs, paired.value, s'); }
  }

  /** The coverage test and the absent pass, for a paired report. */
  method FuseRest(table: EvStateTable, tenant: string, rs: seq<LossRec>, w: SentWindow, s: Stats)
    returns (s': Stats)
    requires table.Valid(tenant) && Fitting(w, table.Abs(tenant))
    modifies table`weightsCache, table.Records(tenant)
    ensures table.Valid(tenant)
    ensures var t := old(table.Abs(tenant));
      && table.Abs(tenant) == (if Covers(rs, w) then AbsentFrom(t, rs, w, 0, 0) else t)
      && s' == (if Covers(rs, w) then s.(absentLost := s.absentLost + AbsentCount(t, rs, w, 0, 0))
                else s.(lowCoverage := s.lowCoverage + 1))
  {
    hide AbsentFrom, AbsentCount, FlatWeights, Grid;
    var totalSent := SentTotal(w.sent);
    var totalSeen := ArrivedTotal(rs);
    if totalSent == 0 || 2 * totalSeen < totalSent {
      s' := s.(lowCoverage := s.lowCoverage + 1);
    } else {
      var lost := FuseAbsent(table, tenant, rs, w);
      s' := s.(absentLost := s.absentLost + lost);
    }
  }

  method SentTotal(g: seq<seq<nat>>) returns (total: nat)
    ensures total == SumGrid(g)
  {
    total := 0;
    for p := 0 to |g|
      invariant total + SumGrid(g[p..]) == SumGrid(g)
    {
      assert g[p..][1..] == g[p + 1..];
      var row := RowTotal(g[p]);
      total := total + row;
    }
  }

  method RowTotal(row: seq<nat>) returns (total: nat)
    ensures total == SumRow(row)
  {
    total := 0;
    for q := 0 to |row|
      invariant total + SumRow(row[q..]) == SumRow(row)
    {
      assert row[q..][1..] == row[q + 1..];
      total := total + row[q];
    }
  }

  method ArrivedTotal(rs: seq<LossRec>) returns (total: nat)
    ensures total == TotalArrived(rs)
  {
    total := 0;
    for k := 0 to |rs|
      invariant total + TotalArrived(rs[k..]) == TotalArrived(rs)
    {
      assert rs[k..][1..] == rs[k + 1..];
      total := total + rs[k].seen + rs[k].trimmed;
    }
  }

  /** The loop over the report's records. */
  method FuseReported(table: EvStateTable, tenant: string, rs: seq<LossRec>, paired: Option<SentWindow>, s: Stats)
    returns (s': Stats)
    requires table.Valid(tenant) && PairFits(paired, table.Abs(tenant))
    modifies table`weightsCache, table.Records(tenant)
    ensures table.Valid(tenant)
    ensures table.Abs(tenant) == FuseRecs(old(table.Abs(tenant)), rs, paired)
    ensures s' == CountRecs(s, rs, paired)
  {
    hide FuseRec, CountRec, FlatWeights, Grid;
    ghost var goal := FuseRecs(table.Abs(tenant), rs, paired);
    s' := s;
    for k := 0 to |rs|
      invariant table.Valid(tenant) && PairFits(paired, table.Abs(tenant))
      invariant FuseRecs(table.Abs(tenant), rs[k..], paired) == goal
      invariant CountRecs(s', rs[k..], paired) == CountRecs(s, rs, paired)
    {
      assert rs[k..][1..] == rs[k + 1..];
      s' := FuseOne(table, tenant, rs[k], paired, s');
    }
  }

  lemma {:induction false} SentInRange(p: Option<SentWindow>, t: Table, plane: nat, path: nat)
    requires PairFits(p, t) && SentAt(p, plane, path) > 0
    ensures plane < t.planes && path < t.paths
  {
  }

  method FuseOne(table: EvStateTable, tenant: string, rec: LossRec, paired: Option<SentWindow>, s: Stats)
    returns (s': Stats)
    requires table.Valid(tenant) && PairFits(paired, table.Abs(tenant))
    modifies table`weightsCache, table.Records(tenant)
    ensures table.Valid(tenant)
    ensures table.Abs(tenant) == FuseRec(old(table.Abs(tenant)), rec, paired)
    ensures s' == CountRec(s, rec, paired)
  {
    hide LossWindow, FlatWeights, Grid, SentAt;
    if rec.seen == 0 && rec.expected == 0 && rec.trimmed == 0 {
      return s.(skippedNoData := s.skippedNoData + 1);
    }
    var denominator := SentAt(paired, rec.plane, rec.path);
    if denominator == 0 {
      return s.(fellBack := s.fellBack + 1);
    }
    SentInRange(paired, table.Abs(tenant), rec.plane, rec.path);
    var ok := table.RecordLossWindow(tenant, rec.plane, rec.path, rec.seen + rec.trimmed, denominator);
    return s.(updated := s.updated + 1, paired := s.paired + 1);
  }

  /** The loop over the window's cells; returns how many were recorded as lost. */
  method FuseAbsent(table: EvStateTable, tenant: string, rs: seq<LossRec>, w: SentWindow) returns (lost: nat)
    requires table.Valid(tenant) && Fitting(w, table.Abs(tenant))
    modifies table`weightsCache, table.Records(tenant)
    ensures table.Valid(tenant)
    ensures table.Abs(tenant) == AbsentFrom(old(table.Abs(tenant)), rs, w, 0, 0)
    ensures lost == AbsentCount(old(table.Abs(tenant)), rs, w, 0, 0)
  {
    hide AbsentCell, CountsAsLost, FlatWeights, Grid;
    var reported := set k | 0 <= k < |rs| :: (rs[k].plane, rs[k].path);
    ghost var goal := AbsentFrom(table.Abs(tenant), rs, w, 0, 0);
    ghost var count := AbsentCount(table.Abs(tenant), rs, w, 0, 0);
    lost := 0;
    for plane := 0 to |w.sent|
      invariant table.Valid(tenant) && Fitting(w, table.Abs(tenant))
      invariant AbsentFrom(table.Abs(tenant), rs, w, plane, 0) == goal
      invariant lost + AbsentCount(table.Abs(tenant), rs, w, plane, 0) == count
    {
      var n := FuseAbsentRow(table, tenant, rs, reported, w, plane);
      lost := lost + n;
    }
  }

  method FuseAbsentRow(table: EvStateTable, tenant: string, rs: seq<LossRec>, reported: set<(nat, nat)>,
    w: SentWindow, plane: nat) returns (lost: nat)
    requires table.Valid(tenant) && Fitting(w, table.Abs(tenant)) && plane < table.planes
    requires reported == set k | 0 <= k < |rs| :: (rs[k].plane, rs[k].path)
    modifies table`weightsCache, table.Records(tenant)
    ensures table.Valid(tenant) && Fitting(w, table.Abs(tenant))
    ensures AbsentFrom(table.Abs(tenant), rs, w, plane + 1, 0) ==
            old(AbsentFrom(table.Abs(tenant), rs, w, plane, 0))
    ensures lost + AbsentCount(table.Abs(tenant), rs, w, plane + 1, 0) ==
            old(AbsentCount(table.Abs(tenant), rs, w, plane, 0))
  {
    hide AbsentCell, CountsAsLost, FlatWeights, Grid;
    ghost var goal := AbsentFrom(table.Abs(tenant), rs, w, plane, 0);
    ghost var count := AbsentCount(table.Abs(tenant), rs, w, plane, 0);
    lost := 0;
    for path := 0 to |w.sent[plane]|
      invariant table.Valid(tenant) && Fitting(w, table.Abs(tenant))
      invariant AbsentFrom(table.Abs(tenant), rs, w, plane, path) == goal
      invariant lost + AbsentCount(table.Abs(tenant), rs, w, plane, path) == count
    {
      var n := FuseAbsentCell(table, tenant, rs, reported, w, plane, path);
      lost := lost + n;
    }
  }

  method FuseAbsentCell(table: EvStateTable, tenant: string, rs: seq<LossRec>, reported: set<(nat, nat)>,
    w: SentWindow, plane: nat, path: nat) returns (n: nat)
    requires table.Valid(tenant) && Fitting(w, table.Abs(tenant)) && plane < table.planes && path < table.paths
    requires reported == set k | 0 <= k < |rs| :: (rs[k].plane, rs[k].path)
    modifies table`weightsCache, table.Records(tenant)
    ensures table.Valid(tenant)
    ensures table.Abs(tenant) == AbsentCell(old(table.Abs(tenant)), rs, w, plane, path)
    ensures n == if CountsAsLost(old(table.Abs(tenant)), rs, w, plane, path) then 1 else 0
  {
    hide LossWindow, FlatWeights, Grid;
    var sent := w.sent[plane][path];
    if sent < MIN_SENT_FOR_ABSENT_LOSS { return 0; }
    assert (plane, path) in reported <==> Reported(rs, plane, path);
    if (plane, path) in reported { return 0; }
    var state := table.StateOf(tenant, plane, path);
    if state == Some(AssumedBad) { return 0; }
    var ok := table.RecordLossWindow(tenant, plane, path, 0, sent);
    return 1;
  }
}
