/**
  One loss report in full: what it does to every EV and every counter, in the numbers of the report and
  of the paired window, and that any run with reports is a run of single events.
 */
module ReportRuns {
  import opened Arith
  import opened Wrappers
  import opened Grids
  import opened EvState
  import opened EvInvariant
  import opened EvRuns
  import opened LossFusion
  import opened LossRuns
  import opened LossReports

  // ---------------------------------------------------------------- EVs a report does not name

  /** EV (p, q) was sent at least 2 packets, the report does not name it, and it is in use. */
  ghost predicate Silent(t: Table, rs: seq<LossRec>, w: SentWindow, p: nat, q: nat)
    requires Shaped(t) && Fitting(w, t) && p < t.planes && q < t.paths
  {
    && w.sent[p][q] >= 2
    && (forall k :: 0 <= k < |rs| ==> rs[k].plane != p || rs[k].path != q)
    && t.recs[Index(t.planes, t.paths, p, q)].state != AssumedBad
  }

  lemma {:induction false} UnnamedKept(t: Table, rs: seq<LossRec>, w: Option<SentWindow>, p: nat, q: nat)
    requires PairFits(w, t) && p < t.planes && q < t.paths && !Reported(rs, p, q)
    ensures var i := Index(t.planes, t.paths, p, q); FuseRecs(t, rs, w).recs[i] == t.recs[i]
  {
    assert NotClean(t, Report(rs, w), p, q);
    NotCleanRecs(t, rs, w, p, q);
  }

  lemma {:induction false} SilentIsLost(t: Table, rs: seq<LossRec>, w: SentWindow, p: nat, q: nat)
    requires Shaped(t) && Fitting(w, t) && p < t.planes && q < t.paths
    ensures CountsAsLost(FuseRecs(t, rs, Some(w)), rs, w, p, q) <==> Silent(t, rs, w, p, q)
  {
    if !Reported(rs, p, q) { UnnamedKept(t, rs, Some(w), p, q); }
  }

  /**
    An EV that a paired report does not name is hit by one window of total loss if at least half of
    what the window sent arrived, at least 2 packets were sent on it and it is in use; otherwise the
    report leaves it exactly as it was.
   */
  lemma {:induction false} UnnamedVerdict(t: Table, rs: seq<LossRec>, w: SentWindow, p: nat, q: nat)
    returns (u: int)
    requires Shaped(t) && Fitting(w, t) && p < t.planes && q < t.paths && rs != []
    requires forall k :: 0 <= k < |rs| ==> rs[k].plane != p || rs[k].path != q
    ensures var i := Index(t.planes, t.paths, p, q);
      Fuse(t, rs, Some(w)).recs[i] ==
        if HalfArrived(rs, w) && w.sent[p][q] >= 2 && t.recs[i].state != AssumedBad
        then LossCell(t.cfg, t.minActive, t.ticks, t.recs[i], u, 0, w.sent[p][q]) else t.recs[i]
  {
    var t1 := FuseRecs(t, rs, Some(w));
    UnnamedKept(t, rs, Some(w), p, q);
    SilentIsLost(t, rs, w, p, q);
    CoversIsHalf(rs, w);
    hide HalfArrived, FuseRecs, Covers;
    u := 0;
    if HalfArrived(rs, w) {
      if Silent(t, rs, w, p, q) {
        u := AbsentStrikes(t1, rs, w, 0, 0, p, q);
      } else {
        AbsentSpares(t1, rs, w, 0, 0, p, q);
      }
    }
  }

  // ---------------------------------------------------------------- the counters

  /** The cells from (p0, q0) on whose absence counts. */
  ghost function LostCells(t: Table, rs: seq<LossRec>, w: SentWindow, p0: nat, q0: nat): set<(nat, nat)>
    requires Shaped(t) && Fitting(w, t)
  {
    set p: nat, q: nat | p < t.planes && q < t.paths && (p0 < p || (p0 == p && q0 <= q))
      && CountsAsLost(t, rs, w, p, q) :: (p, q)
  }

  lemma {:induction false} AbsentCellElsewhere(
    t: Table, rs: seq<LossRec>, w: SentWindow, p0: nat, q0: nat, p: nat, q: nat)
    requires Shaped(t) && Fitting(w, t) && p0 < t.planes && q0 < t.paths && p < t.planes && q < t.paths
    requires p != p0 || q != q0
    ensures CountsAsLost(AbsentCell(t, rs, w, p0, q0), rs, w, p, q) <==> CountsAsLost(t, rs, w, p, q)
  {
    SameCell(t.paths, p, q, p0, q0);
    if CountsAsLost(t, rs, w, p0, q0) {
      LossWindowAt(t, Index(t.planes, t.paths, p0, q0), 0, w.sent[p0][q0], Index(t.planes, t.paths, p, q));
    }
  }

  lemma {:induction false} LostCellsStep(t: Table, rs: seq<LossRec>, w: SentWindow, p0: nat, q0: nat)
    requires Shaped(t) && Fitting(w, t) && p0 < t.planes && q0 < t.paths
    ensures LostCells(t, rs, w, p0, q0) == LostCells(AbsentCell(t, rs, w, p0, q0), rs, w, p0, q0 + 1)
      + if CountsAsLost(t, rs, w, p0, q0) then {(p0, q0)} else {}
  {
    var t1 := AbsentCell(t, rs, w, p0, q0);
    forall p: nat, q: nat | p < t.planes && q < t.paths && (p0 < p || (p0 == p && q0 < q))
      ensures CountsAsLost(t1, rs, w, p, q) <==> CountsAsLost(t, rs, w, p, q)
    {
      AbsentCellElsewhere(t, rs, w, p0, q0, p, q);
    }
    hide CountsAsLost, AbsentCell, Fitting;
  }

  lemma {:induction false} AbsentCountIsSize(t: Table, rs: seq<LossRec>, w: SentWindow, p: nat, q: nat)
    requires Shaped(t) && Fitting(w, t) && p <= t.planes && q <= t.paths
    ensures AbsentCount(t, rs, w, p, q) == |LostCells(t, rs, w, p, q)|
    decreases t.planes - p, t.paths - q
  {
    if p == t.planes {
      assert LostCells(t, rs, w, p, q) == {};
    } else if q == t.paths {
      AbsentCountIsSize(t, rs, w, p + 1, 0);
      assert LostCells(t, rs, w, p, q) == LostCells(t, rs, w, p + 1, 0);
    } else {
      LostCellsStep(t, rs, w, p, q);
      AbsentCountIsSize(AbsentCell(t, rs, w, p, q), rs, w, p, q + 1);
    }
  }

  /** The EVs that count as lost by their silence. */
  ghost function SilentEvs(t: Table, rs: seq<LossRec>, w: SentWindow): set<(nat, nat)>
    requires Shaped(t) && Fitting(w, t)
  {
    set p: nat, q: nat | p < t.planes && q < t.paths && Silent(t, rs, w, p, q) :: (p, q)
  }

  /**
    A paired report of which less than half of the window's packets arrived moves `lowCoverage` by one
    and `absentLost` by none; any other moves `absentLost` by the number of silent EVs.
   */
  lemma {:induction false} SilenceCounted(s: Stats, t: Table, rs: seq<LossRec>, w: SentWindow)
    requires Shaped(t) && Fitting(w, t) && rs != []
    ensures var s' := CountReport(s, t, rs, Some(w));
      && s'.reports == s.reports + 1 && s'.noPairing == s.noPairing
      && s'.lowCoverage == s.lowCoverage + (if HalfArrived(rs, w) then 0 else 1)
      && s'.absentLost == s.absentLost + if HalfArrived(rs, w) then |SilentEvs(t, rs, w)| else 0
  {
    var t1 := FuseRecs(t, rs, Some(w));
    EveryRecordCounted(s.(reports := s.reports + 1), rs, Some(w));
    CoversIsHalf(rs, w);
    AbsentCountIsSize(t1, rs, w, 0, 0);
    forall p: nat, q: nat | p < t.planes && q < t.paths
      ensures CountsAsLost(t1, rs, w, p, q) <==> Silent(t, rs, w, p, q)
    {
      SilentIsLost(t, rs, w, p, q);
    }
    hide CountsAsLost, Silent, FuseRecs, Covers, HalfArrived, CountRecs;
    assert LostCells(t1, rs, w, 0, 0) == SilentEvs(t, rs, w);
  }

  /** The records without any data, and those with data of an EV on which the window sent something. */
  ghost function Blank(rs: seq<LossRec>): set<int> {
    set k | 0 <= k < |rs| && rs[k].seen == 0 && rs[k].expected == 0 && rs[k].trimmed == 0
  }

  ghost function Matched(rs: seq<LossRec>, w: Option<SentWindow>): set<int> {
    set k | 0 <= k < |rs| && k !in Blank(rs) && w.Some?
      && rs[k].plane < |w.value.sent| && rs[k].path < |w.value.sent[rs[k].plane]|
      && w.value.sent[rs[k].plane][rs[k].path] > 0
  }

  lemma {:induction false} CountRecsSnoc(s: Stats, rs: seq<LossRec>, r: LossRec, w: Option<SentWindow>)
    ensures CountRecs(s, rs + [r], w) == CountRec(CountRecs(s, rs, w), r, w)
    decreases |rs|
  {
    hide CountRec;
    if rs == [] {
      assert ([] + [r])[1..] == [];
    } else {
      assert (rs + [r])[1..] == rs[1..] + [r];
      CountRecsSnoc(CountRec(s, rs[0], w), rs[1..], r, w);
    }
  }

  lemma {:induction false} MatchedStep(front: seq<LossRec>, r: LossRec, w: Option<SentWindow>)
    ensures Blank(front + [r]) == Blank(front) + if r.NoData() then {|front|} else {}
    ensures Matched(front + [r], w) ==
      Matched(front, w) + if !r.NoData() && SentAt(w, r.plane, r.path) > 0 then {|front|} else {}
  {
    var rs := front + [r];
    assert forall k :: 0 <= k < |front| ==> rs[k] == front[k];
    assert Blank(rs) == Blank(front) + if r.NoData() then {|front|} else {};
  }

  lemma {:induction false} InRange(rs: seq<LossRec>, w: Option<SentWindow>)
    ensures |rs| !in Blank(rs) && |rs| !in Matched(rs, w)
  {
  }

  /** A record without data is skipped, one with a sender's count updates its EV, any other falls back. */
  lemma {:induction false} RecordsCounted(s: Stats, rs: seq<LossRec>, w: Option<SentWindow>)
    ensures var s' := CountRecs(s, rs, w);
      && s'.skippedNoData == s.skippedNoData + |Blank(rs)|
      && s'.updated == s.updated + |Matched(rs, w)| && s'.paired == s.paired + |Matched(rs, w)|
      && s'.fellBack == s.fellBack + |rs| - |Blank(rs)| - |Matched(rs, w)|
  {
    if rs == [] {
      assert Blank(rs) == {} && Matched(rs, w) == {};
    } else {
      var front, r := rs[..|rs| - 1], rs[|rs| - 1];
      RecordsCounted(s, front, w);
      assert rs == front + [r];
      CountRecsSnoc(s, front, r, w);
      MatchedStep(front, r, w);
      InRange(front, w);
      hide CountRecs, Blank, Matched;
    }
  }

  // ---------------------------------------------------------------- a report is a run of loss windows

  lemma {:induction false} RunConcat(t: Table, a: seq<Event>, b: seq<Event>)
    ensures Run(t, a + b) == Run(Run(t, a), b)
    decreases |a|
  {
    hide Step;
    if a == [] {
      assert a + b == b;
    } else {
      assert (a + b)[1..] == a[1..] + b;
      RunConcat(Step(t, a[0]), a[1..], b);
    }
  }

  ghost predicate OnlyLoss(es: seq<Event>) { forall e :: e in es ==> e.Loss? }

  lemma {:induction false} RunCons(t: Table, e: Event, rest: seq<Event>)
    ensures Run(t, [e] + rest) == Run(Step(t, e), rest)
  {
    assert ([e] + rest)[1..] == rest;
  }

  lemma {:induction false} RecsAreLosses(t: Table, rs: seq<LossRec>, w: Option<SentWindow>) returns (es: seq<Event>)
    requires PairFits(w, t)
    ensures OnlyLoss(es) && Run(t, es) == FuseRecs(t, rs, w)
    decreases |rs|
  {
    if rs == [] { return []; }
    es := RecsAreLosses(FuseRec(t, rs[0], w), rs[1..], w);
    var r, sent := rs[0], SentAt(w, rs[0].plane, rs[0].path);
    if !r.NoData() && sent != 0 {
      var e := Loss(Index(t.planes, t.paths, r.plane, r.path), r.Arrived(), sent);
      RunCons(t, e, es);
      es := [e] + es;
    }
  }

  lemma {:induction false} AbsentAreLosses(t: Table, rs: seq<LossRec>, w: SentWindow, p: nat, q: nat)
    returns (es: seq<Event>)
    requires Shaped(t) && Fitting(w, t) && p <= t.planes && q <= t.paths
    ensures OnlyLoss(es) && Run(t, es) == AbsentFrom(t, rs, w, p, q)
    decreases t.planes - p, t.paths - q
  {
    if p == t.planes { return []; }
    if q == t.paths {
      es := AbsentAreLosses(t, rs, w, p + 1, 0);
    } else {
      es := AbsentAreLosses(AbsentCell(t, rs, w, p, q), rs, w, p, q + 1);
      if CountsAsLost(t, rs, w, p, q) {
        var e := Loss(Index(t.planes, t.paths, p, q), 0, w.sent[p][q]);
        RunCons(t, e, es);
        es := [e] + es;
      }
    }
  }

  /** What single events make up a run: each core event itself, and loss windows only for a report. */
  ghost predicate Unfolds(es: seq<LoopEvent>, core: seq<seq<Event>>) {
    && |core| == |es|
    && forall k :: 0 <= k < |es| ==>
         match es[k]
         case Core(e) => core[k] == [e]
         case Report(_, _) => OnlyLoss(core[k])
  }

  function Joined(core: seq<seq<Event>>): seq<Event> {
    if core == [] then [] else core[0] + Joined(core[1..])
  }

  /**
    A run with reports is a run of single events, the reports replaced by loss windows: whatever is
    proved of every run of the table holds with whole reports in it.
   */
  lemma {:induction false} LoopIsRun(t: Table, es: seq<LoopEvent>) returns (core: seq<seq<Event>>)
    requires Shaped(t)
    ensures Unfolds(es, core) && Run(t, Joined(core)) == LoopRun(t, es)
    decreases |es|
  {
    if es == [] { return []; }
    var first := StepIsRun(t, es[0]);
    var rest := LoopIsRun(LoopStep(t, es[0]), es[1..]);
    core := [first] + rest;
    assert core[1..] == rest;
    RunConcat(t, first, Joined(rest));
  }

  lemma {:induction false} StepIsRun(t: Table, e: LoopEvent) returns (core: seq<Event>)
    requires Shaped(t)
    ensures Run(t, core) == LoopStep(t, e)
    ensures match e case Core(c) => core == [c] case Report(_, _) => OnlyLoss(core)
  {
    match e
    case Core(c) =>
      core := [c];
      RunCons(t, c, []);
      assert [c] + [] == [c];
    case Report(rs, w) =>
      if !PairFits(w, t) { return []; }
      core := RecsAreLosses(t, rs, w);
      if rs != [] && w.Some? && Covers(rs, w.value) {
        var absent := AbsentAreLosses(FuseRecs(t, rs, w), rs, w.value, 0, 0);
        RunConcat(t, core, absent);
        core := core + absent;
      }
  }
}
