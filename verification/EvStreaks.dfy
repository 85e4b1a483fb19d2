/**
  What "consecutive" means for the two streaks of the EV state machine: the healthy streak that brings
  an EV back and the loss streak that takes it out.  Both skip windows without evidence.
 */
module EvStreaks {
  import opened Wrappers
  import opened EvState
  import opened EvInvariant
  import opened EvRuns

  // ---------------------------------------------------------------- streaks over marks

  /** One window as a streak sees it: it counts, it is passed over, or it ends the streak. */
  datatype Mark = Hit | Skip | Reset

  /** The counter as the code keeps it. */
  function Streak(ms: seq<Mark>): nat {
    if ms == [] then 0
    else
      match ms[|ms| - 1]
      case Hit => Streak(ms[..|ms| - 1]) + 1
      case Skip => Streak(ms[..|ms| - 1])
      case Reset => 0
  }

  /** The hits at the very end: truly consecutive windows. */
  function Trailing(ms: seq<Mark>): nat {
    if ms == [] || ms[|ms| - 1] != Hit then 0 else Trailing(ms[..|ms| - 1]) + 1
  }

  /** Window `a` is a hit of the streak in progress. */
  ghost predicate Counted(ms: seq<Mark>, a: int) {
    0 <= a < |ms| && ms[a] == Hit && Reset !in ms[a..]
  }

  /** A window was passed over after a hit of the streak in progress. */
  ghost predicate Bridged(ms: seq<Mark>) {
    exists a, b :: Counted(ms, a) && a < b < |ms| && ms[b] == Skip
  }

  lemma {:induction false} CountedStep(ms: seq<Mark>, m: Mark, a: int)
    requires 0 <= a < |ms|
    ensures Counted(ms + [m], a) <==> Counted(ms, a) && m != Reset
  {
    assert (ms + [m])[a..] == ms[a..] + [m];
  }

  lemma {:induction false} StreakStarts(ms: seq<Mark>)
    ensures Streak(ms) > 0 <==> exists a :: Counted(ms, a)
  {
    if ms != [] {
      var front, m := ms[..|ms| - 1], ms[|ms| - 1];
      assert ms == front + [m];
      StreakStarts(front);
      forall a | 0 <= a < |front| ensures Counted(ms, a) <==> Counted(front, a) && m != Reset {
        CountedStep(front, m, a);
      }
      assert Counted(ms, |front|) <==> m == Hit by { assert ms[|front|..] == [m]; }
      if Streak(front) > 0 {
        var a :| Counted(front, a);
        assert m != Reset ==> Counted(ms, a);
      }
    }
  }

  /** A streak is truly consecutive if and only if no window was passed over inside it. */
  lemma {:induction false} ConsecutiveIffNotBridged(ms: seq<Mark>)
    ensures Trailing(ms) <= Streak(ms)
    ensures Trailing(ms) == Streak(ms) <==> !Bridged(ms)
  {
    if ms != [] {
      var front, m := ms[..|ms| - 1], ms[|ms| - 1];
      assert ms == front + [m];
      ConsecutiveIffNotBridged(front);
      StreakStarts(front);
      BridgedStep(front, m);
    }
  }

  lemma {:induction false} BridgedStep(ms: seq<Mark>, m: Mark)
    ensures Bridged(ms + [m]) <==>
      match m
      case Hit => Bridged(ms)
      case Skip => Bridged(ms) || exists a :: Counted(ms, a)
      case Reset => false
  {
    var all, n := ms + [m], |ms|;
    forall a | 0 <= a < n ensures Counted(all, a) <==> Counted(ms, a) && m != Reset {
      CountedStep(ms, m, a);
    }
    assert m == Skip ==> all[n] == Skip;
    if Bridged(ms) {
      var a, b :| Counted(ms, a) && a < b < n && ms[b] == Skip;
      assert all[b] == Skip && (m != Reset ==> Counted(all, a));
    }
    if m == Skip && exists a :: Counted(ms, a) {
      var a :| Counted(ms, a);
      assert Counted(all, a);
    }
  }

  // ---------------------------------------------------------------- the healthy streak

  /** What a tick finds in an EV's window: evidence of health, no probes at all, or anything else. */
  function TickMark(cfg: Config, r: Rec): Mark {
    var b := Rotate(cfg, r).buckets;
    if SumSent(b) == 0 then Skip
    else
      var ratio := ProbeRatio(SumSent(b), SumRecv(b));
      if SumSent(b) >= cfg.minSamples && ratio >= cfg.failRatio && ratio >= cfg.recoverRatio then Hit else Reset
  }

  /** The mark an event leaves on the healthy streak of EV `i`; a change of state ends the streak. */
  ghost function HealthyMark(t: Table, e: Event, i: nat): Option<Mark>
    requires i < |t.recs|
  {
    if Step(t, e).recs[i].state != t.recs[i].state then Some(Reset)
    else if e == TickEvent then Some(TickMark(t.cfg, t.recs[i]))
    else None
  }

  /** A window without probes leaves the EV's state and both its streaks as they are. */
  lemma {:induction false} NoProbesNoChange(t: Table, i: nat)
    requires i < |t.recs| && SumSent(Rotate(t.cfg, t.recs[i]).buckets) == 0
    ensures Tick(t).recs[i] == Rotate(t.cfg, t.recs[i]).(lastProbeRatio := 0.0)
    ensures Tick(t).recs[i].healthy == t.recs[i].healthy && Tick(t).recs[i].lossStreak == t.recs[i].lossStreak
  {
    var v := TickCell(t, i);
  }

  lemma {:induction false} CellMark(cfg: Config, minActive: int, now: nat, r: Rec, u: int)
    ensures var r' := Cell(cfg, minActive, now, r, u).0;
      r'.healthy ==
        if r'.state != r.state then 0
        else match TickMark(cfg, r) case Hit => r.healthy + 1 case Skip => r.healthy case Reset => 0
  {
  }

  lemma {:induction false} LossKeepsHealthy(
    cfg: Config, minActive: int, now: nat, r: Rec, u: int, seen: nat, expected: nat)
    ensures var r' := LossCell(cfg, minActive, now, r, u, seen, expected);
      r'.healthy == if r'.state != r.state then 0 else r.healthy
  {
  }

  function After(ms: seq<Mark>, m: Option<Mark>): seq<Mark> { if m.Some? then ms + [m.value] else ms }

  lemma {:induction false} StreakAfter(ms: seq<Mark>, m: Option<Mark>)
    ensures Streak(After(ms, m)) ==
      match m
      case None => Streak(ms)
      case Some(Hit) => Streak(ms) + 1
      case Some(Skip) => Streak(ms)
      case Some(Reset) => 0
  {
    if m.Some? { assert (ms + [m.value])[..|ms|] == ms; }
  }

  lemma {:induction false} HealthyStep(t: Table, e: Event, i: nat, ms: seq<Mark>)
    requires i < |t.recs| && t.recs[i].healthy == Streak(ms)
    ensures Step(t, e).recs[i].healthy == Streak(After(ms, HealthyMark(t, e, i)))
  {
    var v := StepCell(t, e, i);
    StreakAfter(ms, HealthyMark(t, e, i));
    match e
    case TickEvent => CellMark(t.cfg, t.minActive, t.ticks + 1, t.recs[i], v);
    case Loss(j, seen, expected) => LossKeepsHealthy(t.cfg, t.minActive, t.ticks, t.recs[i], v, seen, expected);
    case _ =>
  }

  /** The marks of a run, appended to those before it. */
  ghost function HealthyMarks(t: Table, es: seq<Event>, i: nat, ms: seq<Mark>): seq<Mark>
    requires i < |t.recs|
    decreases |es|
  {
    if es == [] then ms else HealthyMarks(Step(t, es[0]), es[1..], i, After(ms, HealthyMark(t, es[0], i)))
  }

  lemma {:induction false} HealthyRunMarks(t: Table, es: seq<Event>, i: nat, ms: seq<Mark>)
    requires i < |t.recs| && t.recs[i].healthy == Streak(ms)
    ensures Run(t, es).recs[i].healthy == Streak(HealthyMarks(t, es, i, ms))
    decreases |es|
  {
    if es != [] {
      HealthyStep(t, es[0], i, ms);
      hide Step, HealthyMark, Streak, After;
      HealthyRunMarks(Step(t, es[0]), es[1..], i, After(ms, HealthyMark(t, es[0], i)));
    }
  }

  /**
    Over every run from a fresh table: the healthy streak is at least the number of ticks in a row,
    up to now, that each found a healthy window, and it is exactly that number if and only if no tick
    without probes came inside the streak.
   */
  lemma {:induction false} HealthyStreakIffNoIdleTick(cfg: Config, planes: nat, paths: nat, es: seq<Event>, i: nat)
    requires i < planes * paths
    ensures var ms := HealthyMarks(Init(cfg, planes, paths), es, i, []);
      var healthy := Run(Init(cfg, planes, paths), es).recs[i].healthy;
      Trailing(ms) <= healthy && (Trailing(ms) == healthy <==> !Bridged(ms))
  {
    var t := Init(cfg, planes, paths);
    HealthyRunMarks(t, es, i, []);
    ConsecutiveIffNotBridged(HealthyMarks(t, es, i, []));
  }

  // ---------------------------------------------------------------- the loss streak

  /** A loss window as the loss streak sees it: only at most half the threshold ends the streak. */
  function WindowMark(cfg: Config, seen: nat, expected: nat): Mark
    requires expected > 0
  {
    if LossRatio(seen, expected) > cfg.lossThreshold then Hit
    else if LossRatio(seen, expected) <= cfg.lossThreshold / 2.0 then Reset
    else Skip
  }

  /** The mark an event leaves on the loss streak of EV `i`; a demote ends the streak. */
  ghost function LossMark(t: Table, e: Event, i: nat): Option<Mark>
    requires i < |t.recs|
  {
    if t.recs[i].state != AssumedBad && Step(t, e).recs[i].state == AssumedBad then Some(Reset)
    else if e.Loss? && e.ev == i && e.expected > 0 then Some(WindowMark(t.cfg, e.seen, e.expected))
    else None
  }

  /** A window with loss above half the threshold but not above it changes neither state nor streak. */
  lemma {:induction false} MiddlingLossNoChange(t: Table, i: nat, seen: nat, expected: nat)
    requires i < |t.recs| && expected > 0
    requires t.cfg.lossThreshold / 2.0 < LossRatio(seen, expected) <= t.cfg.lossThreshold
    ensures Step(t, Loss(i, seen, expected)).recs[i] == t.recs[i].(lastLossRatio := LossRatio(seen, expected))
  {
  }

  lemma {:induction false} CellKeepsLossStreak(cfg: Config, minActive: int, now: nat, r: Rec, u: int)
    ensures var r' := Cell(cfg, minActive, now, r, u).0;
      r'.lossStreak == if r.state != AssumedBad && r'.state == AssumedBad then 0 else r.lossStreak
  {
  }

  lemma {:induction false} LossCellMark(
    cfg: Config, minActive: int, now: nat, r: Rec, u: int, seen: nat, expected: nat)
    requires expected > 0
    ensures var r' := LossCell(cfg, minActive, now, r, u, seen, expected);
      r'.lossStreak ==
        if r.state != AssumedBad && r'.state == AssumedBad then 0
        else match WindowMark(cfg, seen, expected)
          case Hit => r.lossStreak + 1
          case Skip => r.lossStreak
          case Reset => 0
  {
  }

  lemma {:induction false} LossStep(t: Table, e: Event, i: nat, ms: seq<Mark>)
    requires i < |t.recs| && t.recs[i].lossStreak == Streak(ms)
    ensures Step(t, e).recs[i].lossStreak == Streak(After(ms, LossMark(t, e, i)))
  {
    var v := StepCell(t, e, i);
    StreakAfter(ms, LossMark(t, e, i));
    match e
    case TickEvent => CellKeepsLossStreak(t.cfg, t.minActive, t.ticks + 1, t.recs[i], v);
    case Loss(j, seen, expected) =>
      if j == i && expected > 0 { LossCellMark(t.cfg, t.minActive, t.ticks, t.recs[i], v, seen, expected); }
    case _ =>
  }

  ghost function LossMarks(t: Table, es: seq<Event>, i: nat, ms: seq<Mark>): seq<Mark>
    requires i < |t.recs|
    decreases |es|
  {
    if es == [] then ms else LossMarks(Step(t, es[0]), es[1..], i, After(ms, LossMark(t, es[0], i)))
  }

  lemma {:induction false} LossRunMarks(t: Table, es: seq<Event>, i: nat, ms: seq<Mark>)
    requires i < |t.recs| && t.recs[i].lossStreak == Streak(ms)
    ensures Run(t, es).recs[i].lossStreak == Streak(LossMarks(t, es, i, ms))
    decreases |es|
  {
    if es != [] {
      LossStep(t, es[0], i, ms);
      hide Step, LossMark, Streak, After;
      LossRunMarks(Step(t, es[0]), es[1..], i, After(ms, LossMark(t, es[0], i)));
    }
  }

  /**
    Over every run from a fresh table: the loss streak is at least the number of loss windows of the
    EV in a row, up to now, that were above the threshold, and it is exactly that number if and only
    if no window between half the threshold and the threshold came inside the streak.
   */
  lemma {:induction false} LossStreakIffNoMiddlingWindow(cfg: Config, planes: nat, paths: nat, es: seq<Event>, i: nat)
    requires i < planes * paths
    ensures var ms := LossMarks(Init(cfg, planes, paths), es, i, []);
      var streak := Run(Init(cfg, planes, paths), es).recs[i].lossStreak;
      Trailing(ms) <= streak && (Trailing(ms) == streak <==> !Bridged(ms))
  {
    var t := Init(cfg, planes, paths);
    LossRunMarks(t, es, i, []);
    ConsecutiveIffNotBridged(LossMarks(t, es, i, []));
  }

  // ---------------------------------------------------------------- both streaks do skip windows

  /** One-tick windows, two healthy ones to recover, two lossy ones to demote. */
  const QUICK := Config(1, 1, 0.5, 0.9, 2, 0.25, 2, None, 0, 0)

  /** A lab of two EVs whose first is out after two lossy windows. */
  function OneOut(): seq<Event> { [Loss(0, 0, 4), Loss(0, 0, 4)] }

  /** One probe out, one probe back, and the tick that evaluates it. */
  function HealthyTick(): seq<Event> { [ProbeSent(0), ProbeRecv(0), TickEvent] }

  lemma {:induction false} RunOne(t: Table, a: Event, rest: seq<Event>)
    ensures Run(t, [a] + rest) == Run(Step(t, a), rest)
  {
    assert ([a] + rest)[1..] == rest;
  }

  /** Two lossy windows take the first of two EVs out; their hold is two healthy ticks. */
  lemma {:induction false} OneOutIsOut()
    ensures var t := Run(Init(QUICK, 1, 2), OneOut());
      && |t.recs| == 2 && t.cfg == QUICK && t.recs[0].state == AssumedBad
      && t.recs[0].healthy == 0 && t.recs[0].lossStreak == 0 && Hold(QUICK, t.recs[0]) == 2
      && t.recs[0].current == Bucket(0, 0)
  {
    var t, e := Init(QUICK, 1, 2), Loss(0, 0, 4);
    assert LossRatio(0, 4) == 1.0;
    var t1 := Step(t, e);
    var v1 := StepCell(t, e, 0);
    StepShape(t, e);
    assert t1.recs[0] == t.recs[0].(lossStreak := 1, lastLossRatio := 1.0);
    assert t1.recs[1] == t.recs[1];
    var v2 := StepCell(t1, e, 0);
    assert v2 == 2 by { assert t1.recs[1..][1..] == [] && t1.recs[1..][0] == t1.recs[1]; }
    StepShape(t1, e);
    RunOne(t, e, [e]);
    RunOne(t1, e, []);
    assert [e] + [e] == OneOut() && [e] + [] == [e];
  }

  /** What a healthy tick does to an EV that is out, with one-tick windows. */
  lemma {:induction false} HealthyTickOn(t: Table)
    requires |t.recs| > 0 && t.cfg == QUICK && t.recs[0].state == AssumedBad && t.recs[0].lossStreak == 0
    requires t.recs[0].current == Bucket(0, 0)
    ensures var r, r' := t.recs[0], Run(t, HealthyTick()).recs[0];
      && r'.current == Bucket(0, 0) && r'.lossStreak == 0 && Run(t, HealthyTick()).cfg == QUICK
      && (r.healthy + 1 >= Hold(QUICK, r) ==> r'.state == Good)
      && (r.healthy + 1 < Hold(QUICK, r) ==>
            r'.state == AssumedBad && r'.healthy == r.healthy + 1 && Hold(QUICK, r') == Hold(QUICK, r))
  {
    var t1 := Step(t, ProbeSent(0));
    var t2 := Step(t1, ProbeRecv(0));
    var v := StepCell(t2, TickEvent, 0);
    StepShape(t2, TickEvent);
    RunOne(t, ProbeSent(0), [ProbeRecv(0), TickEvent]);
    RunOne(t1, ProbeRecv(0), [TickEvent]);
    RunOne(t2, TickEvent, []);
    assert [ProbeSent(0)] + [ProbeRecv(0), TickEvent] == HealthyTick();
    assert [ProbeRecv(0)] + [TickEvent] == [ProbeRecv(0), TickEvent] && [TickEvent] + [] == [TickEvent];
    var r := t2.recs[0];
    assert r.current == Bucket(1, 1);
    assert Rotate(QUICK, r).buckets == [Bucket(1, 1)];
    assert SumSent([Bucket(1, 1)]) == 1 && SumRecv([Bucket(1, 1)]) == 1 && ProbeRatio(1, 1) == 1.0;
  }

  /** An EV comes back on two healthy ticks with a tick without probes between them. */
  lemma {:induction false} RecoversOverAnIdleTick()
    ensures var t1 := Run(Init(QUICK, 1, 2), OneOut());
      var t2 := Run(t1, HealthyTick());
      var t3 := Step(t2, TickEvent);
      && |t1.recs| == |t2.recs| == 2
      && t1.recs[0].state == t2.recs[0].state == t3.recs[0].state == AssumedBad
      && SumSent(Rotate(QUICK, t2.recs[0]).buckets) == 0
      && Run(t3, HealthyTick()).recs[0].state == Good
  {
    OneOutIsOut();
    var t1 := Run(Init(QUICK, 1, 2), OneOut());
    HealthyTickOn(t1);
    var t2 := Run(t1, HealthyTick());
    assert Rotate(QUICK, t2.recs[0]).buckets == [Bucket(0, 0)];
    NoProbesNoChange(t2, 0);
    StepShape(t2, TickEvent);
    hide Run, HealthyTick, OneOut;
    HealthyTickOn(Step(t2, TickEvent));
  }

  /** Two lossy windows take an EV out with a window of middling loss between them. */
  lemma {:induction false} DemotesOverAMiddlingWindow()
    ensures var t1 := Step(Init(QUICK, 1, 2), Loss(0, 0, 5));
      var t2 := Step(t1, Loss(0, 4, 5));
      && WindowMark(QUICK, 4, 5) == Skip && |t1.recs| == |t2.recs| == 2
      && t1.recs[0].state != AssumedBad && t2.recs[0].state != AssumedBad
      && Step(t2, Loss(0, 0, 5)).recs[0].state == AssumedBad
  {
    var t := Init(QUICK, 1, 2);
    assert LossRatio(0, 5) == 1.0 && LossRatio(4, 5) == 0.2;
    var t1 := Step(t, Loss(0, 0, 5));
    var v1 := StepCell(t, Loss(0, 0, 5), 0);
    StepShape(t, Loss(0, 0, 5));
    assert t1.recs[0] == t.recs[0].(lossStreak := 1, lastLossRatio := 1.0) && t1.recs[1] == t.recs[1];
    MiddlingLossNoChange(t1, 0, 4, 5);
    var t2 := Step(t1, Loss(0, 4, 5));
    StepShape(t1, Loss(0, 4, 5));
    assert t2.recs[0].lossStreak == 1 && t2.recs[1] == t1.recs[1];
    var v2 := StepCell(t2, Loss(0, 0, 5), 0);
    assert v2 == 2 by { assert t2.recs[1..][1..] == [] && t2.recs[1..][0] == t2.recs[1]; }
  }
}
