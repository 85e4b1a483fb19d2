/**
  The loss backoff of one EV read off its history: when events took it out and when it came back, as
  its states show, without looking at the fields that hold the level and the last recovery.
 */
module EvBackoff {
  import opened Arith
  import opened Wrappers
  import opened EvState
  import opened EvInvariant
  import opened EvRuns

  // ---------------------------------------------------------------- the history of one EV

  /** An EV going out, by a loss window or by a tick, or coming back; `at` counts ticks. */
  datatype Change = Demoted(byLoss: bool, at: nat) | Recovered(at: nat)

  /** What event `e`, `now` ticks into the run, changes about EV `i`. */
  ghost function ChangeBy(t: Table, e: Event, i: nat, now: nat): seq<Change>
    requires i < |t.recs|
  {
    var wasOut, isOut := t.recs[i].state == AssumedBad, Step(t, e).recs[i].state == AssumedBad;
    if !wasOut && isOut then [Demoted(e.Loss?, now)] else if wasOut && !isOut then [Recovered(now)] else []
  }

  function TicksOf(e: Event): nat { if e == TickEvent then 1 else 0 }

  /** The changes of EV `i` over the events `es`, after the changes `log` of the first `now` ticks. */
  ghost function Log(t: Table, es: seq<Event>, i: nat, log: seq<Change>, now: nat): seq<Change>
    requires i < |t.recs|
    decreases |es|
  {
    if es == [] then log
    else
      var now' := now + TicksOf(es[0]);
      Log(Step(t, es[0]), es[1..], i, log + ChangeBy(t, es[0], i, now'), now')
  }

  /** Change `j` is a recovery from a loss demote. */
  ghost predicate LossRecovery(log: seq<Change>, j: int) {
    0 < j < |log| && log[j].Recovered? && log[j - 1].Demoted? && log[j - 1].byLoss
  }

  /** The EV came back from a loss demote fewer than `backoffResetTicks` ticks ago. */
  ghost predicate JustBack(cfg: Config, log: seq<Change>, now: nat) {
    exists j :: LossRecovery(log, j) && now - log[j].at < cfg.backoffResetTicks
  }

  /** Loss demotes in a row that came so soon after a recovery, up to the last loss demote. */
  ghost function Relapses(cfg: Config, log: seq<Change>): nat {
    if log == [] then 0
    else
      var front, c := log[..|log| - 1], log[|log| - 1];
      if c.Demoted? && c.byLoss then if JustBack(cfg, front, c.at) then Relapses(cfg, front) + 1 else 0
      else Relapses(cfg, front)
  }

  ghost predicate OutNow(log: seq<Change>) { log != [] && log[|log| - 1].Demoted? }

  ghost predicate OutByLoss(log: seq<Change>) { OutNow(log) && log[|log| - 1].byLoss }

  // ---------------------------------------------------------------- the fields follow the history

  /** `last` is the tick of the latest recovery from a loss demote, none when there was none. */
  ghost predicate LatestRecovery(log: seq<Change>, last: Option<nat>) {
    match last
    case None => forall j :: !LossRecovery(log, j)
    case Some(x) => (exists j :: LossRecovery(log, j) && log[j].at == x)
                    && forall j :: LossRecovery(log, j) ==> log[j].at <= x
  }

  /** The record is the one its EV's history calls for. */
  ghost predicate Follows(cfg: Config, r: Rec, log: seq<Change>, now: nat) {
    && (r.state == AssumedBad <==> OutNow(log))
    && (r.lossDemoted <==> OutByLoss(log))
    && LatestRecovery(log, r.lastLossRecover)
    && (forall j :: 0 <= j < |log| ==> log[j].at <= now)
    && r.level == Min(Relapses(cfg, log), cfg.backoffMaxLevel)
  }

  /** One more change at the end of a history. */
  lemma {:induction false} RecoveriesStep(log: seq<Change>, c: Change)
    ensures forall j :: LossRecovery(log + [c], j) <==>
      LossRecovery(log, j) || (j == |log| && c.Recovered? && OutByLoss(log))
  {
  }

  /** The level, mark and recovery tick a loss demote leaves, and what else may change them. */
  ghost predicate BackoffStep(cfg: Config, r: Rec, r': Rec, byLoss: bool, now: nat) {
    if r.state != AssumedBad && r'.state == AssumedBad then
      && r'.lossDemoted == byLoss && r'.lastLossRecover == r.lastLossRecover
      && r'.level ==
         if !byLoss then r.level
         else if r.lastLossRecover.Some? && now - r.lastLossRecover.value < cfg.backoffResetTicks
         then Min(r.level + 1, cfg.backoffMaxLevel) else 0
    else if r.state == AssumedBad && r'.state != AssumedBad then
      && !r'.lossDemoted && r'.level == r.level
      && r'.lastLossRecover == if r.lossDemoted then Some(now) else r.lastLossRecover
    else
      r'.lossDemoted == r.lossDemoted && r'.level == r.level && r'.lastLossRecover == r.lastLossRecover
  }

  lemma {:induction false} CellBackoff(cfg: Config, minActive: int, now: nat, r: Rec, u: int)
    requires r.state != AssumedBad ==> !r.lossDemoted
    ensures BackoffStep(cfg, r, Cell(cfg, minActive, now, r, u).0, false, now)
  {
  }

  lemma {:induction false} LossCellBackoff(
    cfg: Config, minActive: int, now: nat, r: Rec, u: int, seen: nat, expected: nat)
    requires r.state != AssumedBad ==> !r.lossDemoted
    ensures BackoffStep(cfg, r, LossCell(cfg, minActive, now, r, u, seen, expected), true, now)
  {
  }

  lemma {:induction false} StepBackoff(t: Table, e: Event, i: nat)
    requires i < |t.recs| && (t.recs[i].state != AssumedBad ==> !t.recs[i].lossDemoted)
    ensures BackoffStep(t.cfg, t.recs[i], Step(t, e).recs[i], e.Loss?, t.ticks + TicksOf(e))
  {
    var v := StepCell(t, e, i);
    match e
    case TickEvent => CellBackoff(t.cfg, t.minActive, t.ticks + 1, t.recs[i], v);
    case Loss(j, seen, expected) =>
      if j == i { LossCellBackoff(t.cfg, t.minActive, t.ticks, t.recs[i], v, seen, expected); }
    case _ =>
  }

  lemma {:induction false} TickFromTicks(t: Table, i: nat)
    requires i <= |t.recs|
    ensures TickFrom(t, i).ticks == t.ticks
    decreases |t.recs| - i
  {
    if i < |t.recs| { TickFromTicks(Evaluate(Put(t, i, Rotate(t.cfg, t.recs[i])), i), i + 1); }
  }

  lemma {:induction false} StepTicks(t: Table, e: Event)
    ensures Step(t, e).ticks == t.ticks + TicksOf(e)
  {
    if e == TickEvent { TickFromTicks(t.(ticks := t.ticks + 1), 0); }
  }

  /** A record that follows its history goes on following it. */
  lemma {:induction false} DemoteFollows(
    cfg: Config, r: Rec, r': Rec, log: seq<Change>, byLoss: bool, before: nat, now: nat)
    requires Follows(cfg, r, log, before) && before <= now && BackoffStep(cfg, r, r', byLoss, now)
    requires r.state != AssumedBad && r'.state == AssumedBad
    ensures Follows(cfg, r', log + [Demoted(byLoss, now)], now)
  {
    var c := Demoted(byLoss, now);
    RecoveriesStep(log, c);
    assert (log + [c])[..|log|] == log;
    RecentByField(cfg, log, r.lastLossRecover, now);
  }

  /** The recovery tick of the record decides whether the EV just came back. */
  lemma {:induction false} RecentByField(cfg: Config, log: seq<Change>, last: Option<nat>, now: nat)
    requires LatestRecovery(log, last)
    ensures JustBack(cfg, log, now) <==> last.Some? && now - last.value < cfg.backoffResetTicks
  {
  }

  lemma {:induction false} RecoverFollows(
    cfg: Config, r: Rec, r': Rec, log: seq<Change>, byLoss: bool, before: nat, now: nat)
    requires Follows(cfg, r, log, before) && before <= now && BackoffStep(cfg, r, r', byLoss, now)
    requires r.state == AssumedBad && r'.state != AssumedBad
    ensures Follows(cfg, r', log + [Recovered(now)], now)
  {
    var c := Recovered(now);
    RecoveriesStep(log, c);
    assert (log + [c])[..|log|] == log;
    if OutByLoss(log) {
      assert LossRecovery(log + [c], |log|);
    } else if r.lastLossRecover.Some? {
      var j :| LossRecovery(log, j) && log[j].at == r.lastLossRecover.value;
      assert LossRecovery(log + [c], j);
    }
  }

  lemma {:induction false} MarkedWhenOut(cfg: Config, r: Rec, log: seq<Change>, now: nat)
    requires Follows(cfg, r, log, now)
    ensures r.state != AssumedBad ==> !r.lossDemoted
  {
  }

  lemma {:induction false} LevelByHistory(cfg: Config, r: Rec, r': Rec, log: seq<Change>, now: nat)
    requires Follows(cfg, r, log, now) && BackoffStep(cfg, r, r', true, now)
    requires r.state != AssumedBad && r'.state == AssumedBad
    ensures r'.level == if JustBack(cfg, log, now) then Min(r.level + 1, cfg.backoffMaxLevel) else 0
  {
    RecentByField(cfg, log, r.lastLossRecover, now);
    hide JustBack, Relapses, LatestRecovery;
  }

  lemma {:induction false} LossDemoteOn(t: Table, i: nat, seen: nat, expected: nat, log: seq<Change>)
    requires i < |t.recs| && Follows(t.cfg, t.recs[i], log, t.ticks)
    requires t.recs[i].state != AssumedBad && Step(t, Loss(i, seen, expected)).recs[i].state == AssumedBad
    ensures Step(t, Loss(i, seen, expected)).recs[i].level ==
      if JustBack(t.cfg, log, t.ticks) then Min(t.recs[i].level + 1, t.cfg.backoffMaxLevel) else 0
  {
    var e := Loss(i, seen, expected);
    hide Step, JustBack, BackoffStep, Follows;
    MarkedWhenOut(t.cfg, t.recs[i], log, t.ticks);
    StepBackoff(t, e, i);
    LevelByHistory(t.cfg, t.recs[i], Step(t, e).recs[i], log, t.ticks);
  }

  lemma {:induction false} StepFollows(t: Table, e: Event, i: nat, log: seq<Change>)
    requires i < |t.recs| && Follows(t.cfg, t.recs[i], log, t.ticks)
    ensures Follows(t.cfg, Step(t, e).recs[i], log + ChangeBy(t, e, i, t.ticks + TicksOf(e)), Step(t, e).ticks)
  {
    hide Step, Follows, BackoffStep;
    MarkedWhenOut(t.cfg, t.recs[i], log, t.ticks);
    StepBackoff(t, e, i);
    StepTicks(t, e);
    var r, r', now := t.recs[i], Step(t, e).recs[i], t.ticks + TicksOf(e);
    if r.state != AssumedBad && r'.state == AssumedBad {
      DemoteFollows(t.cfg, r, r', log, e.Loss?, t.ticks, now);
    } else if r.state == AssumedBad && r'.state != AssumedBad {
      RecoverFollows(t.cfg, r, r', log, e.Loss?, t.ticks, now);
    } else {
      assert log + [] == log;
      NothingFollows(t.cfg, r, r', log, e.Loss?, t.ticks, now);
    }
  }

  lemma {:induction false} NothingFollows(
    cfg: Config, r: Rec, r': Rec, log: seq<Change>, byLoss: bool, before: nat, now: nat)
    requires Follows(cfg, r, log, before) && before <= now && BackoffStep(cfg, r, r', byLoss, now)
    requires r.state == AssumedBad <==> r'.state == AssumedBad
    ensures Follows(cfg, r', log, now)
  {
  }

  lemma {:induction false} RunFollows(t: Table, es: seq<Event>, i: nat, log: seq<Change>)
    requires i < |t.recs| && Follows(t.cfg, t.recs[i], log, t.ticks)
    ensures SameShape(t, Run(t, es)) && Run(t, es).ticks == t.ticks + Ticks(es)
    ensures Follows(t.cfg, Run(t, es).recs[i], Log(t, es, i, log, t.ticks), Run(t, es).ticks)
    decreases |es|
  {
    hide Step, Follows, ChangeBy;
    if es != [] {
      StepFollows(t, es[0], i, log);
      StepShape(t, es[0]);
      StepTicks(t, es[0]);
      RunFollows(Step(t, es[0]), es[1..], i, log + ChangeBy(t, es[0], i, t.ticks + TicksOf(es[0])));
    }
  }

  /** The whole history of EV `i` in a run from a fresh table. */
  ghost function ChangesIn(cfg: Config, planes: nat, paths: nat, es: seq<Event>, i: nat): seq<Change>
    requires i < planes * paths
  {
    Log(Init(cfg, planes, paths), es, i, [], 0)
  }

  lemma {:induction false} InitFollows(cfg: Config, planes: nat, paths: nat, es: seq<Event>, i: nat)
    requires i < planes * paths
    ensures var t := Run(Init(cfg, planes, paths), es);
      && t.cfg == cfg && |t.recs| == planes * paths && t.ticks == Ticks(es)
      && Follows(cfg, t.recs[i], ChangesIn(cfg, planes, paths, es, i), Ticks(es))
  {
    var t := Init(cfg, planes, paths);
    assert forall j :: !LossRecovery([], j);
    RunFollows(t, es, i, []);
  }

  // ---------------------------------------------------------------- the theorems

  /**
    Over every run from a fresh table, an EV's backoff level is the number of its relapses in a row,
    capped: loss demotes each of which came fewer than `backoffResetTicks` ticks after the EV was back
    from an earlier one.  While the EV is out its hold is `recoverTicks << min(relapses, cap)` if loss
    took it out, and `recoverTicks` if probes did.
   */
  lemma {:induction false} LevelCountsRelapses(cfg: Config, planes: nat, paths: nat, es: seq<Event>, i: nat)
    requires i < planes * paths
    ensures var r, log := Run(Init(cfg, planes, paths), es).recs[i], ChangesIn(cfg, planes, paths, es, i);
      && r.level == Min(Relapses(cfg, log), cfg.backoffMaxLevel)
      && (r.state == AssumedBad <==> OutNow(log))
      && (OutByLoss(log) ==>
            Hold(cfg, r) == cfg.recoverTicks * Pow2(Min(Relapses(cfg, log), cfg.backoffMaxLevel)))
      && (OutNow(log) && !OutByLoss(log) ==> Hold(cfg, r) == cfg.recoverTicks)
  {
    InitFollows(cfg, planes, paths, es, i);
  }

  /**
    At a loss demote the new level is one more, capped, if the EV's last recovery from a loss demote
    in the run is fewer than `backoffResetTicks` ticks back, and zero if it is not or there was none.
   */
  lemma {:induction false} LossDemoteLevel(
    cfg: Config, planes: nat, paths: nat, es: seq<Event>, i: nat, seen: nat, expected: nat)
    requires i < planes * paths
    requires var t := Run(Init(cfg, planes, paths), es);
      t.recs[i].state != AssumedBad && Step(t, Loss(i, seen, expected)).recs[i].state == AssumedBad
    ensures var t := Run(Init(cfg, planes, paths), es);
      Step(t, Loss(i, seen, expected)).recs[i].level ==
        if JustBack(cfg, ChangesIn(cfg, planes, paths, es, i), Ticks(es))
        then Min(t.recs[i].level + 1, cfg.backoffMaxLevel) else 0
  {
    hide *;
    InitFollows(cfg, planes, paths, es, i);
    LossDemoteOn(Run(Init(cfg, planes, paths), es), i, seen, expected, ChangesIn(cfg, planes, paths, es, i));
  }

  /** EV `i` gets healthy signals only, for a window and `hold` ticks, under ratios that can be met. */
  ghost predicate EnoughHealth(cfg: Config, t: Table, later: seq<Event>, i: nat, hold: int)
    requires i < |t.recs|
  {
    && cfg.windowTicks >= 1 && cfg.failRatio <= 1.0 && cfg.recoverRatio <= 1.0
    && HealthyRun(t, later, i) && Ticks(later) >= cfg.windowTicks - 1 + Max(1, hold)
  }

  /**
    The exponential hold.  When a loss window takes an EV out for the k-th time in such a row, the EV
    stays out while fewer than `recoverTicks << min(k, cap)` ticks have passed, whatever happens, and
    is GOOD after that many healthy ticks (one at least) and a window's worth before them.
   */
  lemma {:induction false} RelapseHolds(
    cfg: Config, planes: nat, paths: nat, es: seq<Event>, i: nat, seen: nat, expected: nat, later: seq<Event>)
    requires planes >= 1 && paths >= 1 && i < planes * paths
    requires var t := Run(Init(cfg, planes, paths), es);
      t.recs[i].state != AssumedBad && Step(t, Loss(i, seen, expected)).recs[i].state == AssumedBad
    ensures var t := Step(Run(Init(cfg, planes, paths), es), Loss(i, seen, expected));
      var k := Relapses(cfg, ChangesIn(cfg, planes, paths, es + [Loss(i, seen, expected)], i));
      var hold := cfg.recoverTicks * Pow2(Min(k, cfg.backoffMaxLevel));
      && |Run(t, later).recs| == |t.recs|
      && (Ticks(later) < hold ==> Run(t, later).recs[i].state == AssumedBad)
      && (EnoughHealth(cfg, t, later, i, hold) ==> Run(t, later).recs[i].state == Good)
  {
    var e, start := Loss(i, seen, expected), Init(cfg, planes, paths);
    var before := Run(start, es);
    var t := Step(before, e);
    InitInv(cfg, planes, paths);
    RunInv(start, es);
    StepInv(before, e);
    DemoteClearsEvidence(before, e, i);
    LevelMovesOnlyOnLossDemote(before, e, i);
    RunSnoc(start, es, e);
    LevelCountsRelapses(cfg, planes, paths, es + [e], i);
    hide Run, Step, Init, HealthyRun, ChangesIn, Hold;
    var hold := Hold(cfg, t.recs[i]);
    if Ticks(later) < hold { NoEarlyRecovery(t, later, i, 0); }
    if EnoughHealth(cfg, t, later, i, hold) { BoundedRecovery(t, later, i); }
  }

  /** A first fault, a recovery and a fault within the reset time: no relapse, then one. */
  lemma {:induction false} FirstFaultThenRelapse(cfg: Config, a: nat, b: nat, c: nat)
    requires a <= b <= c
    ensures var first := [Demoted(true, a)]; var both := first + [Recovered(b), Demoted(true, c)];
      && Relapses(cfg, first) == 0
      && Relapses(cfg, both) == if c - b < cfg.backoffResetTicks then 1 else 0
  {
    var first, back := [Demoted(true, a)], [Demoted(true, a), Recovered(b)];
    var both := first + [Recovered(b), Demoted(true, c)];
    assert first[..0] == [] && back[..1] == first && both[..2] == back;
    assert LossRecovery(back, 1);
    assert Relapses(cfg, first) == 0;
    assert Relapses(cfg, back) == 0;
  }
}
