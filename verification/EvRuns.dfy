/**
  Theorems about whole runs of one EV: its probe window is exactly the recent history, a demoted EV
  whose probes are healthy is back in bounded time whatever the other EVs do, and the loss backoff
  level moves only as the loss path moves it.
 */
module EvRuns {
  import opened Arith
  import opened Wrappers
  import opened EvState
  import opened EvInvariant

  // ---------------------------------------------------------------- one EV through one event

  lemma {:induction false} FoldCellAt(cfg: Config, minActive: int, now: nat, rs: seq<Rec>, u: int, i: nat)
    returns (v: int)
    requires i < |rs|
    ensures FoldCells(cfg, minActive, now, rs, u)[i] == Cell(cfg, minActive, now, rs[i], v).0
  {
    if i == 0 {
      v := u;
    } else {
      v := FoldCellAt(cfg, minActive, now, rs[1..], Cell(cfg, minActive, now, rs[0], u).1, i - 1);
    }
  }

  lemma {:induction false} TickCell(t: Table, i: nat) returns (v: int)
    requires i < |t.recs|
    ensures Tick(t).recs[i] == Cell(t.cfg, t.minActive, t.ticks + 1, t.recs[i], v).0
  {
    TickIsOnePass(t);
    v := FoldCellAt(t.cfg, t.minActive, t.ticks + 1, t.recs, Usable(t.recs), i);
  }

  /** One record's share of a loss window, when `u` EVs are usable. */
  function LossCell(cfg: Config, minActive: int, now: nat, r: Rec, u: int, seen: nat, expected: nat): Rec {
    if expected == 0 then r
    else
      var ratio := LossRatio(seen, expected);
      var r0 := r.(lastLossRatio := ratio);
      if ratio > cfg.lossThreshold then
        var r1 := r0.(lossStreak := r0.lossStreak + 1);
        if r1.state != AssumedBad && r1.lossStreak >= cfg.lossDemoteConsecutive then
          if u - 1 < minActive then r1.(suppressed := r1.suppressed + 1)
          else Entered(r1.(level := DemoteLevel(cfg, r1, true, now), lossDemoted := true), AssumedBad, now)
        else r1
      else if ratio <= cfg.lossThreshold / 2.0 then r0.(lossStreak := 0)
      else r0
  }

  /** What one event does to the record of EV `i`, given a number `v` of usable EVs. */
  function RecStep(cfg: Config, minActive: int, ticks: nat, r: Rec, e: Event, i: nat, v: int): Rec {
    match e
    case TickEvent => Cell(cfg, minActive, ticks + 1, r, v).0
    case ProbeSent(j) =>
      if j != i then r
      else r.(current := r.current.(sent := r.current.sent + 1), total := r.total.(sent := r.total.sent + 1))
    case ProbeRecv(j) =>
      if j != i then r
      else r.(current := r.current.(recv := r.current.recv + 1), total := r.total.(recv := r.total.recv + 1))
    case Loss(j, seen, expected) =>
      if j != i then r else LossCell(cfg, minActive, ticks, r, v, seen, expected)
  }

  lemma {:induction false} LossWindowCell(t: Table, i: nat, seen: nat, expected: nat)
    requires i < |t.recs|
    ensures LossWindow(t, i, seen, expected).recs ==
      t.recs[i := LossCell(t.cfg, t.minActive, t.ticks, t.recs[i], Usable(t.recs), seen, expected)]
  {
    if expected > 0 && LossRatio(seen, expected) > t.cfg.lossThreshold {
      var r := t.recs[i].(lastLossRatio := LossRatio(seen, expected));
      var r1 := r.(lossStreak := r.lossStreak + 1);
      UsableUpdate(t.recs, i, r1);
      if r1.state != AssumedBad { TryDemoteRecs(Put(t, i, r1), i, true); }
    }
  }

  /** No event changes the table's shape or configuration. */
  lemma {:induction false} StepShape(t: Table, e: Event)
    ensures SameShape(t, Step(t, e)) && (Shaped(t) ==> Shaped(Step(t, e)))
  {
    if e == TickEvent { TickFromShape(t.(ticks := t.ticks + 1), 0); }
  }

  lemma {:induction false} TickFromShape(t: Table, i: nat)
    requires i <= |t.recs|
    ensures SameShape(t, TickFrom(t, i))
    decreases |t.recs| - i
  {
    if i < |t.recs| { TickFromShape(Evaluate(Put(t, i, Rotate(t.cfg, t.recs[i])), i), i + 1); }
  }

  /** Every event treats EV `i` as RecStep does: the rest of the table is one number to it. */
  lemma {:induction false} StepCell(t: Table, e: Event, i: nat) returns (v: int)
    requires i < |t.recs|
    ensures Step(t, e).recs[i] == RecStep(t.cfg, t.minActive, t.ticks, t.recs[i], e, i, v)
    ensures e.Loss? ==> v == Usable(t.recs)
  {
    hide Cell, LossCell, Usable, Tick, LossWindow;
    v := Usable(t.recs);
    match e
    case TickEvent => v := TickCell(t, i);
    case ProbeSent(j) =>
    case ProbeRecv(j) =>
    case Loss(j, seen, expected) => if j < |t.recs| { LossWindowCell(t, j, seen, expected); }
  }

  lemma {:induction false} RunSnoc(t: Table, es: seq<Event>, e: Event)
    ensures Run(t, es + [e]) == Step(Run(t, es), e)
    decreases |es|
  {
    hide Step;
    if es == [] {
      assert ([] + [e])[1..] == [];
    } else {
      assert (es + [e])[1..] == es[1..] + [e];
      RunSnoc(Step(t, es[0]), es[1..], e);
    }
  }

  // ---------------------------------------------------------------- the window is the history

  /** The bucket in progress for EV `i` after `e`. */
  function NextCurrent(e: Event, i: nat, cur: Bucket): Bucket {
    match e
    case TickEvent => Bucket(0, 0)
    case ProbeSent(j) => if j == i then cur.(sent := cur.sent + 1) else cur
    case ProbeRecv(j) => if j == i then cur.(recv := cur.recv + 1) else cur
    case Loss(_, _, _) => cur
  }

  /** The buckets EV `i` closes during `es`, when `cur` is in progress at the start. */
  function History(es: seq<Event>, i: nat, cur: Bucket): seq<Bucket>
    decreases |es|
  {
    if es == [] then []
    else (if es[0] == TickEvent then [cur] else []) + History(es[1..], i, NextCurrent(es[0], i, cur))
  }

  function CountSent(es: seq<Event>, i: nat): nat
    decreases |es|
  {
    if es == [] then 0 else (if es[0] == ProbeSent(i) then 1 else 0) + CountSent(es[1..], i)
  }

  function CountRecv(es: seq<Event>, i: nat): nat
    decreases |es|
  {
    if es == [] then 0 else (if es[0] == ProbeRecv(i) then 1 else 0) + CountRecv(es[1..], i)
  }

  lemma {:induction false} LastNAppend<T>(a: seq<T>, b: seq<T>, n: nat)
    ensures LastN(LastN(a, n) + b, n) == LastN(a + b, n)
  {
  }

  /** What one event does to the probe counters of EV `i`. */
  lemma {:induction false} StepCounters(t: Table, e: Event, i: nat)
    requires i < |t.recs|
    ensures var r, r' := t.recs[i], Step(t, e).recs[i];
      && r'.buckets == (if e == TickEvent then Push(r.buckets, r.current, t.cfg.windowTicks) else r.buckets)
      && r'.current == NextCurrent(e, i, r.current)
      && r'.total.sent == r.total.sent + (if e == ProbeSent(i) then 1 else 0)
      && r'.total.recv == r.total.recv + (if e == ProbeRecv(i) then 1 else 0)
  {
    var v := StepCell(t, e, i);
    hide Step, CellOn, LossCell, SumSent, SumRecv;
    match e
    case TickEvent =>
      var r0 := Rotate(t.cfg, t.recs[i]);
      CellKeepsCounters(t.cfg, t.minActive, t.ticks + 1, r0, SumSent(r0.buckets), SumRecv(r0.buckets), v);
    case Loss(_, seen, expected) =>
      LossKeepsCounters(t.cfg, t.minActive, t.ticks, t.recs[i], v, seen, expected);
    case _ =>
  }

  lemma {:induction false} LossKeepsCounters(
    cfg: Config, minActive: int, now: nat, r: Rec, u: int, seen: nat, expected: nat)
    ensures var r' := LossCell(cfg, minActive, now, r, u, seen, expected);
      r'.buckets == r.buckets && r'.current == r.current && r'.total == r.total
  {
  }

  lemma {:induction false} CellKeepsCounters(
    cfg: Config, minActive: int, now: nat, r: Rec, sent: nat, recv: nat, u: int)
    ensures var r' := CellOn(cfg, minActive, now, r, sent, recv, u).0;
      r'.buckets == r.buckets && r'.current == r.current && r'.total == r.total
  {
  }

  /** One more event at the front of the history. */
  lemma {:induction false} WindowStep(b: seq<Bucket>, cur: Bucket, closes: bool, rest: seq<Bucket>, w: nat)
    requires |b| <= w
    ensures LastN((if closes then Push(b, cur, w) else b) + rest, w) ==
            LastN(b + ((if closes then [cur] else []) + rest), w)
  {
    if closes {
      LastNAppend(b + [cur], rest, w);
      assert b + [cur] + rest == b + ([cur] + rest);
    } else {
      assert [] + rest == rest;
    }
  }

  lemma {:induction false} WindowFrom(t: Table, es: seq<Event>, i: nat)
    requires Inv(t) && i < |t.recs|
    ensures SameShape(t, Run(t, es))
    ensures var r, r' := t.recs[i], Run(t, es).recs[i];
      && r'.buckets == LastN(r.buckets + History(es, i, r.current), t.cfg.windowTicks)
      && r'.total == Bucket(r.total.sent + CountSent(es, i), r.total.recv + CountRecv(es, i))
    decreases |es|
  {
    var r := t.recs[i];
    if es == [] {
      assert r.buckets + [] == r.buckets;
    } else {
      StepInv(t, es[0]);
      StepCounters(t, es[0], i);
      WindowFrom(Step(t, es[0]), es[1..], i);
      WindowStep(r.buckets, r.current, es[0] == TickEvent,
        History(es[1..], i, NextCurrent(es[0], i, r.current)), t.cfg.windowTicks);
    }
  }

  /**
    Over every run from a fresh table, an EV's window holds exactly the last `windowTicks` ticks'
    (sent, recv) counts, and its lifetime totals are the numbers of probe events.
   */
  lemma {:induction false} WindowIsRecentHistory(cfg: Config, planes: nat, paths: nat, es: seq<Event>, i: nat)
    requires planes >= 1 && paths >= 1 && i < planes * paths
    ensures var r := Run(Init(cfg, planes, paths), es).recs[i];
      && r.buckets == LastN(History(es, i, Bucket(0, 0)), cfg.windowTicks)
      && r.total == Bucket(CountSent(es, i), CountRecv(es, i))
  {
    InitInv(cfg, planes, paths);
    WindowFrom(Init(cfg, planes, paths), es, i);
    assert [] + History(es, i, Bucket(0, 0)) == History(es, i, Bucket(0, 0));
  }

  // ---------------------------------------------------------------- bounded recovery

  function Ticks(es: seq<Event>): nat
    decreases |es|
  {
    if es == [] then 0 else (if es[0] == TickEvent then 1 else 0) + Ticks(es[1..])
  }

  /**
    The signals EV `i` gets are healthy: every tick closes a bucket with recv >= sent on a window
    with enough samples, and no loss window of this EV exceeds the threshold.  Nothing is asked of
    the other EVs.
   */
  ghost predicate HealthySignal(t: Table, e: Event, i: nat)
    requires i < |t.recs|
  {
    match e
    case TickEvent =>
      && t.recs[i].current.recv >= t.recs[i].current.sent
      && SumSent(Rotate(t.cfg, t.recs[i]).buckets) >= Max(1, t.cfg.minSamples)
    case Loss(j, seen, expected) =>
      j == i && expected > 0 ==> LossRatio(seen, expected) <= t.cfg.lossThreshold
    case _ => true
  }

  ghost predicate HealthyRun(t: Table, es: seq<Event>, i: nat)
    requires i < |t.recs|
    decreases |es|
  {
    es == [] || (HealthySignal(t, es[0], i) && HealthyRun(Step(t, es[0]), es[1..], i))
  }

  /** After `n` healthy ticks; `hold` bounds the recovery hold from the start. */
  ghost predicate Recovering(cfg: Config, r: Rec, n: nat, hold: int) {
    && r.lossStreak == 0
    && cfg.recoverTicks <= hold && Hold(cfg, r) <= hold
    && |r.buckets| <= cfg.windowTicks
    && (forall j :: 0 <= j < |r.buckets| && j >= |r.buckets| - n ==> r.buckets[j].recv >= r.buckets[j].sent)
    && (n >= cfg.windowTicks - 1 ==>
          r.state == Good || n - (cfg.windowTicks - 1) <= r.healthy)
    && (n >= cfg.windowTicks - 1 + hold ==> r.state == Good)
  }

  lemma {:induction false} SumsOrdered(b: seq<Bucket>)
    requires forall j :: 0 <= j < |b| ==> b[j].recv >= b[j].sent
    ensures SumRecv(b) >= SumSent(b)
  {
    if b != [] { SumsOrdered(b[1..]); }
  }

  /** A healthy evaluation: the healthy streak grows by one or the EV is GOOD. */
  lemma {:induction false} HealthyCell(cfg: Config, minActive: int, now: nat, r: Rec, sent: nat, recv: nat, u: int)
    requires cfg.failRatio <= 1.0 && cfg.recoverRatio <= 1.0
    requires sent >= Max(1, cfg.minSamples) && recv >= sent && r.lossStreak == 0
    ensures var r' := CellOn(cfg, minActive, now, r, sent, recv, u).0;
      && r'.lossStreak == 0 && r'.level == r.level
      && (r.state == Good ==> r'.state == Good)
      && (r'.state == Good || (r'.healthy == r.healthy + 1 && r'.healthy < Hold(cfg, r)))
      && Hold(cfg, r') <= Max(Hold(cfg, r), cfg.recoverTicks)
  {
    assert ProbeRatio(sent, recv) == 1.0;
  }

  /** Any evaluation of an EV without loss streak: no streak appears and the hold cannot grow. */
  lemma {:induction false} AnyCell(cfg: Config, minActive: int, now: nat, r: Rec, sent: nat, recv: nat, u: int)
    requires r.lossStreak == 0
    ensures var r' := CellOn(cfg, minActive, now, r, sent, recv, u).0;
      r'.lossStreak == 0 && Hold(cfg, r') <= Max(Hold(cfg, r), cfg.recoverTicks)
  {
  }

  lemma {:induction false} RecoveringTick(cfg: Config, minActive: int, now: nat, r: Rec, u: int, n: nat, hold: int)
    requires cfg.windowTicks >= 1 && cfg.failRatio <= 1.0 && cfg.recoverRatio <= 1.0 && hold >= 1
    requires Recovering(cfg, r, n, hold)
    requires r.current.recv >= r.current.sent
    requires SumSent(Rotate(cfg, r).buckets) >= Max(1, cfg.minSamples)
    ensures Recovering(cfg, Cell(cfg, minActive, now, r, u).0, n + 1, hold)
  {
    var r0 := Rotate(cfg, r);
    var sent, recv := SumSent(r0.buckets), SumRecv(r0.buckets);
    CellKeepsCounters(cfg, minActive, now, r0, sent, recv, u);
    AnyCell(cfg, minActive, now, r0, sent, recv, u);
    if n + 1 >= cfg.windowTicks {
      SumsOrdered(r0.buckets);
      HealthyCell(cfg, minActive, now, r0, sent, recv, u);
    }
  }

  lemma {:induction false} RecoveringStep(t: Table, e: Event, i: nat, n: nat, hold: int)
    requires Inv(t) && i < |t.recs|
    requires t.cfg.windowTicks >= 1 && t.cfg.failRatio <= 1.0 && t.cfg.recoverRatio <= 1.0 && hold >= 1
    requires Recovering(t.cfg, t.recs[i], n, hold) && HealthySignal(t, e, i)
    ensures Recovering(t.cfg, Step(t, e).recs[i], if e == TickEvent then n + 1 else n, hold)
  {
    var v := StepCell(t, e, i);
    hide Step, Cell, Rotate, SumSent, Inv;
    if e == TickEvent {
      RecoveringTick(t.cfg, t.minActive, t.ticks + 1, t.recs[i], v, n, hold);
    }
  }

  lemma {:induction false} RecoveringRun(t: Table, es: seq<Event>, i: nat, n: nat, hold: int)
    requires Inv(t) && i < |t.recs|
    requires t.cfg.windowTicks >= 1 && t.cfg.failRatio <= 1.0 && t.cfg.recoverRatio <= 1.0 && hold >= 1
    requires Recovering(t.cfg, t.recs[i], n, hold) && HealthyRun(t, es, i)
    ensures SameShape(t, Run(t, es))
    ensures Recovering(t.cfg, Run(t, es).recs[i], n + Ticks(es), hold)
    decreases |es|
  {
    if es != [] {
      StepInv(t, es[0]);
      RecoveringStep(t, es[0], i, n, hold);
      RecoveringRun(Step(t, es[0]), es[1..], i, if es[0] == TickEvent then n + 1 else n, hold);
    }
  }

  lemma {:induction false} HoldAtLeastBase(cfg: Config, r: Rec)
    ensures Max(1, Hold(cfg, r)) >= cfg.recoverTicks
  {
    if cfg.recoverTicks > 0 {
      assert cfg.recoverTicks * Pow2(r.level) >= cfg.recoverTicks * 1;
    }
  }

  /**
    Bounded recovery.  From any state in which EV `i` has no loss streak (a demote leaves none, see
    DemoteClearsEvidence), once at least (windowTicks - 1) + hold of its ticks are healthy it is
    GOOD, and stays so, whatever the other EVs do.  `hold` is the hold in force at the start:
    recoverTicks << level after a loss demote, recoverTicks otherwise, and never below one tick.
   */
  lemma {:induction false} BoundedRecovery(t: Table, es: seq<Event>, i: nat)
    requires Inv(t) && i < |t.recs| && t.recs[i].lossStreak == 0
    requires t.cfg.windowTicks >= 1 && t.cfg.failRatio <= 1.0 && t.cfg.recoverRatio <= 1.0
    requires HealthyRun(t, es, i)
    requires Ticks(es) >= t.cfg.windowTicks - 1 + Max(1, Hold(t.cfg, t.recs[i]))
    ensures |Run(t, es).recs| == |t.recs| && Run(t, es).recs[i].state == Good
  {
    var hold := Max(1, Hold(t.cfg, t.recs[i]));
    HoldAtLeastBase(t.cfg, t.recs[i]);
    assert Recovering(t.cfg, t.recs[i], 0, hold);
    RecoveringRun(t, es, i, 0, hold);
  }

  /** No hold of any reachable state is longer than the base hold shifted by the level cap. */
  lemma {:induction false} HoldIsCapped(cfg: Config, planes: nat, paths: nat, es: seq<Event>, i: nat)
    requires planes >= 1 && paths >= 1 && i < planes * paths && cfg.recoverTicks >= 0
    ensures var r := Run(Init(cfg, planes, paths), es).recs[i];
      && r.level <= cfg.backoffMaxLevel
      && cfg.recoverTicks <= Hold(cfg, r) <= cfg.recoverTicks * Pow2(cfg.backoffMaxLevel)
  {
    InitInv(cfg, planes, paths);
    RunInv(Init(cfg, planes, paths), es);
    var r := Run(Init(cfg, planes, paths), es).recs[i];
    Pow2Monotone(r.level, cfg.backoffMaxLevel);
    Pow2Monotone(0, r.level);
    MulMonotone(cfg.recoverTicks, Pow2(0), Pow2(r.level));
    MulMonotone(cfg.recoverTicks, Pow2(r.level), Pow2(cfg.backoffMaxLevel));
  }

  lemma {:induction false} MulMonotone(k: int, a: int, b: int)
    requires k >= 0 && a <= b
    ensures k * a <= k * b
  {
  }

  // ---------------------------------------------------------------- no early recovery

  /** An EV that is out and has at most `n` healthy evaluations behind it. */
  ghost predicate KeptOut(r: Rec, n: nat) { r.state == AssumedBad && r.healthy <= n }

  lemma {:induction false} KeptOutStep(
    cfg: Config, minActive: int, ticks: nat, r: Rec, e: Event, i: nat, v: int, n: nat)
    requires KeptOut(r, n) && (e == TickEvent ==> n + 1 < Hold(cfg, r))
    ensures var r' := RecStep(cfg, minActive, ticks, r, e, i, v);
      KeptOut(r', if e == TickEvent then n + 1 else n) && Hold(cfg, r') == Hold(cfg, r)
  {
  }

  /**
    No early recovery.  An EV that is ASSUMED_BAD with at most `n` healthy evaluations stays so while
    fewer ticks than its hold have passed, whatever the events: probes cannot buy back a path before
    recoverTicks << level ticks after a loss demote.
   */
  lemma {:induction false} NoEarlyRecovery(t: Table, es: seq<Event>, i: nat, n: nat)
    requires i < |t.recs| && KeptOut(t.recs[i], n) && n + Ticks(es) < Hold(t.cfg, t.recs[i])
    ensures |Run(t, es).recs| == |t.recs| && Run(t, es).recs[i].state == AssumedBad
    decreases |es|
  {
    if es != [] {
      var v := StepCell(t, es[0], i);
      KeptOutStep(t.cfg, t.minActive, t.ticks, t.recs[i], es[0], i, v, n);
      StepShape(t, es[0]);
      hide Step, RecStep, Hold;
      NoEarlyRecovery(Step(t, es[0]), es[1..], i, if es[0] == TickEvent then n + 1 else n);
    }
  }

  // ---------------------------------------------------------------- demotes and the backoff level

  /** Any event that demotes EV `i` leaves it with no healthy streak and no loss streak. */
  lemma {:induction false} DemoteClearsEvidence(t: Table, e: Event, i: nat)
    requires Inv(t) && i < |t.recs|
    requires t.recs[i].state != AssumedBad && Step(t, e).recs[i].state == AssumedBad
    ensures Step(t, e).recs[i].healthy == 0 && Step(t, e).recs[i].lossStreak == 0
  {
    var v := StepCell(t, e, i);
    if e == TickEvent {
      var r0 := Rotate(t.cfg, t.recs[i]);
      CellDemotes(t.cfg, t.minActive, t.ticks + 1, r0, SumSent(r0.buckets), SumRecv(r0.buckets), v);
    }
  }

  lemma {:induction false} CellDemotes(
    cfg: Config, minActive: int, now: nat, r: Rec, sent: nat, recv: nat, u: int)
    ensures var r' := CellOn(cfg, minActive, now, r, sent, recv, u).0;
      && r'.level == r.level
      && (r.state != AssumedBad && r'.state == AssumedBad ==>
            r'.healthy == 0 && r'.lossStreak == 0 && !r'.lossDemoted)
  {
  }

  lemma {:induction false} LossCellLevel(
    cfg: Config, minActive: int, now: nat, r: Rec, u: int, seen: nat, expected: nat)
    requires r.level <= cfg.backoffMaxLevel
    ensures var r' := LossCell(cfg, minActive, now, r, u, seen, expected);
      && (r'.level != r.level ==> r.state != AssumedBad && r'.state == AssumedBad)
      && (r'.level == 0 || r'.level == r.level || r'.level == r.level + 1)
      && r'.level <= cfg.backoffMaxLevel
      && (r.state != AssumedBad && r'.state == AssumedBad ==> r'.lossDemoted)
  {
  }

  /** How event `e` of EV `i`'s table may move its backoff level from record `r` to `r'`. */
  ghost predicate LevelRule(cfg: Config, r: Rec, r': Rec, e: Event, i: nat) {
    var demoted := r.state != AssumedBad && r'.state == AssumedBad;
    && (r'.level != r.level ==> e.Loss? && e.ev == i && demoted)
    && (r'.level == 0 || r'.level == r.level || r'.level == r.level + 1)
    && r'.level <= cfg.backoffMaxLevel
    && (e == TickEvent && demoted ==> !r'.lossDemoted && Hold(cfg, r') == cfg.recoverTicks)
    && (e.Loss? && demoted ==> r'.lossDemoted && Hold(cfg, r') == cfg.recoverTicks * Pow2(r'.level))
  }

  /**
    The backoff level of EV `i` changes only when a loss window demotes it, then by at most one
    step up (or back to zero); a probe demote keeps the level but clears the mark, so its recovery
    uses the base hold.
   */
  lemma {:induction false} LevelMovesOnlyOnLossDemote(t: Table, e: Event, i: nat)
    requires Inv(t) && i < |t.recs|
    ensures LevelRule(t.cfg, t.recs[i], Step(t, e).recs[i], e, i)
  {
    var v := StepCell(t, e, i);
    LevelOfRecStep(t.cfg, t.minActive, t.ticks, t.recs[i], e, i, v);
  }

  lemma {:induction false} LevelOfRecStep(
    cfg: Config, minActive: int, ticks: nat, r: Rec, e: Event, i: nat, v: int)
    requires RecOk(cfg, r)
    ensures LevelRule(cfg, r, RecStep(cfg, minActive, ticks, r, e, i, v), e, i)
  {
    match e
    case TickEvent =>
      var r0 := Rotate(cfg, r);
      CellDemotes(cfg, minActive, ticks + 1, r0, SumSent(r0.buckets), SumRecv(r0.buckets), v);
    case Loss(j, seen, expected) =>
      if j == i { LossCellLevel(cfg, minActive, ticks, r, v, seen, expected); }
    case ProbeSent(_) =>
    case ProbeRecv(_) =>
  }
}
