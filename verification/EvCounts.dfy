/**
  What a tick decides about one EV, from the probe events of the run alone: its window holds the probes
  of the last `windowTicks` ticks, and the ratio of those that came back takes it out or brings it in.
 */
module EvCounts {
  import opened Arith
  import opened Wrappers
  import opened EvState
  import opened EvInvariant
  import opened EvRuns

  /** The events of the last `n` closed ticks and of the one in progress. */
  function Since(es: seq<Event>, n: nat): seq<Event> {
    if es == [] then []
    else
      var front, e := es[..|es| - 1], es[|es| - 1];
      if e != TickEvent then Since(front, n) + [e]
      else if n == 0 then [] else Since(front, n - 1) + [e]
  }

  lemma {:induction false} CountSnoc(es: seq<Event>, e: Event, i: nat)
    ensures CountSent(es + [e], i) == CountSent(es, i) + (if e == ProbeSent(i) then 1 else 0)
    ensures CountRecv(es + [e], i) == CountRecv(es, i) + (if e == ProbeRecv(i) then 1 else 0)
    decreases |es|
  {
    if es == [] {
      assert ([] + [e])[1..] == [];
    } else {
      assert (es + [e])[1..] == es[1..] + [e];
      CountSnoc(es[1..], e, i);
    }
  }

  lemma {:induction false} SumsSnoc(b: seq<Bucket>, x: Bucket)
    ensures SumSent(b + [x]) == SumSent(b) + x.sent && SumRecv(b + [x]) == SumRecv(b) + x.recv
  {
    if b == [] {
      assert ([] + [x])[1..] == [];
    } else {
      assert (b + [x])[1..] == b[1..] + [x];
      SumsSnoc(b[1..], x);
    }
  }

  /** The counts of the `n` newest buckets and the one in progress. */
  ghost predicate Counts(r: Rec, n: nat, es: seq<Event>, i: nat) {
    && SumSent(LastN(r.buckets, n)) + r.current.sent == CountSent(Since(es, n), i)
    && SumRecv(LastN(r.buckets, n)) + r.current.recv == CountRecv(Since(es, n), i)
  }

  lemma {:induction false} NoBuckets(b: seq<Bucket>)
    ensures SumSent(LastN(b, 0)) == 0 && SumRecv(LastN(b, 0)) == 0
  {
    assert LastN(b, 0) == [];
  }

  /** Closing the bucket in progress. */
  lemma {:induction false} TickCounts(r: Rec, r': Rec, w: nat, n: nat, es: seq<Event>, i: nat)
    requires n <= w && r'.buckets == Push(r.buckets, r.current, w) && r'.current == Bucket(0, 0)
    requires n > 0 ==> Counts(r, n - 1, es, i)
    ensures Counts(r', n, es + [TickEvent], i)
  {
    assert (es + [TickEvent])[..|es|] == es;
    if n == 0 {
      NoBuckets(r'.buckets);
    } else {
      assert LastN(r'.buckets, n) == LastN(r.buckets, n - 1) + [r.current];
      SumsSnoc(LastN(r.buckets, n - 1), r.current);
      CountSnoc(Since(es, n - 1), TickEvent, i);
    }
  }

  /** A probe event, or one of another kind, in the bucket in progress. */
  lemma {:induction false} EventCounts(r: Rec, r': Rec, n: nat, es: seq<Event>, e: Event, i: nat)
    requires e != TickEvent && r'.buckets == r.buckets && r'.current == NextCurrent(e, i, r.current)
    requires Counts(r, n, es, i)
    ensures Counts(r', n, es + [e], i)
  {
    assert (es + [e])[..|es|] == es;
    CountSnoc(Since(es, n), e, i);
  }

  lemma {:induction false} RunCounts(cfg: Config, planes: nat, paths: nat, es: seq<Event>, i: nat, n: nat)
    requires i < planes * paths && n <= cfg.windowTicks
    ensures SameShape(Init(cfg, planes, paths), Run(Init(cfg, planes, paths), es))
    ensures Counts(Run(Init(cfg, planes, paths), es).recs[i], n, es, i)
  {
    var start := Init(cfg, planes, paths);
    if es == [] {
      assert LastN(FRESH.buckets, n) == [];
    } else {
      var front, e := es[..|es| - 1], es[|es| - 1];
      assert es == front + [e];
      RunSnoc(start, front, e);
      var t := Run(start, front);
      RunCounts(cfg, planes, paths, front, i, n);
      StepShape(t, e);
      StepCounters(t, e, i);
      hide Run, Step, Counts;
      if e == TickEvent {
        if n > 0 { RunCounts(cfg, planes, paths, front, i, n - 1); }
        TickCounts(t.recs[i], Step(t, e).recs[i], cfg.windowTicks, n, front, i);
      } else {
        EventCounts(t.recs[i], Step(t, e).recs[i], n, front, e, i);
      }
    }
  }

  /** The window a tick evaluates holds the probes sent and received in the last `windowTicks` ticks. */
  lemma {:induction false} WindowSums(cfg: Config, planes: nat, paths: nat, es: seq<Event>, i: nat)
    requires i < planes * paths
    ensures var b := Rotate(cfg, Run(Init(cfg, planes, paths), es).recs[i]).buckets;
      var recent := Since(es + [TickEvent], cfg.windowTicks);
      SumSent(b) == CountSent(recent, i) && SumRecv(b) == CountRecv(recent, i)
  {
    var r := Run(Init(cfg, planes, paths), es).recs[i];
    if cfg.windowTicks > 0 { RunCounts(cfg, planes, paths, es, i, cfg.windowTicks - 1); }
    var r' := Rotate(cfg, r);
    TickCounts(r, r', cfg.windowTicks, cfg.windowTicks, es, i);
    assert LastN(r'.buckets, cfg.windowTicks) == r'.buckets;
  }

  /** Enough probes, and too few of them came back. */
  predicate TooFew(cfg: Config, sent: nat, recv: nat) {
    sent > 0 && sent >= cfg.minSamples && Min(recv, sent) as real < cfg.failRatio * sent as real
  }

  /** Enough probes, and enough of them came back. */
  predicate EnoughBack(cfg: Config, sent: nat, recv: nat) {
    && sent > 0 && sent >= cfg.minSamples && !TooFew(cfg, sent, recv)
    && Min(recv, sent) as real >= cfg.recoverRatio * sent as real
  }

  /** What one tick makes of a record, given the probes in its window. */
  ghost predicate Decided(cfg: Config, r: Rec, r': Rec, sent: nat, recv: nat) {
    && (r.state != AssumedBad && TooFew(cfg, sent, recv) ==>
          || (r'.state == AssumedBad && r'.suppressed == r.suppressed)
          || (r'.state == r.state && r'.suppressed == r.suppressed + 1))
    && (r.state == AssumedBad || !TooFew(cfg, sent, recv) ==> r'.suppressed == r.suppressed)
    && (r.state != AssumedBad && !TooFew(cfg, sent, recv) ==> r'.state == r.state || r'.state == Good)
    && (r.state == AssumedBad ==> r'.state == AssumedBad || r'.state == Good)
    && (r.state != Good ==>
          (r'.state == Good <==>
             EnoughBack(cfg, sent, recv) && r.lossStreak == 0 && r.healthy + 1 >= Hold(cfg, r)))
  }

  lemma {:induction false} CellDecides(
    cfg: Config, minActive: int, now: nat, r: Rec, sent: nat, recv: nat, u: int)
    ensures Decided(cfg, r, CellOn(cfg, minActive, now, r, sent, recv, u).0, sent, recv)
  {
    if sent > 0 {
      DivideBoth(Min(recv, sent) as real, sent as real, cfg.failRatio);
      DivideBoth(Min(recv, sent) as real, sent as real, cfg.recoverRatio);
    }
  }

  /**
    Over every run from a fresh table, a tick decides about EV `i` by counting the run's own probe
    events of the last `windowTicks` ticks, this one included.  With enough sent and too few back an
    EV in use goes out, unless the floor stops it, which is counted; it comes in exactly when enough
    came back, no loss streak is open and the healthy windows reach the hold; else it stays.
   */
  lemma {:induction false} TickDecidesByCounts(cfg: Config, planes: nat, paths: nat, es: seq<Event>, i: nat)
    requires i < planes * paths
    ensures var t := Run(Init(cfg, planes, paths), es); var recent := Since(es + [TickEvent], cfg.windowTicks);
      Decided(cfg, t.recs[i], Tick(t).recs[i], CountSent(recent, i), CountRecv(recent, i))
  {
    var t := Run(Init(cfg, planes, paths), es);
    RunCounts(cfg, planes, paths, es, i, 0);
    WindowSums(cfg, planes, paths, es, i);
    var v := TickCell(t, i);
    var r0 := Rotate(cfg, t.recs[i]);
    CellDecides(cfg, t.minActive, t.ticks + 1, r0, SumSent(r0.buckets), SumRecv(r0.buckets), v);
  }

  // ---------------------------------------------------------------- the transition counter

  /** How often an event changed the state of EV `i`. */
  ghost function StateChanges(t: Table, es: seq<Event>, i: nat): nat
    requires i < |t.recs|
    decreases |es|
  {
    if es == [] then 0
    else
      var here := if Step(t, es[0]).recs[i].state != t.recs[i].state then 1 else 0;
      here + StateChanges(Step(t, es[0]), es[1..], i)
  }

  lemma {:induction false} RecStepTransitions(
    cfg: Config, minActive: int, ticks: nat, r: Rec, e: Event, i: nat, v: int)
    ensures var r' := RecStep(cfg, minActive, ticks, r, e, i, v);
      r'.transitions == r.transitions + if r'.state != r.state then 1 else 0
  {
  }

  /** The transition counter of an EV is the number of events that changed its state. */
  lemma {:induction false} TransitionsCounted(t: Table, es: seq<Event>, i: nat)
    requires i < |t.recs|
    ensures Run(t, es).recs[i].transitions == t.recs[i].transitions + StateChanges(t, es, i)
    decreases |es|
  {
    if es != [] {
      var v := StepCell(t, es[0], i);
      RecStepTransitions(t.cfg, t.minActive, t.ticks, t.recs[i], es[0], i, v);
      hide Step, RecStep;
      TransitionsCounted(Step(t, es[0]), es[1..], i);
    }
  }
}
