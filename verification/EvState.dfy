/**
  The per-EV health state machine of `srv6_mrc/mrc/ev_state.py`, as functions on values.

  `Table` is what one tenant's slice of an `EVStateTable` holds, but for the weight cache, which the
  class in EvTable keeps equal to `Published` of the records.  The grid of records is stored
  row-major: EV (plane, path) is at index `plane * paths + path`, the order in which every loop of
  the source walks it.  Ratios and weights are exact reals.
 */
module EvState {
  import opened Arith
  import opened Wrappers
  import opened Grids

  datatype State = Unknown | Good | AssumedBad

  /** Spray weight of a state before normalisation. */
  function Weight(s: State): real {
    match s
    case Good => 1.0
    case Unknown => 0.5
    case AssumedBad => 0.0
  }

  datatype Config = Config(
    windowTicks: nat, minSamples: int, failRatio: real, recoverRatio: real, recoverTicks: int,
    lossThreshold: real, lossDemoteConsecutive: int, minActiveEvs: Option<int>,
    backoffMaxLevel: nat, backoffResetTicks: int)
  {
    /** The demotion floor for a grid of `total` EVs. */
    function ResolveMinActive(total: nat): int {
      match minActiveEvs
      case None => Max(1, total / 2)
      case Some(n) => Max(1, Min(n, total))
    }
  }

  /** One tick's (sent, recv) probe counts. */
  datatype Bucket = Bucket(sent: nat, recv: nat)

  datatype Rec = Rec(
    state: State, current: Bucket, buckets: seq<Bucket>, total: Bucket,
    healthy: nat, lossStreak: nat, lastLossRatio: real, lastProbeRatio: real,
    transitions: nat, suppressed: nat,
    lossDemoted: bool, level: nat, lastLossRecover: Option<nat>)

  const FRESH := Rec(Unknown, Bucket(0, 0), [], Bucket(0, 0), 0, 0, 0.0, 0.0, 0, 0, false, 0, None)

  datatype Table = Table(
    cfg: Config, planes: nat, paths: nat, minActive: int,
    recs: seq<Rec>, ticks: nat)

  // ---------------------------------------------------------------- buckets

  function SumSent(b: seq<Bucket>): nat {
    if b == [] then 0 else b[0].sent + SumSent(b[1..])
  }

  function SumRecv(b: seq<Bucket>): nat {
    if b == [] then 0 else b[0].recv + SumRecv(b[1..])
  }

  function Rotate(cfg: Config, r: Rec): Rec {
    r.(buckets := Push(r.buckets, r.current, cfg.windowTicks), current := Bucket(0, 0))
  }

  // ---------------------------------------------------------------- weights

  function RawWeights(recs: seq<Rec>): (w: seq<real>)
    ensures |w| == |recs|
    ensures forall i :: 0 <= i < |w| ==> w[i] == Weight(recs[i].state)
  {
    seq(|recs|, i requires 0 <= i < |recs| => Weight(recs[i].state))
  }

  function Sum(w: seq<real>): real {
    if w == [] then 0.0 else w[0] + Sum(w[1..])
  }

  lemma {:induction false} SumSnoc(w: seq<real>, k: nat)
    requires k < |w|
    ensures Sum(w[..k + 1]) == Sum(w[..k]) + w[k]
  {
    if k > 0 {
      SumSnoc(w[1..], k - 1);
      assert w[..k + 1][1..] == w[1..][..k] && w[..k][1..] == w[1..][..k - 1];
    }
  }

  /** EV weights in row-major order: the normalised state weights, or uniform when all are zero. */
  function FlatWeights(recs: seq<Rec>): (w: seq<real>)
    ensures |w| == |recs|
  {
    var raw := RawWeights(recs);
    var total := Sum(raw);
    if total <= 0.0
    then seq(|recs|, i requires 0 <= i < |recs| => 1.0 / |recs| as real)
    else seq(|recs|, i requires 0 <= i < |recs| => raw[i] / total)
  }

  predicate Shaped(t: Table) {
    |t.recs| == t.planes * t.paths
  }

  /** The weight grid a rebuild of the cache publishes. */
  function Published(t: Table): (g: seq<seq<real>>)
    requires Shaped(t)
    ensures |g| == t.planes && forall p :: 0 <= p < t.planes ==> |g[p]| == t.paths
  {
    Grid(FlatWeights(t.recs), t.planes, t.paths)
  }

  /** `t'` is `t` but for its records. */
  ghost predicate Frame(t: Table, t': Table) {
    |t'.recs| == |t.recs| && t' == t.(recs := t'.recs)
  }

  function FreshRecs(n: nat): seq<Rec> {
    seq(n, i => FRESH)
  }

  /** A fresh table, as the constructor leaves it. */
  function Init(cfg: Config, planes: nat, paths: nat): (t: Table)
    ensures Shaped(t)
  {
    Table(cfg, planes, paths, cfg.ResolveMinActive(planes * paths), FreshRecs(planes * paths), 0)
  }

  // ---------------------------------------------------------------- transitions

  /** Number of EVs that are not ASSUMED_BAD. */
  function Usable(recs: seq<Rec>): (n: nat)
    ensures n <= |recs|
  {
    if recs == [] then 0 else (if recs[0].state != AssumedBad then 1 else 0) + Usable(recs[1..])
  }

  /** Usable EVs other than `i`: what would remain if `i` were demoted. */
  function UsableWithout(recs: seq<Rec>, i: nat): nat
    requires i < |recs|
  {
    Usable(recs[..i]) + Usable(recs[i + 1..])
  }

  function Put(t: Table, i: nat, r: Rec): (t': Table)
    requires i < |t.recs|
    ensures Frame(t, t')
  {
    t.(recs := t.recs[i := r])
  }

  /** The record after entering `s`, at time `now`. */
  function Entered(r: Rec, s: State, now: nat): Rec {
    var r1 := r.(state := s, transitions := r.transitions + 1);
    match s
    case Good =>
      var r2 := r1.(healthy := 0);
      if r2.lossDemoted then r2.(lastLossRecover := Some(now), lossDemoted := false) else r2
    case AssumedBad => r1.(healthy := 0, lossStreak := 0)
    case Unknown => r1
  }

  function Transition(t: Table, i: nat, s: State): (t': Table)
    requires i < |t.recs|
    ensures Frame(t, t')
  {
    if t.recs[i].state == s then t
    else Put(t, i, Entered(t.recs[i], s, t.ticks))
  }

  /** The backoff level a demote leaves behind: only loss demotes move it. */
  function DemoteLevel(cfg: Config, r: Rec, byLoss: bool, now: nat): nat {
    if !byLoss then r.level
    else if r.lastLossRecover.Some? && now - r.lastLossRecover.value < cfg.backoffResetTicks
    then Min(r.level + 1, cfg.backoffMaxLevel)
    else 0
  }

  function TryDemote(t: Table, i: nat, byLoss: bool): (t': Table)
    requires i < |t.recs|
    ensures Frame(t, t')
  {
    var r := t.recs[i];
    if UsableWithout(t.recs, i) < t.minActive then
      Put(t, i, r.(suppressed := r.suppressed + 1))
    else
      var marked := r.(level := DemoteLevel(t.cfg, r, byLoss, t.ticks), lossDemoted := byLoss);
      Transition(Put(t, i, marked), i, AssumedBad)
  }

  // ---------------------------------------------------------------- probe window

  /** Consecutive healthy evaluations needed to leave ASSUMED_BAD. */
  function Hold(cfg: Config, r: Rec): int {
    if r.lossDemoted then cfg.recoverTicks * Pow2(r.level) else cfg.recoverTicks
  }

  function ProbeRatio(sent: nat, recv: nat): real
    requires sent > 0
  {
    Min(recv, sent) as real / sent as real
  }

  /** Re-evaluates EV `i` after its bucket rotation. */
  function Evaluate(t: Table, i: nat): (t': Table)
    requires i < |t.recs|
    ensures Frame(t, t')
  {
    Judge(t, i, SumSent(t.recs[i].buckets), SumRecv(t.recs[i].buckets))
  }

  /** The demote / recover rules for EV `i` on window totals `sent` and `recv`. */
  function Judge(t: Table, i: nat, sent: nat, recv: nat): (t': Table)
    requires i < |t.recs|
    ensures Frame(t, t')
  {
    var r := t.recs[i];
    var cfg := t.cfg;
    if sent == 0 then Put(t, i, r.(lastProbeRatio := 0.0))
    else
      var ratio := ProbeRatio(sent, recv);
      var r1 := r.(lastProbeRatio := ratio);
      if sent < cfg.minSamples then Put(t, i, r1.(healthy := 0))
      else if ratio < cfg.failRatio then
        var t1 := Put(t, i, r1.(healthy := 0));
        if r.state != AssumedBad then TryDemote(t1, i, false) else t1
      else if ratio >= cfg.recoverRatio then
        var r2 := r1.(healthy := r1.healthy + 1);
        var t2 := Put(t, i, r2);
        if r2.state != Good && r2.lossStreak == 0 && r2.healthy >= Hold(cfg, r2)
        then Transition(t2, i, Good) else t2
      else Put(t, i, r1.(healthy := 0))
  }

  /** Rotates and evaluates EVs `i`, `i + 1`, ... in row-major order. */
  function TickFrom(t: Table, i: nat): (t': Table)
    requires i <= |t.recs|
    ensures |t'.recs| == |t.recs|
    decreases |t.recs| - i
  {
    if i == |t.recs| then t
    else
      var t1 := Put(t, i, Rotate(t.cfg, t.recs[i]));
      TickFrom(Evaluate(t1, i), i + 1)
  }

  function Tick(t: Table): (t': Table)
    ensures |t'.recs| == |t.recs|
  {
    TickFrom(t.(ticks := t.ticks + 1), 0)
  }

  // ---------------------------------------------------------------- loss windows

  function LossRatio(seen: nat, expected: nat): real
    requires 0 < expected
  {
    (expected - Min(seen, expected)) as real / expected as real
  }

  function LossWindow(t: Table, i: nat, seen: nat, expected: nat): (t': Table)
    requires i < |t.recs|
    ensures Frame(t, t')
  {
    if expected == 0 then t else NoteLoss(t, i, LossRatio(seen, expected))
  }

  function NoteLoss(t: Table, i: nat, ratio: real): (t': Table)
    requires i < |t.recs|
    ensures Frame(t, t')
  {
    var r := t.recs[i].(lastLossRatio := ratio);
    if ratio > t.cfg.lossThreshold then
      var r1 := r.(lossStreak := r.lossStreak + 1);
      var t1 := Put(t, i, r1);
      if r1.state != AssumedBad && r1.lossStreak >= t.cfg.lossDemoteConsecutive
      then TryDemote(t1, i, true) else t1
    else if ratio <= t.cfg.lossThreshold / 2.0 then Put(t, i, r.(lossStreak := 0))
    else Put(t, i, r)
  }

  // ---------------------------------------------------------------- events

  datatype Event =
    | ProbeSent(ev: nat)
    | ProbeRecv(ev: nat)
    | TickEvent
    | Loss(ev: nat, seen: nat, expected: nat)

  /** One atomic step under the table's lock.  An EV outside the grid raises and changes nothing. */
  function Step(t: Table, e: Event): (t': Table)
    ensures |t'.recs| == |t.recs|
  {
    match e
    case TickEvent => Tick(t)
    case ProbeSent(i) =>
      if i >= |t.recs| then t
      else
        var r := t.recs[i];
        Put(t, i, r.(current := r.current.(sent := r.current.sent + 1),
                     total := r.total.(sent := r.total.sent + 1)))
    case ProbeRecv(i) =>
      if i >= |t.recs| then t
      else
        var r := t.recs[i];
        Put(t, i, r.(current := r.current.(recv := r.current.recv + 1),
                     total := r.total.(recv := r.total.recv + 1)))
    case Loss(i, seen, expected) =>
      if i >= |t.recs| then t else LossWindow(t, i, seen, expected)
  }

  function Run(t: Table, es: seq<Event>): (t': Table)
    ensures |t'.recs| == |t.recs|
    decreases |es|
  {
    if es == [] then t else Run(Step(t, es[0]), es[1..])
  }

  /** What evaluating EV `i` leaves alone. */
  lemma {:induction false} EvaluateFrame(t: Table, i: nat)
    requires i < |t.recs|
    ensures var t' := Evaluate(t, i);
      Frame(t, t') && (forall j :: 0 <= j < |t.recs| && j != i ==> t'.recs[j] == t.recs[j])
  {
  }
}
