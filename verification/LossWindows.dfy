/**
  Receiver-side accounting (`srv6_mrc/mrc/loss_window.py`): per-flow, per-EV counters sliced into
  windows.  The class follows the source; the theorems are about what the counters of one EV mean
  after any order of arrivals, and about the ledger of all windows together.
 */
module LossWindows {
  import opened Arith
  import opened Wrappers
  import opened EvState
  import opened LossFusion

  const U32_MAX: nat := 0xFFFF_FFFF

  /** One EV's counters of the window in progress; `None` is the source's -1. */
  datatype Counters = Counters(
    seen: nat, minSeq: Option<nat>, maxSeq: Option<nat>, maxGap: nat, lastSeq: Option<nat>, trimmed: nat)

  const IDLE := Counters(0, None, None, 0, None, 0)

  /** A window that saw a packet has both extremes, in order. */
  predicate Sound(c: Counters) {
    c.minSeq.Some? ==> c.maxSeq.Some? && c.minSeq.value <= c.maxSeq.value
  }

  /** `record` on one EV. */
  function Note(c: Counters, seqNo: nat): (r: Counters)
    ensures Sound(c) ==> Sound(r)
  {
    Counters(c.seen + 1,
      if c.minSeq == None || seqNo < c.minSeq.value then Some(seqNo) else c.minSeq,
      if c.maxSeq == None || seqNo > c.maxSeq.value then Some(seqNo) else c.maxSeq,
      if c.lastSeq.Some? && seqNo as int - c.lastSeq.value > c.maxGap then seqNo - c.lastSeq.value else c.maxGap,
      Some(seqNo),
      c.trimmed)
  }

  function NoteTrimmed(c: Counters): Counters { c.(trimmed := c.trimmed + 1) }

  function Cap(n: nat): nat { if n > U32_MAX then U32_MAX else n }

  /** The record a closing window emits for an active EV. */
  function Emit(c: Counters, plane: nat, path: nat): LossRec
    requires Sound(c)
  {
    LossRec(plane, path, Cap(c.seen),
      if c.minSeq == None then 0 else Cap(c.maxSeq.value - c.minSeq.value + 1),
      Cap(c.maxGap), Cap(c.trimmed))
  }

  predicate Active(c: Counters) { c.seen != 0 || c.trimmed != 0 }

  // ---------------------------------------------------------------- what the counters mean

  /** The counters after the arrivals `ss` in a fresh window. */
  function After(ss: seq<nat>): Counters {
    if ss == [] then IDLE else Note(After(ss[..|ss| - 1]), ss[|ss| - 1])
  }

  ghost predicate IsMin(m: nat, ss: seq<nat>) { m in ss && forall x :: x in ss ==> m <= x }
  ghost predicate IsMax(m: nat, ss: seq<nat>) { m in ss && forall x :: x in ss ==> x <= m }

  /** Arrival `k` jumped forward by `g` over the one before it. */
  predicate Jump(ss: seq<nat>, k: int, g: int) { 0 < k < |ss| && ss[k] as int - ss[k - 1] == g }

  /** `g` is the largest forward jump between consecutive arrivals, zero if there is none. */
  ghost predicate IsMaxJump(g: nat, ss: seq<nat>) {
    && (forall k, d :: Jump(ss, k, d) ==> d <= g)
    && (g > 0 ==> exists k :: Jump(ss, k, g))
  }

  /** After any arrivals the counters are their number, least, greatest and last. */
  lemma {:induction false} CountersMean(ss: seq<nat>)
    ensures After(ss).seen == |ss| && After(ss).trimmed == 0
    ensures ss == [] ==> After(ss) == IDLE
    ensures ss != [] ==> After(ss).minSeq.Some? && IsMin(After(ss).minSeq.value, ss)
    ensures ss != [] ==> After(ss).maxSeq.Some? && IsMax(After(ss).maxSeq.value, ss)
    ensures ss != [] ==> After(ss).lastSeq == Some(ss[|ss| - 1])
  {
    if ss != [] {
      var front, x := ss[..|ss| - 1], ss[|ss| - 1];
      CountersMean(front);
      assert ss == front + [x];
    }
  }

  /** `max_gap` is the largest forward jump in arrival order. */
  lemma {:induction false} GapMeans(ss: seq<nat>)
    ensures IsMaxJump(After(ss).maxGap, ss)
  {
    if ss != [] {
      var front, n := ss[..|ss| - 1], |ss| - 1;
      GapMeans(front);
      CountersMean(front);
      assert forall k, d :: k < n && Jump(ss, k, d) ==> Jump(front, k, d);
      if front != [] {
        var d := ss[n] as int - ss[n - 1];
        assert front[|front| - 1] == ss[n - 1];
        assert Jump(ss, n, d);
        if After(front).maxGap > 0 {
          var k :| Jump(front, k, After(front).maxGap);
          assert Jump(ss, k, After(front).maxGap);
        }
      }
    }
  }

  /** Distinct numbers in an interval are no more than its length. */
  lemma {:induction false} Pigeonhole(ss: seq<nat>, lo: nat, hi: nat)
    requires Distinct(ss) && lo <= hi && forall x :: x in ss ==> lo <= x < hi
    ensures |ss| <= hi - lo
    decreases hi - lo
  {
    if ss != [] {
      assert ss[0] in ss;
      var top := hi - 1;
      if k :| 0 <= k < |ss| && ss[k] == top {
        var rest := ss[..k] + ss[k + 1..];
        forall x | x in rest ensures lo <= x < top {
          assert x in ss;
          var j :| 0 <= j < |rest| && rest[j] == x;
          assert rest[j] == if j < k then ss[j] else ss[j + 1];
        }
        Pigeonhole(rest, lo, top);
      } else {
        Pigeonhole(ss, lo, top);
      }
    }
  }

  /** Without duplicates in the window, the emitted `seen` is at most the emitted `expected`. */
  lemma {:induction false} SeenWithinExpected(ss: seq<nat>, plane: nat, path: nat)
    requires Distinct(ss)
    ensures Sound(After(ss))
    ensures Emit(After(ss), plane, path).seen <= Emit(After(ss), plane, path).expected
  {
    CountersMean(ss);
    if ss != [] {
      var c := After(ss);
      Pigeonhole(ss, c.minSeq.value, c.maxSeq.value + 1);
    }
  }

  /** The whole window is one jump from sequence number 0 to 2^32 - 1, the one shape that overflows. */
  ghost predicate FullSpanJump(ss: seq<nat>) {
    exists k :: 0 < k < |ss| && ss[k - 1] == 0 && ss[k] == U32_MAX
  }

  lemma {:induction false} GapInSpan(ss: seq<nat>)
    requires ss != [] && forall x :: x in ss ==> x <= U32_MAX
    ensures var c := After(ss); Sound(c) && c.minSeq.Some? && c.maxGap <= c.maxSeq.value - c.minSeq.value <= U32_MAX
    ensures After(ss).maxGap == U32_MAX <==> FullSpanJump(ss)
  {
    CountersMean(ss);
    GapMeans(ss);
    hide After, IsMaxJump;
    GapIsJump(ss, After(ss).maxGap, After(ss).minSeq.value, After(ss).maxSeq.value);
  }

  lemma {:induction false} GapIsJump(ss: seq<nat>, g: nat, lo: nat, hi: nat)
    requires IsMaxJump(g, ss) && ss != [] && forall x :: x in ss ==> x <= U32_MAX
    requires IsMin(lo, ss) && IsMax(hi, ss)
    ensures g <= hi - lo <= U32_MAX
    ensures g == U32_MAX <==> FullSpanJump(ss)
  {
    if g > 0 {
      var k :| Jump(ss, k, g);
      assert ss[k] in ss && ss[k - 1] in ss;
    }
    if FullSpanJump(ss) {
      var k :| 0 < k < |ss| && ss[k - 1] == 0 && ss[k] == U32_MAX;
      assert Jump(ss, k, U32_MAX);
    }
  }

  /**
    `max_gap <= expected - 1` for every EV that saw a packet, with one exception: the cap of
    `expected` at 2^32 - 1 breaks it exactly when the window jumped from sequence number 0 straight
    to 2^32 - 1.  (`record` only accepts 32-bit sequence numbers.)
   */
  lemma {:induction false} GapWithinExpected(ss: seq<nat>, plane: nat, path: nat)
    requires ss != [] && forall x :: x in ss ==> x <= U32_MAX
    ensures Sound(After(ss))
    ensures Emit(After(ss), plane, path).maxGap as int <= Emit(After(ss), plane, path).expected - 1
      <==> !FullSpanJump(ss)
  {
    GapInSpan(ss);
  }

  /** The exception is real: after 0 and 2^32 - 1 the gap equals the capped `expected`. */
  lemma {:induction false} GapBeyondExpected(plane: nat, path: nat)
    ensures var ss := [0, U32_MAX];
      Sound(After(ss)) && Emit(After(ss), plane, path).maxGap == Emit(After(ss), plane, path).expected == U32_MAX
  {
    var ss := [0, U32_MAX];
    assert ss[..1] == [0] && [0][..0] == [];
    assert After([0]) == Note(IDLE, 0) && After(ss) == Note(After([0]), U32_MAX);
  }

  // ---------------------------------------------------------------- the table

  type Cells = seq<seq<Counters>>

  /** A grid of the table's shape whose counters can be emitted. */
  predicate CellsOk(g: Cells, planes: nat, paths: nat) {
    && |g| == planes
    && forall p :: 0 <= p < planes ==> |g[p]| == paths && forall q :: 0 <= q < paths ==> Sound(g[p][q])
  }

  function IdleGrid(planes: nat, paths: nat): (g: Cells)
    ensures CellsOk(g, planes, paths)
    ensures forall p, q :: 0 <= p < planes && 0 <= q < paths ==> g[p][q] == IDLE
  {
    seq(planes, p => seq(paths, q => IDLE))
  }

  function SetCell(g: Cells, planes: nat, paths: nat, p: nat, q: nat, c: Counters): (g': Cells)
    requires CellsOk(g, planes, paths) && p < planes && q < paths && Sound(c)
    ensures CellsOk(g', planes, paths)
    ensures forall a, b :: 0 <= a < planes && 0 <= b < paths ==>
      g'[a][b] == if a == p && b == q then c else g[a][b]
  {
    g[p := g[p][q := c]]
  }

  datatype FlowWindow = FlowWindow(nextWindowId: nat, evs: Cells)

  /** The records of the active cells from (p, q) on, in (plane, path) order. */
  function ActiveRecs(g: Cells, planes: nat, paths: nat, p: nat, q: nat): seq<LossRec>
    requires CellsOk(g, planes, paths) && p <= planes && q <= paths
    decreases planes - p, paths - q
  {
    if p == planes then []
    else if q == paths then ActiveRecs(g, planes, paths, p + 1, 0)
    else if Active(g[p][q]) then [Emit(g[p][q], p, q)] + ActiveRecs(g, planes, paths, p, q + 1)
    else ActiveRecs(g, planes, paths, p, q + 1)
  }

  datatype Event =
    | Arrive(plane: nat, path: nat, seqNo: nat)
    | Trim(plane: nat, path: nat)
    | Close

  /** One flow's open window with the records of all its closed ones. */
  datatype Ledger = Ledger(evs: Cells, reported: seq<LossRec>)

  function Apply(l: Ledger, planes: nat, paths: nat, e: Event): (l': Ledger)
    requires CellsOk(l.evs, planes, paths)
    ensures CellsOk(l'.evs, planes, paths)
  {
    match e
    case Arrive(a, b, s) =>
      if a < planes && b < paths && s <= U32_MAX
      then l.(evs := SetCell(l.evs, planes, paths, a, b, Note(l.evs[a][b], s)))
      else l
    case Trim(a, b) =>
      if a < planes && b < paths
      then l.(evs := SetCell(l.evs, planes, paths, a, b, NoteTrimmed(l.evs[a][b])))
      else l
    case Close => Ledger(IdleGrid(planes, paths), l.reported + ActiveRecs(l.evs, planes, paths, 0, 0))
  }

  class LossWindowTable<K(==)> {
    const planes: nat
    const paths: nat
    var flows: map<K, FlowWindow>

    ghost predicate Valid()
      reads this
    {
      forall k :: k in flows ==> CellsOk(flows[k].evs, planes, paths) && flows[k].nextWindowId < 0x1_0000
    }

    constructor (planes: nat, paths: nat)
      requires planes >= 1 && paths >= 1
      ensures Valid() && flows == map[] && this.planes == planes && this.paths == paths
    {
      this.planes, this.paths, flows := planes, paths, map[];
    }

    /** The flow's window, an idle one for a flow not seen yet. */
    function Window(key: K): (w: FlowWindow)
      reads this
      requires Valid()
      ensures CellsOk(w.evs, planes, paths) && w.nextWindowId < 0x1_0000
    {
      if key in flows then flows[key] else FlowWindow(0, IdleGrid(planes, paths))
    }

    /** `record`; an EV or sequence number out of range raises. */
    method Record(key: K, plane: int, path: int, seqNo: int) returns (ok: bool)
      requires Valid()
      modifies this
      ensures Valid()
      ensures ok == (0 <= plane < planes && 0 <= path < paths && 0 <= seqNo <= U32_MAX)
      ensures !ok ==> flows == old(flows)
      ensures ok ==>
        var w := old(Window(key));
        flows == old(flows)[key := w.(evs := Apply(Ledger(w.evs, []), planes, paths, Arrive(plane, path, seqNo)).evs)]
    {
      if !(0 <= plane < planes) || !(0 <= path < paths) || !(0 <= seqNo <= U32_MAX) { return false; }
      var w := Window(key);
      var c := Note(w.evs[plane][path], seqNo);
      flows := flows[key := w.(evs := SetCell(w.evs, planes, paths, plane, path, c))];
      return true;
    }

    /** `record_trimmed`. */
    method RecordTrimmed(key: K, plane: int, path: int) returns (ok: bool)
      requires Valid()
      modifies this
      ensures Valid()
      ensures ok == (0 <= plane < planes && 0 <= path < paths)
      ensures !ok ==> flows == old(flows)
      ensures ok ==>
        var w := old(Window(key));
        flows == old(flows)[key := w.(evs := Apply(Ledger(w.evs, []), planes, paths, Trim(plane, path)).evs)]
    {
      if !(0 <= plane < planes) || !(0 <= path < paths) { return false; }
      var w := Window(key);
      var c := NoteTrimmed(w.evs[plane][path]);
      flows := flows[key := w.(evs := SetCell(w.evs, planes, paths, plane, path, c))];
      return true;
    }

    /** The plane and path loops of `snapshot_and_reset`. */
    static method Collect(g: Cells, planes: nat, paths: nat) returns (records: seq<LossRec>)
      requires CellsOk(g, planes, paths)
      ensures records == ActiveRecs(g, planes, paths, 0, 0)
    {
      records := [];
      for p := 0 to planes
        invariant records + ActiveRecs(g, planes, paths, p, 0) == ActiveRecs(g, planes, paths, 0, 0)
      {
        for q := 0 to paths
          invariant records + ActiveRecs(g, planes, paths, p, q) == ActiveRecs(g, planes, paths, 0, 0)
        {
          ghost var rest := ActiveRecs(g, planes, paths, p, q + 1);
          if Active(g[p][q]) {
            var r := Emit(g[p][q], p, q);
            assert records + ([r] + rest) == records + [r] + rest;
            records := records + [r];
          }
        }
      }
    }

    /** `snapshot_and_reset`: one record per active EV; the counters go idle, the id moves on. */
    method SnapshotAndReset(key: K) returns (report: LossReport)
      requires Valid()
      modifies this
      ensures Valid()
      ensures report.windowId == old(Window(key)).nextWindowId
      ensures key in flows && flows == old(flows)[key := flows[key]]
      ensures Ledger(flows[key].evs, report.planes) == Apply(Ledger(old(Window(key)).evs, []), planes, paths, Close)
      ensures flows[key].nextWindowId == (old(Window(key)).nextWindowId + 1) % 0x1_0000
    {
      var w := Window(key);
      var records := Collect(w.evs, planes, paths);
      report := LossReport(w.nextWindowId, records);
      flows := flows[key := FlowWindow((w.nextWindowId + 1) % 0x1_0000, IdleGrid(planes, paths))];
    }

    /** `forget`. */
    method Forget(key: K)
      requires Valid()
      modifies this
      ensures Valid() && flows == old(flows) - {key}
    {
      flows := flows - {key};
    }
  }

  // ---------------------------------------------------------------- one flow's windows over any run

  /** Two ways to arrive: whole, or trimmed to its header. */
  datatype Kind = Whole | Trimmed

  function CountOf(c: Counters, k: Kind): nat { if k.Whole? then c.seen else c.trimmed }

  /** What records say arrived of a kind on EV (p, q). */
  function SaidOf(rs: seq<LossRec>, p: nat, q: nat, k: Kind): nat {
    if rs == [] then 0
    else
      var said := if k.Whole? then rs[0].seen else rs[0].trimmed;
      (if rs[0].plane == p && rs[0].path == q then said else 0) + SaidOf(rs[1..], p, q, k)
  }

  /** A new flow after the events `es`. */
  function RunFlow(planes: nat, paths: nat, es: seq<Event>): (l: Ledger)
    ensures CellsOk(l.evs, planes, paths)
  {
    if es == [] then Ledger(IdleGrid(planes, paths), [])
    else Apply(RunFlow(planes, paths, es[..|es| - 1]), planes, paths, es[|es| - 1])
  }

  /** Event `e` is an arrival of kind `k` on EV (p, q); numbers beyond 32 bits are refused. */
  predicate Hits(e: Event, p: nat, q: nat, k: Kind) {
    match e
    case Arrive(plane, path, seqNo) => k.Whole? && plane == p && path == q && seqNo <= U32_MAX
    case Trim(plane, path) => k.Trimmed? && plane == p && path == q
    case Close => false
  }

  /** The sequence numbers of the whole arrivals on EV (p, q) since the last closing. */
  function Recent(es: seq<Event>, p: nat, q: nat): seq<nat> {
    if es == [] then []
    else
      var e, before := es[|es| - 1], es[..|es| - 1];
      if e.Close? then [] else if Hits(e, p, q, Whole) then Recent(before, p, q) + [e.seqNo] else Recent(before, p, q)
  }

  /** The number of arrivals of a kind on EV (p, q) since the last closing ... */
  function RecentCount(es: seq<Event>, p: nat, q: nat, k: Kind): nat {
    if es == [] || es[|es| - 1].Close? then 0
    else RecentCount(es[..|es| - 1], p, q, k) + if Hits(es[|es| - 1], p, q, k) then 1 else 0
  }

  /** ... and in all. */
  function Arrivals(es: seq<Event>, p: nat, q: nat, k: Kind): nat {
    if es == [] then 0
    else Arrivals(es[..|es| - 1], p, q, k) + if Hits(es[|es| - 1], p, q, k) then 1 else 0
  }

  /** No window closed with more arrivals of the kind on (p, q) than a field of a record holds. */
  predicate NeverSaturated(es: seq<Event>, p: nat, q: nat, k: Kind) {
    es == [] ||
    var e, before := es[|es| - 1], es[..|es| - 1];
    NeverSaturated(before, p, q, k) && (e.Close? ==> RecentCount(before, p, q, k) <= U32_MAX)
  }

  /** What one event does to EV (p, q). */
  lemma {:induction false} CellAfter(l: Ledger, planes: nat, paths: nat, e: Event, p: nat, q: nat)
    requires CellsOk(l.evs, planes, paths) && p < planes && q < paths
    ensures var c, c' := l.evs[p][q], Apply(l, planes, paths, e).evs[p][q];
      c' ==
        if e.Close? then IDLE
        else if Hits(e, p, q, Whole) then Note(c, e.seqNo)
        else if Hits(e, p, q, Trimmed) then c.(trimmed := c.trimmed + 1)
        else c
  {
  }

  /** The counters of the arrivals `ss` and of `n` trimmed ones, in whatever order they came. */
  function Counted(ss: seq<nat>, n: nat): Counters { After(ss).(trimmed := n) }

  lemma {:induction false} CountedStep(ss: seq<nat>, n: nat, x: nat)
    ensures Counted(ss + [x], n) == Note(Counted(ss, n), x)
  {
    assert (ss + [x])[..|ss|] == ss;
  }

  /** The open window's counters are those of the arrivals since the last closing, and no others. */
  lemma {:induction false} OpenWindowIsItsArrivals(planes: nat, paths: nat, es: seq<Event>, p: nat, q: nat)
    requires p < planes && q < paths
    ensures |Recent(es, p, q)| == RecentCount(es, p, q, Whole)
    ensures RunFlow(planes, paths, es).evs[p][q] == Counted(Recent(es, p, q), RecentCount(es, p, q, Trimmed))
  {
    if es != [] {
      var e, before := es[|es| - 1], es[..|es| - 1];
      OpenWindowIsItsArrivals(planes, paths, before, p, q);
      CellAfter(RunFlow(planes, paths, before), planes, paths, e, p, q);
      if Hits(e, p, q, Whole) { CountedStep(Recent(before, p, q), RecentCount(before, p, q, Trimmed), e.seqNo); }
      hide Apply, CellsOk, Note, After;
    }
  }

  lemma {:induction false} SaidOfAppend(a: seq<LossRec>, b: seq<LossRec>, p: nat, q: nat, k: Kind)
    ensures SaidOf(a + b, p, q, k) == SaidOf(a, p, q, k) + SaidOf(b, p, q, k)
  {
    if a == [] {
      assert a + b == b;
    } else {
      assert (a + b)[1..] == a[1..] + b;
      SaidOfAppend(a[1..], b, p, q, k);
    }
  }

  /** An EV's own record is the only one that carries its count. */
  lemma {:induction false} SaidOfActive(
    g: Cells, planes: nat, paths: nat, p0: nat, q0: nat, p: nat, q: nat, k: Kind)
    requires CellsOk(g, planes, paths) && p0 <= planes && q0 <= paths && p < planes && q < paths
    ensures SaidOf(ActiveRecs(g, planes, paths, p0, q0), p, q, k) ==
      if p0 < p || (p0 == p && q0 <= q) then Min(CountOf(g[p][q], k), U32_MAX) else 0
    decreases planes - p0, paths - q0
  {
    if p0 < planes {
      if q0 == paths {
        SaidOfActive(g, planes, paths, p0 + 1, 0, p, q, k);
      } else {
        SaidOfActive(g, planes, paths, p0, q0 + 1, p, q, k);
        var rest := ActiveRecs(g, planes, paths, p0, q0 + 1);
        hide CellsOk, Sound;
        if Active(g[p0][q0]) {
          assert ([Emit(g[p0][q0], p0, q0)] + rest)[1..] == rest;
        }
      }
    }
  }

  /**
    Conservation: for any order of arrivals, trims and window closings, what an EV's reports say was
    seen, or was trimmed, plus what its open window holds never exceeds what was recorded on it, and
    equals it exactly when no window closed with more than 2^32 - 1 arrivals of that kind.
   */
  lemma {:induction false} NothingUnreported(planes: nat, paths: nat, es: seq<Event>, p: nat, q: nat, k: Kind)
    requires p < planes && q < paths
    ensures var l := RunFlow(planes, paths, es);
      var total := SaidOf(l.reported, p, q, k) + CountOf(l.evs[p][q], k);
      total <= Arrivals(es, p, q, k) && (total == Arrivals(es, p, q, k) <==> NeverSaturated(es, p, q, k))
  {
    if es != [] {
      var e, before := es[|es| - 1], es[..|es| - 1];
      NothingUnreported(planes, paths, before, p, q, k);
      var l := RunFlow(planes, paths, before);
      OpenWindowIsItsArrivals(planes, paths, before, p, q);
      CountersMean(Recent(before, p, q));
      CellAfter(l, planes, paths, e, p, q);
      if e.Close? {
        SaidOfActive(l.evs, planes, paths, 0, 0, p, q, k);
        SaidOfAppend(l.reported, ActiveRecs(l.evs, planes, paths, 0, 0), p, q, k);
      }
      hide CellsOk, ActiveRecs, SaidOf, After, Recent;
    }
  }

  // ---------------------------------------------------------------- what a closing window reports

  /** `r` states the arrivals `ss` and `n` trims: how many, their span and their largest jump, each capped. */
  ghost predicate States(r: LossRec, ss: seq<nat>, n: nat) {
    && r.seen == Min(|ss|, U32_MAX) && r.trimmed == Min(n, U32_MAX)
    && (ss == [] ==> r.expected == 0 && r.maxGap == 0)
    && (forall lo: nat, hi: nat :: IsMin(lo, ss) && IsMax(hi, ss) ==> r.expected == Min(hi - lo + 1, U32_MAX))
    && (forall g: nat :: IsMaxJump(g, ss) ==> r.maxGap == Min(g, U32_MAX))
  }

  lemma {:induction false} OneMaxJump(ss: seq<nat>, g: nat, h: nat)
    requires IsMaxJump(g, ss) && IsMaxJump(h, ss)
    ensures g == h
  {
    if k :| Jump(ss, k, g) { assert g <= h; }
    if k :| Jump(ss, k, h) { assert h <= g; }
  }

  lemma {:induction false} EmitStates(ss: seq<nat>, n: nat, plane: nat, path: nat)
    ensures Sound(Counted(ss, n)) && States(Emit(Counted(ss, n), plane, path), ss, n)
    ensures Active(Counted(ss, n)) <==> ss != [] || n > 0
  {
    CountersMean(ss);
    GapMeans(ss);
    forall g: nat | IsMaxJump(g, ss) ensures After(ss).maxGap == g {
      OneMaxJump(ss, After(ss).maxGap, g);
    }
    hide After, IsMaxJump;
  }

  /** The records of a closing window: one for each active cell, what it emits, and no other. */
  lemma {:induction false} RecordsOfCell(g: Cells, planes: nat, paths: nat, p0: nat, q0: nat, r: LossRec)
    requires CellsOk(g, planes, paths) && p0 <= planes && q0 <= paths
    ensures r in ActiveRecs(g, planes, paths, p0, q0) <==>
      && r.plane < planes && r.path < paths && (p0 < r.plane || (p0 == r.plane && q0 <= r.path))
      && Active(g[r.plane][r.path]) && r == Emit(g[r.plane][r.path], r.plane, r.path)
    decreases planes - p0, paths - q0
  {
    if p0 < planes {
      if q0 == paths {
        RecordsOfCell(g, planes, paths, p0 + 1, 0, r);
      } else {
        RecordsOfCell(g, planes, paths, p0, q0 + 1, r);
      }
    }
  }

  /**
    After any run of a flow, the report that closes its window names exactly the EVs with an arrival
    since the last closing, whole or trimmed, and states of each just those arrivals.
   */
  lemma {:induction false} ReportStatesArrivals(planes: nat, paths: nat, es: seq<Event>, p: nat, q: nat)
    requires p < planes && q < paths
    ensures var rs := ActiveRecs(RunFlow(planes, paths, es).evs, planes, paths, 0, 0);
      var ss, n := Recent(es, p, q), RecentCount(es, p, q, Trimmed);
      && ((exists r :: r in rs && r.plane == p && r.path == q) <==> ss != [] || n > 0)
      && (forall r :: r in rs && r.plane == p && r.path == q ==> States(r, ss, n))
  {
    var g := RunFlow(planes, paths, es).evs;
    var rs := ActiveRecs(g, planes, paths, 0, 0);
    OpenWindowIsItsArrivals(planes, paths, es, p, q);
    EmitStates(Recent(es, p, q), RecentCount(es, p, q, Trimmed), p, q);
    forall r | r in rs && r.plane == p && r.path == q ensures Active(g[p][q]) && r == Emit(g[p][q], p, q) {
      RecordsOfCell(g, planes, paths, 0, 0, r);
    }
    hide ActiveRecs, States, Counted, RunFlow;
    if Active(g[p][q]) {
      var r := Emit(g[p][q], p, q);
      RecordsOfCell(g, planes, paths, 0, 0, r);
      assert r in rs && r.plane == p && r.path == q;
    }
  }

  // ---------------------------------------------------------------- what a report of this table is worth

  /** Every record of an active cell names at least one arrival, whole or trimmed. */
  lemma {:induction false} EmittedRecordsHaveArrivals(g: Cells, planes: nat, paths: nat, p: nat, q: nat)
    requires CellsOk(g, planes, paths) && p <= planes && q <= paths
    ensures forall r :: r in ActiveRecs(g, planes, paths, p, q) ==> r.Arrived() > 0
    decreases planes - p, paths - q
  {
    if p < planes {
      if q == paths {
        EmittedRecordsHaveArrivals(g, planes, paths, p + 1, 0);
      } else {
        EmittedRecordsHaveArrivals(g, planes, paths, p, q + 1);
      }
    }
  }

  /**
    Between receivers of this kind the fusion depends on arrivals alone: reports closed from any two
    grids that agree on which EVs they name and on seen + trimmed have the same effect.
   */
  lemma {:induction false} ReceiverReportsActByArrivals(
    t: Table, w: Option<SentWindow>, g: Cells, h: Cells, planes: nat, paths: nat)
    requires CellsOk(g, planes, paths) && CellsOk(h, planes, paths) && PairFits(w, t)
    requires var a, b := ActiveRecs(g, planes, paths, 0, 0), ActiveRecs(h, planes, paths, 0, 0);
      |a| == |b| && forall k :: 0 <= k < |a| ==>
        a[k].plane == b[k].plane && a[k].path == b[k].path && a[k].Arrived() == b[k].Arrived()
    ensures Fuse(t, ActiveRecs(g, planes, paths, 0, 0), w) == Fuse(t, ActiveRecs(h, planes, paths, 0, 0), w)
  {
    var a, b := ActiveRecs(g, planes, paths, 0, 0), ActiveRecs(h, planes, paths, 0, 0);
    EmittedRecordsHaveArrivals(g, planes, paths, 0, 0);
    hide ActiveRecs, Fuse, CellsOk, PairFits;
    assert forall k :: 0 <= k < |a| ==> a[k] in a;
    OnlyArrivalsMatter(t, a, b, w);
  }
}
