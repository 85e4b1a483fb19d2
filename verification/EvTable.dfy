/**
  `EVStateTable` of `srv6_mrc/mrc/ev_state.py` in the form the source has: record objects updated in
  place, a weight cache and a tick count replaced per step.  Every method is proved against the
  function of the same name in EvState; each is one atomic step under the table's lock.
 */
module EvTable {
  import opened Arith
  import opened Wrappers
  import opened Grids
  import opened EvState
  import opened EvInvariant

  lemma {:induction false} UsableCellStep(
    rs: seq<Rec>, planes: nat, paths: nat, plane: nat, path: nat, p: nat, q: nat)
    requires |rs| == planes * paths && plane < planes && path < paths && q < paths
    requires p * paths + paths <= |rs|
    ensures var i := Index(planes, paths, plane, path);
      UsableSoFar(rs, i, p * paths + q + 1) ==
      UsableSoFar(rs, i, p * paths + q) +
      if p == plane && q == path then 0 else IsUsable(rs[p * paths + q])
  {
    hide UsableSoFar, Usable;
    SameCell(paths, p, q, plane, path);
    UsableSoFarStep(rs, Index(planes, paths, plane, path), p * paths + q);
  }

  /** One EV's turn within a tick. */
  ghost function CellTicked(t: Table, i: nat): (t': Table)
    requires i < |t.recs|
    ensures |t'.recs| == |t.recs|
  {
    EvState.Evaluate(Put(t, i, Rotate(t.cfg, t.recs[i])), i)
  }

  /** A tick after its first `k` turns. */
  ghost function CellsDone(t: Table, k: nat): (t': Table)
    requires k <= |t.recs|
    ensures |t'.recs| == |t.recs|
  {
    if k == 0 then t else CellTicked(CellsDone(t, k - 1), k - 1)
  }

  lemma {:induction false} CellsDoneStep(t: Table, k: nat, t1: Table, t2: Table)
    requires k < |t.recs| && t1 == CellsDone(t, k) && t2 == CellTicked(t1, k)
    ensures t2 == CellsDone(t, k + 1)
  {
  }

  lemma {:induction false} CellsDoneIsTick(t: Table, k: nat)
    requires k <= |t.recs|
    ensures TickFrom(CellsDone(t, k), k) == TickFrom(t, 0)
  {
    hide EvState.Evaluate, Rotate, Put;
    if k > 0 { CellsDoneIsTick(t, k - 1); }
  }

  lemma {:induction false} AllCellsDone(t: Table)
    ensures CellsDone(t, |t.recs|) == TickFrom(t, 0)
  {
    CellsDoneIsTick(t, |t.recs|);
  }

  class EvRecord {
    var state: State
    var currentSent: nat
    var currentRecv: nat
    var buckets: seq<Bucket>
    var totalSent: nat
    var totalRecv: nat
    var healthy: nat
    var lossStreak: nat
    var lastLossRatio: real
    var lastProbeRatio: real
    var transitions: nat
    var suppressed: nat
    var lossDemoted: bool
    var level: nat
    var lastLossRecover: Option<nat>

    constructor ()
      ensures View() == FRESH
    {
      state, currentSent, currentRecv, buckets := Unknown, 0, 0, [];
      totalSent, totalRecv, healthy, lossStreak := 0, 0, 0, 0;
      lastLossRatio, lastProbeRatio, transitions, suppressed := 0.0, 0.0, 0, 0;
      lossDemoted, level, lastLossRecover := false, 0, None;
    }

    ghost function View(): Rec
      reads this
    {
      Rec(state, Bucket(currentSent, currentRecv), buckets, Bucket(totalSent, totalRecv),
          healthy, lossStreak, lastLossRatio, lastProbeRatio, transitions, suppressed,
          lossDemoted, level, lastLossRecover)
    }

    /** The backoff level and the mark that `_try_demote_locked` leaves. */
    method Mark(cfg: Config, byLoss: bool, now: nat)
      modifies this`level, this`lossDemoted
      ensures View() == old(View()).(level := DemoteLevel(cfg, old(View()), byLoss, now), lossDemoted := byLoss)
    {
      if byLoss {
        var recent := lastLossRecover.Some? && now - lastLossRecover.value < cfg.backoffResetTicks;
        level := if recent then Min(level + 1, cfg.backoffMaxLevel) else 0;
      }
      lossDemoted := byLoss;
    }

    /** The record's part of `_transition_locked`. */
    method Enter(s: State, now: nat)
      modifies this
      ensures View() == Entered(old(View()), s, now)
    {
      state := s;
      transitions := transitions + 1;
      if s == Good {
        healthy := 0;
        if lossDemoted {
          lastLossRecover := Some(now);
          lossDemoted := false;
        }
      }
      if s == AssumedBad {
        healthy := 0;
        lossStreak := 0;
      }
    }
  }

  ghost function Views(rs: seq<EvRecord>): (v: seq<Rec>)
    reads rs
    ensures |v| == |rs|
    ensures forall i :: 0 <= i < |rs| ==> v[i] == rs[i].View()
  {
    seq(|rs|, i requires 0 <= i < |rs| reads rs => rs[i].View())
  }

  /** Writing one record object changes one view of the views `v` from before. */
  lemma {:induction false} OneView(rs: seq<EvRecord>, v: seq<Rec>, k: nat)
    requires k < |rs| == |v|
    requires forall i :: 0 <= i < |rs| && i != k ==> rs[i].View() == v[i]
    ensures Views(rs) == v[k := rs[k].View()]
    ensures rs[k].state == v[k].state ==> FlatWeights(Views(rs)) == FlatWeights(v)
  {
    if rs[k].state == v[k].state { SameStates(v, Views(rs)); }
  }

  /** The probe events as updates of one record. */
  lemma {:induction false} ProbeSteps(t: Table, i: nat)
    requires i < |t.recs|
    ensures var r := t.recs[i];
      Step(t, ProbeSent(i)) == Put(t, i, r.(current := r.current.(sent := r.current.sent + 1),
                                            total := r.total.(sent := r.total.sent + 1)))
    ensures var r := t.recs[i];
      Step(t, ProbeRecv(i)) == Put(t, i, r.(current := r.current.(recv := r.current.recv + 1),
                                            total := r.total.(recv := r.total.recv + 1)))
  {
  }

  lemma {:induction false} UsableSnoc(rs: seq<Rec>, lo: nat, k: nat)
    requires lo <= k < |rs|
    ensures Usable(rs[lo..k + 1]) == Usable(rs[lo..k]) + IsUsable(rs[k])
  {
    assert rs[lo..k + 1] == rs[lo..k] + [rs[k]];
    UsableConcat(rs[lo..k], [rs[k]]);
  }

  /** The usable EVs among the first `k`, skipping EV `i`: the loop of a demote attempt so far. */
  ghost function UsableSoFar(rs: seq<Rec>, i: nat, k: nat): nat
    requires i < |rs| && k <= |rs|
  {
    if k <= i then Usable(rs[..k]) else Usable(rs[..i]) + Usable(rs[i + 1..k])
  }

  lemma {:induction false} UsableSoFarEnds(rs: seq<Rec>, i: nat)
    requires i < |rs|
    ensures UsableSoFar(rs, i, 0) == 0
    ensures UsableSoFar(rs, i, |rs|) == UsableWithout(rs, i)
  {
    assert rs[i + 1..|rs|] == rs[i + 1..];
  }

  lemma {:induction false} UsableSoFarStep(rs: seq<Rec>, i: nat, k: nat)
    requires i < |rs| && k < |rs|
    ensures UsableSoFar(rs, i, k + 1) ==
      UsableSoFar(rs, i, k) + if k == i then 0 else IsUsable(rs[k])
  {
    if k < i {
      UsableSnoc(rs, 0, k);
      assert rs[0..k] == rs[..k] && rs[0..k + 1] == rs[..k + 1];
    } else if k > i {
      UsableSnoc(rs, i + 1, k);
    } else {
      assert rs[i + 1..i + 1] == [];
    }
  }

  lemma {:induction false} SumAppend(w: seq<real>, x: real)
    ensures Sum(w + [x]) == Sum(w) + x
  {
    SumSnoc(w + [x], |w|);
    assert (w + [x])[..|w| + 1] == w + [x] && (w + [x])[..|w|] == w;
  }

  method SumRows(raw: seq<seq<real>>) returns (total: real)
    ensures total == Sum(Flatten(raw))
  {
    total := 0.0;
    for p := 0 to |raw|
      invariant total == Sum(Flatten(raw[..p]))
    {
      assert Flatten(raw[..p]) + raw[p][..0] == Flatten(raw[..p]);
      for q := 0 to |raw[p]|
        invariant total == Sum(Flatten(raw[..p]) + raw[p][..q])
      {
        SumAppend(Flatten(raw[..p]) + raw[p][..q], raw[p][q]);
        assert Flatten(raw[..p]) + raw[p][..q] + [raw[p][q]] == Flatten(raw[..p]) + raw[p][..q + 1];
        total := total + raw[p][q];
      }
      assert raw[p][..|raw[p]|] == raw[p];
      assert raw[..p + 1][..p] == raw[..p];
    }
    assert raw[..|raw|] == raw;
  }

  function UniformGrid(planes: nat, paths: nat): (g: seq<seq<real>>)
    ensures |g| == planes
    ensures forall p :: 0 <= p < planes ==> |g[p]| == paths
    ensures forall p, q :: 0 <= p < planes && 0 <= q < paths ==>
      planes * paths > 0 && g[p][q] == 1.0 / (planes * paths) as real
  {
    seq(planes, p requires 0 <= p < planes =>
      seq(paths, q requires 0 <= q < paths => UniformShare(planes, paths, p, q)))
  }

  function UniformShare(planes: nat, paths: nat, p: nat, q: nat): (w: real)
    requires p < planes && q < paths
    ensures planes * paths > 0 && w == 1.0 / (planes * paths) as real
  {
    IndexBound(planes, paths, p, q);
    1.0 / (planes * paths) as real
  }

  function DividedGrid(raw: seq<seq<real>>, total: real): (g: seq<seq<real>>)
    requires total > 0.0
    ensures |g| == |raw|
    ensures forall p :: 0 <= p < |raw| ==> |g[p]| == |raw[p]|
    ensures forall p, q :: 0 <= p < |raw| && 0 <= q < |raw[p]| ==> g[p][q] == raw[p][q] / total
  {
    seq(|raw|, p requires 0 <= p < |raw| =>
      seq(|raw[p]|, q requires 0 <= q < |raw[p]| => raw[p][q] / total))
  }

  lemma {:induction false} SharedGrid(recs: seq<Rec>, planes: nat, paths: nat, total: real)
    requires |recs| == planes * paths && total == Sum(RawWeights(recs))
    ensures Grid(FlatWeights(recs), planes, paths) ==
      if total <= 0.0 then UniformGrid(planes, paths)
      else DividedGrid(Grid(RawWeights(recs), planes, paths), total)
  {
    var raw, g := RawWeights(recs), Grid(FlatWeights(recs), planes, paths);
    if total <= 0.0 {
      var u := UniformGrid(planes, paths);
      forall p | 0 <= p < planes ensures g[p] == u[p] {
        assert forall q :: 0 <= q < paths ==> g[p][q] == u[p][q];
      }
    } else {
      var d := DividedGrid(Grid(raw, planes, paths), total);
      forall p | 0 <= p < planes ensures g[p] == d[p] {
        assert forall q :: 0 <= q < paths ==> g[p][q] == d[p][q];
      }
    }
  }

  /** The two branches of the cache rebuild publish FlatWeights. */
  lemma {:induction false} PublishedGrid(recs: seq<Rec>, planes: nat, paths: nat, raw: seq<seq<real>>, total: real)
    requires |recs| == planes * paths
    requires raw == Grid(RawWeights(recs), planes, paths) && total == Sum(Flatten(raw))
    ensures Grid(FlatWeights(recs), planes, paths) ==
      if total <= 0.0 then UniformGrid(planes, paths) else DividedGrid(raw, total)
  {
    FlattenGrid(RawWeights(recs), planes, paths);
    SharedGrid(recs, planes, paths, total);
  }

  /** One EV's entry of a snapshot. */
  datatype EvEntry = EvEntry(
    plane: nat, path: nat, state: State, window: Bucket, total: Bucket, healthy: nat, lossStreak: nat,
    transitions: nat, suppressed: nat, level: nat, weight: real)

  ghost function EntryOf(t: Table, plane: nat, path: nat): EvEntry
    requires Shaped(t) && plane < t.planes && path < t.paths
  {
    var r := t.recs[Index(t.planes, t.paths, plane, path)];
    EvEntry(plane, path, r.state, Bucket(SumSent(r.buckets), SumRecv(r.buckets)), r.total,
      r.healthy, r.lossStreak, r.transitions, r.suppressed, r.level, Published(t)[plane][path])
  }

  ghost function EntryGrid(t: Table): (g: seq<seq<EvEntry>>)
    requires Shaped(t)
    ensures |g| == t.planes
    ensures forall p :: 0 <= p < t.planes ==> |g[p]| == t.paths
    ensures forall p, q :: 0 <= p < t.planes && 0 <= q < t.paths ==> g[p][q] == EntryOf(t, p, q)
  {
    seq(t.planes, p requires 0 <= p < t.planes =>
      seq(t.paths, q requires 0 <= q < t.paths => EntryOf(t, p, q)))
  }

  /** One tenant's snapshot: every EV once, in (plane, path) order. */
  ghost function SnapshotOf(t: Table): seq<EvEntry>
    requires Shaped(t)
  {
    Flatten(EntryGrid(t))
  }

  method FreshRecords(n: nat) returns (rs: seq<EvRecord>)
    ensures |rs| == n && Distinct(rs)
    ensures forall i :: 0 <= i < n ==> fresh(rs[i])
    ensures Views(rs) == FreshRecs(n)
  {
    rs := [];
    for k := 0 to n
      invariant |rs| == k && Distinct(rs)
      invariant forall i :: 0 <= i < k ==> fresh(rs[i]) && rs[i].View() == FRESH
    {
      var r := new EvRecord();
      rs := rs + [r];
    }
  }

  /** `n` record objects per tenant, no object used twice. */
  ghost predicate Apart(evs: map<string, seq<EvRecord>>, n: nat) {
    && (forall t :: t in evs ==> |evs[t]| == n && Distinct(evs[t]))
    && (forall t, u, i, j :: t in evs && u in evs && t != u && 0 <= i < |evs[t]| && 0 <= j < |evs[u]| ==>
          evs[t][i] != evs[u][j])
  }

  method FreshGrid(tenants: seq<string>, n: nat) returns (all: map<string, seq<EvRecord>>)
    ensures all.Keys == (set t | t in tenants) && Apart(all, n)
    ensures forall t :: t in all ==> Views(all[t]) == FreshRecs(n)
  {
    hide Apart;
    assert Apart(map[], n) by { NothingApart(n); }
    all := map[];
    for k := 0 to |tenants|
      invariant all.Keys == (set t | t in tenants[..k]) && Apart(all, n)
      invariant forall t :: t in all ==> Views(all[t]) == FreshRecs(n)
    {
      all := AddTenant(all, tenants[k], n);
      assert tenants[..k + 1] == tenants[..k] + [tenants[k]];
    }
    assert tenants[..|tenants|] == tenants;
  }

  lemma {:induction false} NothingApart(n: nat)
    ensures Apart(map[], n)
  {
  }

  method AddTenant(all: map<string, seq<EvRecord>>, tenant: string, n: nat) returns (all': map<string, seq<EvRecord>>)
    requires Apart(all, n)
    ensures Apart(all', n) && tenant in all' && all' == all[tenant := all'[tenant]]
    ensures Views(all'[tenant]) == FreshRecs(n)
  {
    var rs := FreshRecords(n);
    all' := all[tenant := rs];
  }

  class EvStateTable {
    const planes: nat
    const paths: nat
    const cfg: Config
    const minActive: int
    const evs: map<string, seq<EvRecord>>
    var weightsCache: map<string, seq<seq<real>>>
    var ticks: map<string, nat>

    /** The shape of the object graph. */
    ghost predicate Wired()
      reads this
    {
      weightsCache.Keys == evs.Keys && ticks.Keys == evs.Keys && Apart(evs, planes * paths)
    }

    /** The invariant of one tenant: its cached grid is the one its record states call for. */
    ghost predicate Valid(t: string)
      reads this, if t in evs then evs[t] else []
    {
      Wired() && t in evs && weightsCache[t] == Grid(FlatWeights(Views(evs[t])), planes, paths)
    }

    /** One tenant's slice as a value. */
    ghost function Abs(tenant: string): (t: Table)
      requires tenant in evs && Wired()
      reads this, evs[tenant]
      ensures Shaped(t)
    {
      Table(cfg, planes, paths, minActive, Views(evs[tenant]), ticks[tenant])
    }

    /** `__init__`, which raises unless there is a tenant, a plane and a path. */
    static method Create(tenants: seq<string>, planes: int, paths: int, cfg: Config)
      returns (r: Result<EvStateTable, string>)
      ensures r.Ok? <==> tenants != [] && planes >= 1 && paths >= 1
      ensures r.Ok? ==> fresh(r.value) && r.value.Wired() && r.value.evs.Keys == (set t | t in tenants)
      ensures r.Ok? ==> forall t :: t in r.value.evs ==>
        r.value.Valid(t) && r.value.Abs(t) == Init(cfg, planes, paths)
    {
      if tenants == [] { return Err("tenants must be non-empty"); }
      if planes < 1 { return Err("num_planes must be >= 1"); }
      if paths < 1 { return Err("num_paths must be >= 1"); }
      hide FlatWeights, Grid;
      var all := FreshGrid(tenants, planes * paths);
      var table := new EvStateTable(planes, paths, cfg, all);
      table.FillWeights();
      return Ok(table);
    }

    constructor (planes: nat, paths: nat, cfg: Config, all: map<string, seq<EvRecord>>)
      requires Apart(all, planes * paths)
      ensures Wired() && evs == all
      ensures forall t :: t in evs && Views(evs[t]) == FreshRecs(planes * paths) ==>
        Abs(t) == Init(cfg, planes, paths)
    {
      this.planes, this.paths, this.cfg := planes, paths, cfg;
      minActive := cfg.ResolveMinActive(planes * paths);
      evs := all;
      weightsCache := map t | t in all :: [];
      ticks := map t | t in all :: 0;
    }

    method FillWeights()
      requires Wired()
      modifies this`weightsCache
      ensures Wired() && forall t :: t in evs ==> Valid(t) && Abs(t) == old(Abs(t))
    {
      var todo := evs.Keys;
      while todo != {}
        invariant Wired() && todo <= evs.Keys
        invariant forall t :: t in evs && t !in todo ==> Valid(t)
        decreases todo
      {
        var t :| t in todo;
        RebuildWeights(t);
        todo := todo - {t};
      }
    }

    /** The state weights of one plane. */
    method WeighRow(tenant: string, p: nat) returns (row: seq<real>)
      requires Wired() && tenant in evs && p < planes
      ensures p * paths + paths <= planes * paths
      ensures row == RawWeights(Views(evs[tenant]))[p * paths..p * paths + paths]
    {
      GridRow(RawWeights(Views(evs[tenant])), planes, paths, p);
      row := [];
      for q := 0 to paths
        invariant row == RawWeights(Views(evs[tenant]))[p * paths..p * paths + q]
      {
        row := row + [Weight(evs[tenant][p * paths + q].state)];
      }
    }

    /** The state weights as a grid. */
    method WeighStates(tenant: string) returns (raw: seq<seq<real>>)
      requires Wired() && tenant in evs
      ensures raw == Grid(RawWeights(Views(evs[tenant])), planes, paths)
    {
      ghost var want := RawWeights(Views(evs[tenant]));
      raw := [];
      for p := 0 to planes
        invariant |raw| == p
        invariant forall r :: 0 <= r < p ==> raw[r] == Grid(want, planes, paths)[r]
      {
        var row := WeighRow(tenant, p);
        GridRow(want, planes, paths, p);
        raw := raw + [row];
      }
    }

    /** The grid a rebuild publishes. */
    method ComputeWeights(tenant: string) returns (g: seq<seq<real>>)
      requires Wired() && tenant in evs
      ensures g == Grid(FlatWeights(Views(evs[tenant])), planes, paths)
    {
      var raw := WeighStates(tenant);
      var total := SumRows(raw);
      PublishedGrid(Views(evs[tenant]), planes, paths, raw, total);
      g := if total <= 0.0 then UniformGrid(planes, paths) else DividedGrid(raw, total);
    }

    /** `_rebuild_weights_locked`. */
    method RebuildWeights(tenant: string)
      requires Wired() && tenant in evs
      modifies this`weightsCache
      ensures Valid(tenant)
      ensures weightsCache == old(weightsCache)[tenant := weightsCache[tenant]]
    {
      var g := ComputeWeights(tenant);
      weightsCache := weightsCache[tenant := g];
    }

    /** `_transition_locked`. */
    method Transition(tenant: string, i: nat, s: State)
      requires Valid(tenant) && i < planes * paths
      modifies this`weightsCache, evs[tenant][i]
      ensures Valid(tenant)
      ensures Abs(tenant) == EvState.Transition(old(Abs(tenant)), i, s)
      ensures weightsCache == old(weightsCache)[tenant := weightsCache[tenant]]
    {
      var rec := evs[tenant][i];
      ghost var v := Views(evs[tenant]);
      if rec.state != s {
        rec.Enter(s, ticks[tenant]);
        OneView(evs[tenant], v, i);
        RebuildWeights(tenant);
      }
    }

    /** `_try_demote_locked`: counts the other usable EVs, then demotes or records a suppression. */
    method TryDemote(tenant: string, plane: nat, path: nat, byLoss: bool)
      requires Valid(tenant) && plane < planes && path < paths
      modifies this`weightsCache, evs[tenant][Index(planes, paths, plane, path)]
      ensures Valid(tenant)
      ensures Abs(tenant) ==
        EvState.TryDemote(old(Abs(tenant)), Index(planes, paths, plane, path), byLoss)
      ensures weightsCache == old(weightsCache)[tenant := weightsCache[tenant]]
    {
      hide FlatWeights, Grid, Usable, EvState.Transition, UsableWithout, DemoteLevel;
      var i := Index(planes, paths, plane, path);
      var rec := evs[tenant][i];
      ghost var t := Abs(tenant);
      ghost var r, v := rec.View(), Views(evs[tenant]);
      var usableAfter := CountOthers(tenant, plane, path);
      if usableAfter < minActive {
        rec.suppressed := rec.suppressed + 1;
        OneView(evs[tenant], v, i);
        assert Abs(tenant) == Put(t, i, rec.View());
        return;
      }
      rec.Mark(cfg, byLoss, ticks[tenant]);
      OneView(evs[tenant], v, i);
      assert Abs(tenant) == Put(t, i, rec.View());
      Transition(tenant, i, AssumedBad);
    }

    method CountOthers(tenant: string, plane: nat, path: nat) returns (usableAfter: nat)
      requires Wired() && tenant in evs && plane < planes && path < paths
      ensures usableAfter == UsableWithout(Views(evs[tenant]), Index(planes, paths, plane, path))
    {
      hide Usable, UsableSoFar;
      ghost var i := Index(planes, paths, plane, path);
      ghost var v := Views(evs[tenant]);
      UsableSoFarEnds(v, i);
      usableAfter := 0;
      for p := 0 to planes
        invariant p * paths <= |v|
        invariant usableAfter == UsableSoFar(v, i, p * paths)
      {
        RowEnd(planes, paths, p);
        usableAfter := CountRow(tenant, plane, path, p, usableAfter);
      }
    }

    method CountRow(tenant: string, plane: nat, path: nat, p: nat, before: nat) returns (usableAfter: nat)
      requires Wired() && tenant in evs && plane < planes && path < paths
      requires p < planes && p * paths + paths <= planes * paths
      requires before == UsableSoFar(Views(evs[tenant]), Index(planes, paths, plane, path), p * paths)
      ensures usableAfter ==
        UsableSoFar(Views(evs[tenant]), Index(planes, paths, plane, path), p * paths + paths)
    {
      hide Usable, UsableSoFar;
      usableAfter := before;
      for q := 0 to paths
        invariant usableAfter ==
          UsableSoFar(Views(evs[tenant]), Index(planes, paths, plane, path), p * paths + q)
      {
        UsableCellStep(Views(evs[tenant]), planes, paths, plane, path, p, q);
        if !(p == plane && q == path) && evs[tenant][p * paths + q].state != AssumedBad {
          usableAfter := usableAfter + 1;
        }
      }
    }

    static method SumBuckets(b: seq<Bucket>) returns (sent: nat, recv: nat)
      ensures sent == SumSent(b) && recv == SumRecv(b)
    {
      sent, recv := 0, 0;
      for k := 0 to |b|
        invariant sent + SumSent(b[k..]) == SumSent(b)
        invariant recv + SumRecv(b[k..]) == SumRecv(b)
      {
        assert b[k..][1..] == b[k + 1..];
        sent := sent + b[k].sent;
        recv := recv + b[k].recv;
      }
    }

    /** `_evaluate_locked`. */
    method Evaluate(tenant: string, plane: nat, path: nat)
      requires Valid(tenant) && plane < planes && path < paths
      modifies this`weightsCache, evs[tenant][Index(planes, paths, plane, path)]
      ensures Valid(tenant)
      ensures Abs(tenant) == EvState.Evaluate(old(Abs(tenant)), Index(planes, paths, plane, path))
      ensures weightsCache == old(weightsCache)[tenant := weightsCache[tenant]]
    {
      var sent, recv := SumBuckets(evs[tenant][Index(planes, paths, plane, path)].buckets);
      Judge(tenant, plane, path, sent, recv);
    }

    /** The demote and recover rules on window totals. */
    method Judge(tenant: string, plane: nat, path: nat, sent: nat, recv: nat)
      requires Valid(tenant) && plane < planes && path < paths
      modifies this`weightsCache, evs[tenant][Index(planes, paths, plane, path)]
      ensures Valid(tenant)
      ensures Abs(tenant) ==
        EvState.Judge(old(Abs(tenant)), Index(planes, paths, plane, path), sent, recv)
      ensures weightsCache == old(weightsCache)[tenant := weightsCache[tenant]]
    {
      hide FlatWeights, Grid, Usable, UsableWithout, EvState.TryDemote, EvState.Transition;
      var i := Index(planes, paths, plane, path);
      var rec := evs[tenant][i];
      ghost var t, v := Abs(tenant), Views(evs[tenant]);
      if sent == 0 {
        rec.lastProbeRatio := 0.0;
        OneView(evs[tenant], v, i);
        return;
      }
      var ratio := ProbeRatio(sent, recv);
      rec.lastProbeRatio := ratio;
      if sent < cfg.minSamples {
        rec.healthy := 0;
        OneView(evs[tenant], v, i);
        return;
      }
      if ratio < cfg.failRatio {
        rec.healthy := 0;
        OneView(evs[tenant], v, i);
        assert Abs(tenant) == Put(t, i, rec.View());
        if rec.state != AssumedBad {
          TryDemote(tenant, plane, path, false);
        }
        return;
      }
      if ratio >= cfg.recoverRatio {
        rec.healthy := rec.healthy + 1;
        OneView(evs[tenant], v, i);
        assert Abs(tenant) == Put(t, i, rec.View());
        var hold := cfg.recoverTicks;
        if rec.lossDemoted {
          hold := hold * Pow2(rec.level);
        }
        if rec.state != Good && rec.lossStreak == 0 && rec.healthy >= hold {
          Transition(tenant, i, Good);
        }
        return;
      }
      rec.healthy := 0;
      OneView(evs[tenant], v, i);
    }

    /** The record objects of a tenant, as a frame. */
    ghost function Records(tenant: string): set<object> {
      if tenant in evs then set r | r in evs[tenant] else {}
    }

    /** `tick`: one bucket rotation and evaluation per EV, row-major. */
    method Tick(tenant: string) returns (ok: bool)
      requires Wired() && (tenant in evs ==> Valid(tenant))
      modifies this`weightsCache, this`ticks, Records(tenant)
      ensures Wired() && (tenant in evs ==> Valid(tenant))
      ensures ok == (tenant in evs)
      ensures ok ==> Abs(tenant) == EvState.Tick(old(Abs(tenant)))
      ensures ok ==> weightsCache == old(weightsCache)[tenant := weightsCache[tenant]]
      ensures ok ==> ticks == old(ticks)[tenant := ticks[tenant]]
      ensures !ok ==> weightsCache == old(weightsCache) && ticks == old(ticks)
    {
      hide TickFrom, FlatWeights, Grid;
      if tenant !in evs { return false; }
      ticks := ticks[tenant := ticks[tenant] + 1];
      TickAll(tenant);
      return true;
    }

    method TickAll(tenant: string)
      requires Valid(tenant)
      modifies this`weightsCache, Records(tenant)
      ensures Valid(tenant)
      ensures Abs(tenant) == TickFrom(old(Abs(tenant)), 0)
      ensures weightsCache == old(weightsCache)[tenant := weightsCache[tenant]]
    {
      hide CellTicked, TickFrom, FlatWeights, Grid, Index, Records;
      ghost var t := Abs(tenant);
      for plane := 0 to planes
        invariant Valid(tenant) && plane * paths <= planes * paths
        invariant Abs(tenant) == CellsDone(t, plane * paths)
        invariant weightsCache == old(weightsCache)[tenant := weightsCache[tenant]]
      {
        RowEnd(planes, paths, plane);
        TickPlane(tenant, plane, t, plane * paths);
      }
      AllCellsDone(t);
    }

    /** The inner loop of `tick`, from the row's first EV `base` on. */
    method TickPlane(tenant: string, plane: nat, ghost t: Table, ghost base: nat)
      requires Valid(tenant) && plane < planes && base == plane * paths
      requires base + paths <= |t.recs| && Abs(tenant) == CellsDone(t, base)
      modifies this`weightsCache, Records(tenant)
      ensures Valid(tenant)
      ensures Abs(tenant) == CellsDone(t, base + paths)
      ensures weightsCache == old(weightsCache)[tenant := weightsCache[tenant]]
    {
      hide CellsDone, CellTicked, FlatWeights, Grid, Index, Records;
      ghost var i := base;
      for path := 0 to paths
        invariant Valid(tenant) && i == base + path
        invariant Abs(tenant) == CellsDone(t, i)
        invariant weightsCache == old(weightsCache)[tenant := weightsCache[tenant]]
      {
        TickNext(tenant, plane, path, t, i);
        i := i + 1;
      }
    }

    method TickNext(tenant: string, plane: nat, path: nat, ghost t: Table, ghost i: nat)
      requires Valid(tenant) && plane < planes && path < paths && i == plane * paths + path
      requires i < |t.recs| && Abs(tenant) == CellsDone(t, i)
      modifies this`weightsCache, Records(tenant)
      ensures Valid(tenant)
      ensures Abs(tenant) == CellsDone(t, i + 1)
      ensures weightsCache == old(weightsCache)[tenant := weightsCache[tenant]]
    {
      hide CellsDone, CellTicked, FlatWeights, Grid;
      ghost var before := Abs(tenant);
      TickCell(tenant, plane, path);
      CellsDoneStep(t, i, before, Abs(tenant));
    }

    method TickCell(tenant: string, plane: nat, path: nat)
      requires Valid(tenant) && plane < planes && path < paths
      modifies this`weightsCache, evs[tenant][Index(planes, paths, plane, path)]
      ensures Valid(tenant)
      ensures Abs(tenant) == CellTicked(old(Abs(tenant)), Index(planes, paths, plane, path))
      ensures weightsCache == old(weightsCache)[tenant := weightsCache[tenant]]
    {
      var i := Index(planes, paths, plane, path);
      var rec := evs[tenant][i];
      ghost var t, v := Abs(tenant), Views(evs[tenant]);
      rec.buckets := Push(rec.buckets, Bucket(rec.currentSent, rec.currentRecv), cfg.windowTicks);
      rec.currentSent := 0;
      rec.currentRecv := 0;
      assert rec.View() == Rotate(cfg, v[i]);
      OneView(evs[tenant], v, i);
      assert Abs(tenant) == Put(t, i, Rotate(cfg, v[i]));
      Evaluate(tenant, plane, path);
    }

    ghost predicate Known(tenant: string, plane: int, path: int) {
      tenant in evs && 0 <= plane < planes && 0 <= path < paths
    }

    /** The record object of a known EV, as a frame. */
    ghost function Cell(tenant: string, plane: int, path: int): set<object>
      requires Wired()
      reads this
    {
      if Known(tenant, plane, path) then {evs[tenant][Index(planes, paths, plane, path)]} else {}
    }

    /** The increments of `record_probe_sent`. */
    method CountSent(tenant: string, i: nat)
      requires Valid(tenant) && i < planes * paths
      modifies evs[tenant][i]
      ensures Valid(tenant)
      ensures Abs(tenant) == Step(old(Abs(tenant)), ProbeSent(i))
    {
      var rec := evs[tenant][i];
      ghost var t, v := Abs(tenant), Views(evs[tenant]);
      ProbeSteps(t, i);
      hide Step, FlatWeights, Grid;
      rec.currentSent := rec.currentSent + 1;
      rec.totalSent := rec.totalSent + 1;
      OneView(evs[tenant], v, i);
      assert Abs(tenant) == t.(recs := Views(evs[tenant]));
    }

    /** `record_probe_sent`; `ok` is false where the source raises. */
    method RecordProbeSent(tenant: string, plane: int, path: int) returns (ok: bool)
      requires Wired() && (tenant in evs ==> Valid(tenant))
      modifies Cell(tenant, plane, path)
      ensures Wired() && (tenant in evs ==> Valid(tenant))
      ensures ok == Known(tenant, plane, path)
      ensures ok ==> Abs(tenant) == Step(old(Abs(tenant)), ProbeSent(Index(planes, paths, plane, path)))
    {
      if !(tenant in evs && 0 <= plane < planes && 0 <= path < paths) { return false; }
      hide Step, FlatWeights, Grid;
      CountSent(tenant, Index(planes, paths, plane, path));
      return true;
    }

    /** The increments of `record_probe_recv`. */
    method CountRecv(tenant: string, i: nat)
      requires Valid(tenant) && i < planes * paths
      modifies evs[tenant][i]
      ensures Valid(tenant)
      ensures Abs(tenant) == Step(old(Abs(tenant)), ProbeRecv(i))
    {
      var rec := evs[tenant][i];
      ghost var t, v := Abs(tenant), Views(evs[tenant]);
      ProbeSteps(t, i);
      hide Step, FlatWeights, Grid;
      rec.currentRecv := rec.currentRecv + 1;
      rec.totalRecv := rec.totalRecv + 1;
      OneView(evs[tenant], v, i);
      assert Abs(tenant) == t.(recs := Views(evs[tenant]));
    }

    /** `record_probe_recv`. */
    method RecordProbeRecv(tenant: string, plane: int, path: int) returns (ok: bool)
      requires Wired() && (tenant in evs ==> Valid(tenant))
      modifies Cell(tenant, plane, path)
      ensures Wired() && (tenant in evs ==> Valid(tenant))
      ensures ok == Known(tenant, plane, path)
      ensures ok ==> Abs(tenant) == Step(old(Abs(tenant)), ProbeRecv(Index(planes, paths, plane, path)))
    {
      if !(tenant in evs && 0 <= plane < planes && 0 <= path < paths) { return false; }
      hide Step, FlatWeights, Grid;
      CountRecv(tenant, Index(planes, paths, plane, path));
      return true;
    }

    /** `record_loss_window`; negative counts raise like an unknown EV. */
    method RecordLossWindow(tenant: string, plane: int, path: int, seen: int, expected: int)
      returns (ok: bool)
      requires Wired() && (tenant in evs ==> Valid(tenant))
      modifies this`weightsCache, Cell(tenant, plane, path)
      ensures Wired() && (tenant in evs ==> Valid(tenant))
      ensures ok == (Known(tenant, plane, path) && seen >= 0 && expected >= 0)
      ensures ok ==>
        Abs(tenant) == Step(old(Abs(tenant)), Loss(Index(planes, paths, plane, path), seen, expected))
      ensures ok ==> weightsCache == old(weightsCache)[tenant := weightsCache[tenant]]
      ensures !ok ==> weightsCache == old(weightsCache)
    {
      if !(tenant in evs && 0 <= plane < planes && 0 <= path < paths) { return false; }
      if seen < 0 || expected < 0 { return false; }
      if expected == 0 { return true; }
      NoteLoss(tenant, plane, path, LossRatio(seen, expected));
      return true;
    }

    /** The loss rules on a ratio, under the lock. */
    method NoteLoss(tenant: string, plane: nat, path: nat, ratio: real)
      requires Valid(tenant) && plane < planes && path < paths
      modifies this`weightsCache, evs[tenant][Index(planes, paths, plane, path)]
      ensures Valid(tenant)
      ensures Abs(tenant) == EvState.NoteLoss(old(Abs(tenant)), Index(planes, paths, plane, path), ratio)
      ensures weightsCache == old(weightsCache)[tenant := weightsCache[tenant]]
    {
      hide FlatWeights, Grid, Usable, UsableWithout, EvState.TryDemote, EvState.Transition;
      var i := Index(planes, paths, plane, path);
      var rec := evs[tenant][i];
      ghost var t, v := Abs(tenant), Views(evs[tenant]);
      rec.lastLossRatio := ratio;
      if ratio > cfg.lossThreshold {
        rec.lossStreak := rec.lossStreak + 1;
        OneView(evs[tenant], v, i);
        assert Abs(tenant) == Put(t, i, rec.View());
        if rec.state != AssumedBad && rec.lossStreak >= cfg.lossDemoteConsecutive {
          TryDemote(tenant, plane, path, true);
        }
      } else {
        if ratio <= cfg.lossThreshold / 2.0 {
          rec.lossStreak := 0;
        }
        OneView(evs[tenant], v, i);
      }
    }

    /** `weights_ev`: the cached grid, read without the lock. */
    method WeightsEv(tenant: string) returns (w: Option<seq<seq<real>>>)
      requires Wired() && (tenant in evs ==> Valid(tenant))
      ensures w == if tenant in evs then Some(Published(Abs(tenant))) else None
    {
      if tenant !in evs { return None; }
      return Some(weightsCache[tenant]);
    }

    /** `state`. */
    method StateOf(tenant: string, plane: int, path: int) returns (s: Option<State>)
      requires Wired() && (tenant in evs ==> Valid(tenant))
      ensures s == if Known(tenant, plane, path)
        then Some(Abs(tenant).recs[Index(planes, paths, plane, path)].state) else None
    {
      if !(tenant in evs && 0 <= plane < planes && 0 <= path < paths) { return None; }
      return Some(evs[tenant][Index(planes, paths, plane, path)].state);
    }

    /** One tenant's part of `snapshot`. */
    method Snapshot(tenant: string) returns (entries: seq<EvEntry>)
      requires Valid(tenant)
      ensures entries == SnapshotOf(Abs(tenant))
    {
      ghost var g := EntryGrid(Abs(tenant));
      entries := [];
      for plane := 0 to planes
        invariant entries == Flatten(g[..plane])
      {
        var row := SnapshotRow(tenant, plane);
        assert row == g[plane] && g[..plane + 1][..plane] == g[..plane];
        entries := entries + row;
      }
      assert g[..planes] == g;
    }

    method SnapshotRow(tenant: string, plane: nat) returns (row: seq<EvEntry>)
      requires Valid(tenant) && plane < planes
      ensures |row| == paths
      ensures forall q :: 0 <= q < paths ==> row[q] == EntryOf(Abs(tenant), plane, q)
    {
      row := [];
      for path := 0 to paths
        invariant |row| == path
        invariant forall q :: 0 <= q < path ==> row[q] == EntryOf(Abs(tenant), plane, q)
      {
        var rec := evs[tenant][Index(planes, paths, plane, path)];
        var sent, recv := SumBuckets(rec.buckets);
        row := row + [EvEntry(plane, path, rec.state, Bucket(sent, recv), Bucket(rec.totalSent, rec.totalRecv),
          rec.healthy, rec.lossStreak, rec.transitions, rec.suppressed, rec.level,
          weightsCache[tenant][plane][path])];
      }
    }
  }
}
