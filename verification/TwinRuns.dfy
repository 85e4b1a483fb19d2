/**
  The live policy and its snapshot twin over whole runs: a table that moves, a snapshot file that its
  publisher writes and that may go missing, stale or bad, a twin that refreshes when it likes, and
  picks, some of which read their grid before later refreshes swap it.
 */
module TwinRuns {
  import opened Wrappers
  import opened EvState
  import opened EvInvariant
  import opened LossRuns
  import opened SpineSelect
  import opened Policy
  import opened SnapshotTwin

  /** Whom the twin works for. */
  datatype Setup = Setup(tenant: string, planes: nat, paths: nat, pathsPerPlane: nat)

  /**
    The table, the file and the table it was written from (none when it holds no grid), the time stamp
    and the table of the last file a refresh loaded, and the tables behind the grids read for picks
    that are still to finish.
   */
  datatype World = World(
    table: Table, file: FileView, published: Option<Table>, lastMtime: real, loaded: Table, held: seq<Table>)

  datatype Action =
    | TableEvent(e: LoopEvent)
    | WriteFile(file: FileView)
    | Refresh
    | Pick(flow: FlowKey, n: nat)
    | ReadGrid
    | FinishPick(k: nat, flow: FlowKey, n: nat)

  ghost predicate SetupOk(c: Setup) { c.planes >= 1 && 1 <= c.pathsPerPlane <= c.paths }

  ghost predicate TableOk(c: Setup, t: Table) { Inv(t) && t.planes == c.planes && t.paths == c.paths }

  /** The file is a snapshot of table `t`, flat or wrapped. */
  ghost predicate WrittenFrom(c: Setup, file: FileView, t: Table)
    requires Shaped(t)
  {
    file.Present? && file.content.Parsed? && Carries(file.content.doc, t, c.tenant)
  }

  ghost predicate NoGrid(c: Setup, file: FileView) {
    file.Present? && file.content.Parsed? ==>
      forall g :: !HoldsGrid(file.content.doc, c.planes, c.paths, c.tenant, g)
  }

  ghost predicate WorldOk(c: Setup, w: World) {
    && SetupOk(c) && TableOk(c, w.table) && TableOk(c, w.loaded)
    && (forall k :: 0 <= k < |w.held| ==> TableOk(c, w.held[k]))
    && match w.published
       case None => NoGrid(c, w.file)
       case Some(t) => TableOk(c, t) && WrittenFrom(c, w.file, t)
  }

  /** Files are written by the publisher, from the table as it is, or are no snapshot at all. */
  ghost predicate Honest(c: Setup, w: World, a: Action)
    requires WorldOk(c, w)
  {
    a.WriteFile? ==> WrittenFrom(c, a.file, w.table) || NoGrid(c, a.file)
  }

  /** A refresh finds a newer snapshot. */
  ghost predicate Newer(w: World) { w.file.Present? && w.file.mtime > w.lastMtime && w.published.Some? }

  ghost function Refreshed(w: World): World {
    if Newer(w) then w.(lastMtime := w.file.mtime, loaded := w.published.value) else w
  }

  ghost function Next(c: Setup, w: World, a: Action): (w': World)
    requires WorldOk(c, w) && Honest(c, w, a)
    ensures WorldOk(c, w')
  {
    match a
    case TableEvent(e) => LoopStepInv(w.table, e); w.(table := LoopStep(w.table, e))
    case WriteFile(f) => w.(file := f, published := if WrittenFrom(c, f, w.table) then Some(w.table) else None)
    case Refresh => Refreshed(w)
    case ReadGrid => w.(held := w.held + [w.loaded])
    case _ => w
  }

  ghost predicate HonestRun(c: Setup, w: World, acts: seq<Action>)
    requires WorldOk(c, w)
    decreases |acts|
  {
    acts == [] || (Honest(c, w, acts[0]) && HonestRun(c, Next(c, w, acts[0]), acts[1..]))
  }

  /** What the live policy would pick: on the table last loaded, or on the one behind the grid read. */
  ghost function Expected(c: Setup, w: World, a: Action): Option<(nat, nat)>
    requires WorldOk(c, w)
  {
    match a
    case Pick(flow, n) => Some(LivePick(w.loaded, flow, c.pathsPerPlane, n))
    case FinishPick(k, flow, n) =>
      if k < |w.held| then Some(LivePick(w.held[k], flow, c.pathsPerPlane, n)) else None
    case _ => None
  }

  /** The expected picks of a run, one entry per action. */
  ghost function ExpectedPicks(c: Setup, w: World, acts: seq<Action>): (picks: seq<Option<(nat, nat)>>)
    requires WorldOk(c, w) && HonestRun(c, w, acts)
    ensures |picks| == |acts|
    decreases |acts|
  {
    if acts == [] then []
    else [Expected(c, w, acts[0])] + ExpectedPicks(c, Next(c, w, acts[0]), acts[1..])
  }

  // ---------------------------------------------------------------- the twin in the world

  /** The twin holds the grids the world says it does. */
  ghost predicate Mirrors(c: Setup, w: World, m: MrcSnapshot, held: seq<(seq<seq<real>>, nat)>)
    requires WorldOk(c, w)
    reads m
  {
    && m.Valid() && m.tenant == c.tenant && m.planes == c.planes && m.paths == c.paths
    && m.pathsPerPlane == c.pathsPerPlane
    && m.wgrid == Published(w.loaded) && m.lastMtime == w.lastMtime
    && |held| == |w.held|
    && forall k :: 0 <= k < |held| ==>
         held[k].1 in m.grids && m.grids[held[k].1] == held[k].0 == Published(w.held[k])
  }

  /** The file loads exactly when it is a newer snapshot, and then holds what its table publishes. */
  lemma {:induction false} LoadsIffNewer(c: Setup, w: World)
    requires WorldOk(c, w)
    ensures Loads(w.file, w.lastMtime, c.planes, c.paths, c.tenant) <==> Newer(w)
    ensures Newer(w) ==> forall g :: HoldsGrid(w.file.content.doc, c.planes, c.paths, c.tenant, g) ==>
      g == Published(w.published.value)
  {
    hide HoldsGrid, Carries, Published, Inv;
    if w.published.Some? {
      var t := w.published.value;
      InvShaped(t);
      SnapshotRoundTrip(w.file.content.doc, t, c.tenant);
      forall g | HoldsGrid(w.file.content.doc, c.planes, c.paths, c.tenant, g) ensures g == Published(t) {
        LoadedIsPublished(w.file.content.doc, t, c.tenant, g);
      }
    }
  }

  lemma {:induction false} InvShaped(t: Table)
    requires Inv(t)
    ensures Shaped(t)
  {
  }

  /** One action on the real objects. */
  method Act(c: Setup, ghost w: World, a: Action, m: MrcSnapshot, file: FileView,
             held: seq<(seq<seq<real>>, nat)>)
    returns (pick: Option<(nat, nat)>, file': FileView, held': seq<(seq<seq<real>>, nat)>)
    requires WorldOk(c, w) && Honest(c, w, a) && Mirrors(c, w, m, held) && file == w.file
    modifies m
    ensures pick == Expected(c, w, a)
    ensures Mirrors(c, Next(c, w, a), m, held') && file' == Next(c, w, a).file
  {
    pick, file', held' := None, file, held;
    hide HoldsGrid, Carries, Published, Inv, LoopStep, ChosenEv, Subset, Hash5;
    match a
    case TableEvent(e) =>
    case WriteFile(f) => file' := f;
    case Refresh =>
      LoadsIffNewer(c, w);
      var r := m.RefreshOnce(file);
    case Pick(flow, n) =>
      var plane, spine := m.PickEv(n, flow);
      pick := Some((plane, spine));
    case ReadGrid => held' := held + [(m.wgrid, m.gridId)];
    case FinishPick(k, flow, n) =>
      if k < |held| {
        var plane, spine := m.PickOn(held[k].0, held[k].1, n, flow);
        pick := Some((plane, spine));
      }
  }

  /** The actions one after the other. */
  method Drive(c: Setup, ghost w: World, m: MrcSnapshot, file: FileView, acts: seq<Action>)
    returns (picks: seq<Option<(nat, nat)>>)
    requires WorldOk(c, w) && HonestRun(c, w, acts) && Mirrors(c, w, m, []) && file == w.file
    modifies m
    ensures picks == ExpectedPicks(c, w, acts)
  {
    hide Mirrors, WorldOk, Honest, Next, Expected;
    var view, held := file, [];
    ghost var now, rest := w, acts;
    picks := [];
    for k := 0 to |acts|
      invariant rest == acts[k..] && WorldOk(c, now) && HonestRun(c, now, rest)
      invariant Mirrors(c, now, m, held) && view == now.file
      invariant picks + ExpectedPicks(c, now, rest) == ExpectedPicks(c, w, acts)
    {
      var pick;
      pick, view, held := Act(c, now, acts[k], m, view, held);
      ghost var later := ExpectedPicks(c, Next(c, now, acts[k]), rest[1..]);
      assert picks + ([pick] + later) == (picks + [pick]) + later;
      picks := picks + [pick];
      now, rest := Next(c, now, acts[k]), rest[1..];
    }
  }

  /** A world before the twin starts: nothing loaded, so the twin holds what a fresh table publishes. */
  ghost predicate Starting(c: Setup, cfg: Config, w: World) {
    && WorldOk(c, w) && w.lastMtime == 0.0 && w.held == [] && w.loaded == Init(cfg, c.planes, c.paths)
  }

  /** A new table with no file yet is such a world. */
  lemma {:induction false} FreshWorldStarts(c: Setup, cfg: Config)
    requires SetupOk(c)
    ensures var t := Init(cfg, c.planes, c.paths); Starting(c, cfg, World(t, Missing, None, 0.0, t, []))
  {
    InitInv(cfg, c.planes, c.paths);
  }

  /**
    The twin refines the live policy.  Started on any file, over any run of table events, file writes,
    refreshes (on missing, stale, broken or newer files) and picks, every pick of the twin is the one
    the live policy makes on the table as of the last snapshot a refresh loaded (a fresh table before
    any), and a pick whose grid was read before later swaps is the one for the grid it read.
   */
  method TwinRefinesLive(c: Setup, ghost cfg: Config, ghost w: World, file: FileView, acts: seq<Action>)
    returns (r: Result<seq<Option<(nat, nat)>>, string>)
    requires Starting(c, cfg, w) && file == w.file && HonestRun(c, Refreshed(w), acts)
    ensures r.Err? <==> RefreshRaises(file, 0.0, c.planes, c.paths, c.tenant)
    ensures r.Ok? ==> r.value == ExpectedPicks(c, Refreshed(w), acts)
  {
    var twin := MrcSnapshot.Open(c.tenant, c.planes, c.paths, c.pathsPerPlane, file);
    if twin.Err? { return Err(twin.error); }
    LoadsIffNewer(c, w);
    ColdStartIsFreshTable(cfg, c.planes, c.paths);
    hide HoldsGrid, Carries, Published, Inv, Init;
    assert Mirrors(c, Refreshed(w), twin.value, []);
    hide Mirrors, WorldOk, Refreshed;
    var picks := Drive(c, Refreshed(w), twin.value, file, acts);
    return Ok(picks);
  }

  // ---------------------------------------------------------------- what the picks are

  /** The world before action `k` of a run. */
  ghost function WorldAt(c: Setup, w: World, acts: seq<Action>, k: nat): (w': World)
    requires WorldOk(c, w) && HonestRun(c, w, acts) && k < |acts|
    ensures WorldOk(c, w')
    decreases k
  {
    if k == 0 then w else WorldAt(c, Next(c, w, acts[0]), acts[1..], k - 1)
  }

  lemma {:induction false} PickAt(c: Setup, w: World, acts: seq<Action>, k: nat)
    requires WorldOk(c, w) && HonestRun(c, w, acts) && k < |acts|
    ensures ExpectedPicks(c, w, acts)[k] == Expected(c, WorldAt(c, w, acts, k), acts[k])
    decreases k
  {
    hide WorldOk, Honest, Next, Expected;
    if k > 0 { PickAt(c, Next(c, w, acts[0]), acts[1..], k - 1); }
  }

  /** A pick on table `t` is an EV of the flow's subset, and bad only if the whole subset is. */
  lemma {:induction false} LivePickIsSafe(c: Setup, t: Table, flow: FlowKey, n: nat)
    requires SetupOk(c) && TableOk(c, t)
    ensures var (p, s) := LivePick(t, flow, c.pathsPerPlane, n); var spines := Subset(flow, c.paths, c.pathsPerPlane);
      && p < c.planes && s < c.paths && s in spines
      && (StateAt(t, p, s) == AssumedBad <==> SubsetBad(t, spines))
      && (c.pathsPerPlane == c.paths ==> StateAt(t, p, s) != AssumedBad)
  {
    var spines := Subset(flow, c.paths, c.pathsPerPlane);
    if c.pathsPerPlane == c.paths {
      SpineChoice(flow.src, flow.dst, c.paths, c.paths);
      hide SelectSpines;
      FullFanOutHasUsable(t, spines);
    }
    hide Subset, ChosenEv, Published, Hash5;
    PickOnPublished(t, spines, Hash5(flow), n);
  }

  /** The same for a pick whose grid was read before later swaps, in the table behind that grid. */
  lemma {:induction false} LatePickNeverBad(c: Setup, w: World, acts: seq<Action>, k: nat)
    requires WorldOk(c, w) && HonestRun(c, w, acts) && k < |acts|
    requires acts[k].FinishPick? && acts[k].k < |WorldAt(c, w, acts, k).held|
    ensures var t := WorldAt(c, w, acts, k).held[acts[k].k];
      var spines := Subset(acts[k].flow, c.paths, c.pathsPerPlane);
      && ExpectedPicks(c, w, acts)[k].Some?
      && var (p, s) := ExpectedPicks(c, w, acts)[k].value;
      && p < c.planes && s < c.paths && s in spines
      && (StateAt(t, p, s) == AssumedBad <==> SubsetBad(t, spines))
      && (c.pathsPerPlane == c.paths ==> StateAt(t, p, s) != AssumedBad)
  {
    hide ExpectedPicks, HonestRun, LivePick, SubsetBad, Subset, Inv;
    PickAt(c, w, acts, k);
    LivePickIsSafe(c, WorldAt(c, w, acts, k).held[acts[k].k], acts[k].flow, acts[k].n);
  }

  /**
    In every run, a twin pick is bad in the table it was made for only if the flow's whole subset was,
    and never with the full fan-out.
   */
  lemma {:induction false} TwinNeverPicksBad(c: Setup, w: World, acts: seq<Action>, k: nat)
    requires WorldOk(c, w) && HonestRun(c, w, acts) && k < |acts| && acts[k].Pick?
    ensures var t := WorldAt(c, w, acts, k).loaded; var spines := Subset(acts[k].flow, c.paths, c.pathsPerPlane);
      && ExpectedPicks(c, w, acts)[k].Some?
      && var (p, s) := ExpectedPicks(c, w, acts)[k].value;
      && p < c.planes && s < c.paths && s in spines
      && (StateAt(t, p, s) == AssumedBad <==> SubsetBad(t, spines))
      && (c.pathsPerPlane == c.paths ==> StateAt(t, p, s) != AssumedBad)
  {
    hide ExpectedPicks, HonestRun, LivePick, SubsetBad, Subset, Inv;
    PickAt(c, w, acts, k);
    LivePickIsSafe(c, WorldAt(c, w, acts, k).loaded, acts[k].flow, acts[k].n);
  }
}
