/**
  `MrcSnapshot` of `srv6_mrc/policy.py`: the picker that reads weights from a snapshot file.  Its
  grid is swapped by refreshes and its distribution functions are cached per (grid, subset), so the
  claim is that over any interleaving of picks and refreshes every pick is the one the live policy
  would make on the grid the pick read.  Grid identity (`id(wgrid)`) is a number never reused.
 */
module SnapshotTwin {
  import opened Wrappers
  import opened Grids
  import opened EvState
  import opened EvInvariant
  import opened EvTable
  import opened Picker
  import opened SpineSelect
  import opened Policy

  // ---------------------------------------------------------------- the snapshot document

  /** One EV entry of a parsed document; `None` where `weight` is missing or no number. */
  datatype DocEntry = DocEntry(weight: Option<real>)

  /**
    The `tenants` member: an object (empty when missing), a list or text that contains some strings but
    cannot be looked up by them, or something that contains nothing at all.
   */
  datatype Tenants = Keyed(evs: map<string, seq<DocEntry>>) | Listed(names: set<string>) | Scalar

  /** The parts of `EVStateTable.snapshot()` a reader looks at; `None` where missing or ill-typed. */
  datatype Body = Body(numPlanes: Option<int>, numPaths: Option<int>, tenants: Tenants)

  /** A tenant's entries, when the document has any. */
  predicate HasTenant(b: Body, tenant: string) { b.tenants.Keyed? && tenant in b.tenants.evs }

  /** A parsed file: the flat shape, or the daemon's wrapper around it. */
  datatype Doc = FlatDoc(body: Body) | WrappedDoc(evState: Body)

  function BodyOf(d: Doc): Body {
    match d
    case FlatDoc(b) => b
    case WrappedDoc(b) => b
  }

  /** A document carries table `t` for `tenant`: what the daemon writes, in either shape. */
  ghost predicate Carries(d: Doc, t: Table, tenant: string)
    requires Shaped(t)
  {
    var b := BodyOf(d);
    && b.numPlanes == Some(t.planes) && b.numPaths == Some(t.paths) && HasTenant(b, tenant)
    && |b.tenants.evs[tenant]| == |SnapshotOf(t)|
    && forall i :: 0 <= i < |SnapshotOf(t)| ==>
         b.tenants.evs[tenant][i].weight == Some(SnapshotOf(t)[i].weight)
  }

  /** The grid a well-formed document holds. */
  ghost predicate HoldsGrid(d: Doc, planes: nat, paths: nat, tenant: string, g: seq<seq<real>>) {
    var b := BodyOf(d);
    && b.numPlanes == Some(planes) && b.numPaths == Some(paths) && HasTenant(b, tenant)
    && |b.tenants.evs[tenant]| == planes * paths
    && |g| == planes && (forall p :: 0 <= p < planes ==> |g[p]| == paths)
    && forall p, q :: 0 <= p < planes && 0 <= q < paths ==>
         b.tenants.evs[tenant][Index(planes, paths, p, q)].weight == Some(g[p][q])
  }

  /** What a bad document raises: an error the refresh catches, or one it does not. */
  datatype LoadError = Caught | Uncaught

  /**
    The message about a tenant that is not there asks `tenants` for its keys, which a list or a text
    does not have: the AttributeError is not among those a refresh catches.
   */
  predicate TenantErrorRaises(d: Doc, planes: nat, paths: nat, tenant: string) {
    var b := BodyOf(d);
    b.numPlanes == Some(planes) && b.numPaths == Some(paths) && b.tenants.Listed? && tenant !in b.tenants.names
  }

  /** `_wgrid_from_snapshot`: any missing key, dimension or weight raises. */
  method GridFromSnapshot(d: Doc, planes: nat, paths: nat, tenant: string)
    returns (r: Result<seq<seq<real>>, LoadError>)
    ensures r.Ok? ==> HoldsGrid(d, planes, paths, tenant, r.value)
    ensures r.Err? ==> forall g :: !HoldsGrid(d, planes, paths, tenant, g)
    ensures r == Err(Uncaught) <==> TenantErrorRaises(d, planes, paths, tenant)
  {
    var b := BodyOf(d);
    if b.numPlanes == None || b.numPaths == None { return Err(Caught); }
    if b.numPlanes.value != planes || b.numPaths.value != paths { return Err(Caught); }
    if b.tenants.Listed? && tenant !in b.tenants.names { return Err(Uncaught); }
    if !HasTenant(b, tenant) { return Err(Caught); }
    var evs := b.tenants.evs[tenant];
    if |evs| != planes * paths { return Err(Caught); }
    var grid: seq<seq<real>> := [];
    for plane := 0 to planes
      invariant |grid| == plane && forall p :: 0 <= p < plane ==> |grid[p]| == paths
      invariant forall p, q :: 0 <= p < plane && 0 <= q < paths ==>
        evs[Index(planes, paths, p, q)].weight == Some(grid[p][q])
    {
      var row: seq<real> := [];
      for path := 0 to paths
        invariant |row| == path
        invariant forall q :: 0 <= q < path ==>
          evs[Index(planes, paths, plane, q)].weight == Some(row[q])
      {
        var entry := evs[Index(planes, paths, plane, path)];
        if entry.weight == None { return Err(Caught); }
        row := row + [entry.weight.value];
      }
      grid := grid + [row];
    }
    return Ok(grid);
  }

  lemma {:induction false} HeldGridUnique(
    d: Doc, planes: nat, paths: nat, tenant: string, g: seq<seq<real>>, g': seq<seq<real>>)
    requires HoldsGrid(d, planes, paths, tenant, g) && HoldsGrid(d, planes, paths, tenant, g')
    ensures g == g'
  {
    forall p | 0 <= p < planes ensures g[p] == g'[p] {
      assert forall q :: 0 <= q < paths ==> Some(g[p][q]) == Some(g'[p][q]);
    }
  }

  /** Round trip: a document that carries a table holds exactly its published grid. */
  lemma {:induction false} SnapshotRoundTrip(d: Doc, t: Table, tenant: string)
    requires Shaped(t) && Carries(d, t, tenant)
    ensures HoldsGrid(d, t.planes, t.paths, tenant, Published(t))
  {
    hide Published;
    var g := EntryGrid(t);
    FlattenLength(g, t.paths);
    forall p, q | 0 <= p < t.planes && 0 <= q < t.paths
      ensures BodyOf(d).tenants.evs[tenant][Index(t.planes, t.paths, p, q)].weight == Some(Published(t)[p][q])
    {
      FlattenAt(g, t.paths, p, q);
      assert g[p][q] == EntryOf(t, p, q);
    }
  }

  /** The cold-start grid is what a fresh table publishes. */
  lemma {:induction false} ColdStartIsFreshTable(cfg: Config, planes: nat, paths: nat)
    requires planes >= 1 && paths >= 1
    ensures Published(Init(cfg, planes, paths)) == UniformGrid(planes, paths)
  {
    var t := Init(cfg, planes, paths);
    var n := planes * paths;
    IndexBound(planes, paths, 0, 0);
    AllUsable(t.recs);
    FlatWeightsNormalised(t.recs);
    EqualShares(t.recs);
    forall p | 0 <= p < planes ensures Published(t)[p] == UniformGrid(planes, paths)[p] {
      forall q | 0 <= q < paths ensures Published(t)[p][q] == UniformGrid(planes, paths)[p][q] {
        Halves(n);
      }
    }
  }

  lemma {:induction false} EqualShares(recs: seq<Rec>)
    requires forall i :: 0 <= i < |recs| ==> recs[i].state == Unknown
    ensures Sum(RawWeights(recs)) == 0.5 * |recs| as real
  {
    if recs != [] {
      EqualShares(recs[1..]);
      assert RawWeights(recs)[1..] == RawWeights(recs[1..]);
    }
  }

  lemma {:induction false} Halves(n: nat)
    requires n > 0
    ensures 0.5 / (0.5 * n as real) == 1.0 / n as real
  {
    var x := n as real;
    assert 0.5 * x > 0.0;
    assert (0.5 / (0.5 * x)) * (0.5 * x) == 0.5;
    assert (1.0 / x) * (0.5 * x) == 0.5 by { assert (1.0 / x) * x == 1.0; }
  }

  // ---------------------------------------------------------------- the twin

  /** What opening and parsing the file yields; JSON that is no object has no `get`. */
  datatype Content = Unreadable | NoObject | Parsed(doc: Doc)

  /** What a refresh finds at the snapshot path. */
  datatype FileView =
    | Missing
    | StatError
    | Present(mtime: real, content: Content)

  /** The file is newer than the last one loaded and holds a grid. */
  ghost predicate Loads(file: FileView, since: real, planes: nat, paths: nat, tenant: string) {
    && file.Present? && file.mtime > since && file.content.Parsed?
    && exists g :: HoldsGrid(file.content.doc, planes, paths, tenant, g)
  }

  /** A refresh raises an error that nothing catches. */
  predicate RefreshRaises(file: FileView, since: real, planes: nat, paths: nat, tenant: string) {
    file.Present? && file.mtime > since &&
    (file.content.NoObject? ||
     (file.content.Parsed? && TenantErrorRaises(file.content.doc, planes, paths, tenant)))
  }

  class MrcSnapshot {
    const tenant: string
    const planes: nat
    const paths: nat
    const pathsPerPlane: nat
    var wgrid: seq<seq<real>>
    var gridId: nat
    var lastMtime: real
    var cdfCache: map<(nat, seq<nat>), seq<real>>
    var spineSubsets: map<FlowKey, seq<nat>>
    var attempts: nat
    var loaded: nat
    var errors: nat
    var missing: nat
    /** Every grid this object ever held, by identity. */
    ghost var grids: map<nat, seq<seq<real>>>

    ghost predicate GridShaped(g: seq<seq<real>>) {
      |g| == planes && forall p :: 0 <= p < planes ==> |g[p]| == paths
    }

    /** Every cached function belongs to the grid its key names. */
    static ghost predicate CacheRight(cache: map<(nat, seq<nat>), seq<real>>, grids: map<nat, seq<seq<real>>>) {
      forall key :: key in cache ==>
        && key.0 in grids && Fits(grids[key.0], key.1)
        && Sum(Flat(grids[key.0], key.1)) > 0.0
        && cache[key] == Cdf(Flat(grids[key.0], key.1))
    }

    ghost predicate Valid()
      reads this
    {
      && planes >= 1
      && SubsetsRight(spineSubsets, paths, pathsPerPlane)
      && gridId in grids && grids[gridId] == wgrid
      && (forall id :: id in grids ==> id <= gridId && GridShaped(grids[id]))
      && CacheRight(cdfCache, grids)
    }

    /** `__init__` up to its first refresh. */
    constructor (tenant: string, planes: nat, paths: nat, pathsPerPlane: nat)
      requires planes >= 1 && 1 <= pathsPerPlane <= paths
      ensures Valid() && wgrid == UniformGrid(planes, paths) && lastMtime == 0.0
      ensures this.tenant == tenant && this.planes == planes && this.paths == paths
      ensures this.pathsPerPlane == pathsPerPlane
    {
      this.tenant, this.planes, this.paths, this.pathsPerPlane := tenant, planes, paths, pathsPerPlane;
      wgrid, gridId, lastMtime := UniformGrid(planes, paths), 0, 0.0;
      cdfCache, spineSubsets := map[], map[];
      attempts, loaded, errors, missing := 0, 0, 0, 0;
      grids := map[0 := UniformGrid(planes, paths)];
    }

    /** A pick that reads the current grid. */
    method PickEv(n: nat, flow: FlowKey) returns (plane: nat, spine: nat)
      requires Valid()
      modifies this`cdfCache, this`spineSubsets
      ensures Valid()
      ensures Fits(wgrid, Subset(flow, paths, pathsPerPlane))
      ensures (plane, spine) == ChosenEv(wgrid, Subset(flow, paths, pathsPerPlane), Hash5(flow), n)
    {
      plane, spine := PickOn(wgrid, gridId, n, flow);
    }

    /**
      The rest of a pick whose grid read happened when `g`, of identity `id`, was loaded; refreshes
      may have replaced it since.  The cache entry it leaves behind is still right.
     */
    method PickOn(g: seq<seq<real>>, id: nat, n: nat, flow: FlowKey) returns (plane: nat, spine: nat)
      requires Valid() && id in grids && grids[id] == g
      modifies this`cdfCache, this`spineSubsets
      ensures Valid()
      ensures Fits(g, Subset(flow, paths, pathsPerPlane))
      ensures (plane, spine) == ChosenEv(g, Subset(flow, paths, pathsPerPlane), Hash5(flow), n)
    {
      hide Cdf, Sum, Flat, Subset, Hash5, ChosenEv, CacheRight;
      var spines, cache := SpinesForFlow(flow, spineSubsets, paths, pathsPerPlane);
      spineSubsets := cache;
      assert Fits(g, spines);
      var cdf := CdfFor(g, id, spines);
      plane, spine := ChooseWith(cdf, g, spines, Hash5(flow), n);
    }

    /** The cached distribution of a grid's slice, computed on a miss; none for an all-zero slice. */
    method CdfFor(g: seq<seq<real>>, id: nat, spines: seq<nat>) returns (cdf: Option<seq<real>>)
      requires Valid() && id in grids && grids[id] == g && Fits(g, spines)
      modifies this`cdfCache
      ensures Valid()
      ensures cdf == if Sum(Flat(g, spines)) > 0.0 then Some(Cdf(Flat(g, spines))) else None
    {
      hide Cdf, Sum, Flat;
      var key := (id, spines);
      if key in cdfCache { return Some(cdfCache[key]); }
      var flat := Flattened(g, spines);
      var total := SumOf(flat);
      if total <= 0.0 { return None; }
      var c := BuildCdf(flat);
      cdfCache := cdfCache[key := c];
      return Some(c);
    }

    static method ChooseWith(cdf: Option<seq<real>>, g: seq<seq<real>>, spines: seq<nat>, h: nat, n: nat)
      returns (plane: nat, spine: nat)
      requires Fits(g, spines)
      requires cdf == if Sum(Flat(g, spines)) > 0.0 then Some(Cdf(Flat(g, spines))) else None
      ensures (plane, spine) == ChosenEv(g, spines, h, n)
    {
      hide Sum, Flat, PickIndex;
      var i := IndexWith(cdf, Flat(g, spines), |g| * |spines|, h, n);
      plane, spine := i / |spines|, spines[i % |spines|];
    }

    static method IndexWith(cdf: Option<seq<real>>, ghost flat: seq<real>, size: nat, h: nat, n: nat)
      returns (i: nat)
      requires size == |flat| > 0
      requires cdf == if Sum(flat) > 0.0 then Some(Cdf(flat)) else None
      ensures i == PickIndex(flat, h, n)
    {
      hide Draw, Unit, Cdf, Sum, Scan;
      if cdf == None { return n % size; }
      ShareEnds(flat);
      i := WeightedPick(n, h, cdf.value);
      ScanIsFirstAbove(cdf.value, Unit(Draw(h, n)), i);
    }

    method Swap(g: seq<seq<real>>, mtime: real)
      requires Valid() && GridShaped(g)
      modifies this`wgrid, this`gridId, this`lastMtime, this`cdfCache, this`grids, this`loaded
      ensures Valid() && wgrid == g && lastMtime == mtime && loaded == old(loaded) + 1
      ensures gridId == old(gridId) + 1 && grids == old(grids)[gridId := g] && cdfCache == map[]
    {
      wgrid, gridId, lastMtime := g, gridId + 1, mtime;
      grids := grids[gridId := g];
      loaded := loaded + 1;
      cdfCache := map[];
    }

    /** `_refresh_once`: loads a newer well-formed file, else keeps the grid it has. */
    method RefreshOnce(file: FileView) returns (r: Result<bool, string>)
      requires Valid()
      modifies this`wgrid, this`gridId, this`lastMtime, this`cdfCache, this`grids,
        this`attempts, this`loaded, this`errors, this`missing
      ensures Valid()
      ensures r.Err? <==> RefreshRaises(file, old(lastMtime), planes, paths, tenant)
      ensures r == Ok(true) <==> Loads(file, old(lastMtime), planes, paths, tenant)
      ensures attempts == old(attempts) + 1 && loaded == old(loaded) + if r == Ok(true) then 1 else 0
      ensures missing == old(missing) + if file.Missing? then 1 else 0
      ensures errors == old(errors) +
        if file.StatError? || (file.Present? && file.mtime > old(lastMtime) && r == Ok(false)) then 1 else 0
      ensures forall id :: id in old(grids) ==> id in grids && grids[id] == old(grids[id])
      ensures r == Ok(true) ==> HoldsGrid(file.content.doc, planes, paths, tenant, wgrid)
      ensures r == Ok(true) ==> lastMtime == file.mtime && cdfCache == map[]
      ensures r != Ok(true) ==> wgrid == old(wgrid) && gridId == old(gridId)
      ensures r != Ok(true) ==> lastMtime == old(lastMtime) && cdfCache == old(cdfCache)
    {
      hide Cdf, Sum, Flat;
      attempts := attempts + 1;
      match file
      case Missing =>
        missing := missing + 1;
        return Ok(false);
      case StatError =>
        errors := errors + 1;
        return Ok(false);
      case Present(mtime, content) =>
        if mtime <= lastMtime { return Ok(false); }
        match content
        case Unreadable =>
          errors := errors + 1;
          return Ok(false);
        case NoObject => return Err("AttributeError");
        case Parsed(doc) =>
          var g := GridFromSnapshot(doc, planes, paths, tenant);
          if g.Err? {
            if g.error.Uncaught? { return Err("AttributeError"); }
            errors := errors + 1;
            return Ok(false);
          }
          Swap(g.value, mtime);
          return Ok(true);
    }

    /** `__init__`: a cold start on the uniform grid, then a first refresh, whose error it passes on. */
    static method Open(tenant: string, planes: nat, paths: nat, pathsPerPlane: nat, file: FileView)
      returns (r: Result<MrcSnapshot, string>)
      requires planes >= 1 && 1 <= pathsPerPlane <= paths
      ensures r.Err? <==> RefreshRaises(file, 0.0, planes, paths, tenant)
      ensures r.Ok? ==>
        var m := r.value;
        && fresh(m) && m.Valid() && m.tenant == tenant && m.planes == planes && m.paths == paths
        && m.pathsPerPlane == pathsPerPlane
        && (Loads(file, 0.0, planes, paths, tenant) ==>
              HoldsGrid(file.content.doc, planes, paths, tenant, m.wgrid) && m.lastMtime == file.mtime)
        && (!Loads(file, 0.0, planes, paths, tenant) ==>
              m.wgrid == UniformGrid(planes, paths) && m.lastMtime == 0.0)
    {
      var m := new MrcSnapshot(tenant, planes, paths, pathsPerPlane);
      hide HoldsGrid, UniformGrid;
      var loaded := m.RefreshOnce(file);
      if loaded.Err? { return Err(loaded.error); }
      return Ok(m);
    }
  }

  /** What a twin loads from a document that carries table `t` is the grid `t` publishes. */
  lemma {:induction false} LoadedIsPublished(d: Doc, t: Table, tenant: string, g: seq<seq<real>>)
    requires Shaped(t) && Carries(d, t, tenant) && HoldsGrid(d, t.planes, t.paths, tenant, g)
    ensures g == Published(t)
  {
    SnapshotRoundTrip(d, t, tenant);
    HeldGridUnique(d, t.planes, t.paths, tenant, g, Published(t));
  }
}
