/**
  Sent counts across the process boundary (`srv6_mrc/mrc/sent_counters.py`) and their folding into
  emit windows (`SenderMrcAgent.record_sent` and `_rotate_window`, `srv6_mrc/mrc/agent.py`).  Each
  object is a class; SentPipeline is the machine they make together, as its RunObjects shows.
 */
module SentCounters {
  import opened Wrappers
  import opened Grids
  import opened LossFusion
  import opened LossReports

  type Counts = seq<seq<nat>>

  ghost predicate Sized(g: Counts, planes: nat, paths: nat) {
    |g| == planes && Rectangular(g, paths)
  }

  function Zeros(planes: nat, paths: nat): (g: Counts)
    ensures Sized(g, planes, paths)
    ensures forall p, q :: 0 <= p < planes && 0 <= q < paths ==> g[p][q] == 0
  {
    seq(planes, p => seq(paths, q => 0))
  }

  function Bump(g: Counts, p: nat, q: nat): (g': Counts)
    requires p < |g| && q < |g[p]|
    ensures |g'| == |g| && forall r :: 0 <= r < |g| ==> |g'[r]| == |g[r]|
  {
    g[p := g[p][q := g[p][q] + 1]]
  }

  /** A cell of a grid; cells outside it count nothing. */
  function At(g: Counts, p: nat, q: nat): nat {
    if p < |g| && q < |g[p]| then g[p][q] else 0
  }

  // ---------------------------------------------------------------- the writer

  /** `SentCounterWriter`: cumulative counts, published whole. */
  class SentCounterWriter {
    const planes: nat
    const paths: nat
    var sent: Counts
    var publishErrors: nat

    ghost predicate Valid()
      reads this
    {
      Sized(sent, planes, paths)
    }

    constructor (planes: nat, paths: nat)
      ensures Valid() && sent == Zeros(planes, paths)
      ensures this.planes == planes && this.paths == paths && publishErrors == 0
    {
      this.planes, this.paths := planes, paths;
      sent, publishErrors := Zeros(planes, paths), 0;
    }

    /** `record`: cells outside the grid are ignored. */
    method Record(plane: int, path: int)
      requires Valid()
      modifies this`sent
      ensures Valid()
      ensures sent == if 0 <= plane < planes && 0 <= path < paths then Bump(old(sent), plane, path) else old(sent)
    {
      if 0 <= plane < planes && 0 <= path < paths {
        sent := sent[plane := sent[plane][path := sent[plane][path] + 1]];
      }
    }

    /** `publish`: replaces the file's content, or leaves it and counts an error. */
    method Publish(file: Option<Counts>, writable: bool) returns (file': Option<Counts>)
      requires Valid()
      modifies this`publishErrors
      ensures file' == if writable then Some(sent) else file
      ensures publishErrors == old(publishErrors) + if writable then 0 else 1
    {
      if writable { return Some(sent); }
      publishErrors := publishErrors + 1;
      return file;
    }
  }

  // ---------------------------------------------------------------- the reader

  /** What opening and parsing the file yields. */
  datatype ReadView =
    | NoFile
    | Unreadable
    | Parsed(g: Counts)

  function CellDelta(c: nat, l: nat): nat { if c >= l then c - l else c }

  /** Per-cell difference to the previous read; a smaller count is a restarted sender's own. */
  function DeltaGrid(cur: Counts, last: Counts): (d: Counts)
    requires |cur| == |last| && forall p :: 0 <= p < |cur| ==> |cur[p]| == |last[p]|
    ensures |d| == |cur| && forall p :: 0 <= p < |cur| ==> |d[p]| == |cur[p]|
    ensures forall p, q :: 0 <= p < |cur| && 0 <= q < |cur[p]| ==> d[p][q] == CellDelta(cur[p][q], last[p][q])
  {
    seq(|cur|, p requires 0 <= p < |cur| =>
      seq(|cur[p]|, q requires 0 <= q < |cur[p]| => CellDelta(cur[p][q], last[p][q])))
  }

  class SentCounterReader {
    const planes: nat
    const paths: nat
    var last: Option<Counts>
    var readErrors: nat

    ghost predicate Valid()
      reads this
    {
      last.Some? ==> Sized(last.value, planes, paths)
    }

    constructor (planes: nat, paths: nat)
      ensures Valid() && last == None && readErrors == 0
      ensures this.planes == planes && this.paths == paths
    {
      this.planes, this.paths, last, readErrors := planes, paths, None, 0;
    }

    /** `_read`: a grid of the right shape, or nothing. */
    method Read(v: ReadView) returns (g: Option<Counts>)
      modifies this`readErrors
      ensures g == if v.Parsed? && Sized(v.g, planes, paths) then Some(v.g) else None
      ensures readErrors == old(readErrors) + if v.NoFile? || g.Some? then 0 else 1
    {
      if v.NoFile? { return None; }
      if v.Unreadable? {
        readErrors := readErrors + 1;
        return None;
      }
      var shaped := |v.g| == planes;
      for p := 0 to |v.g|
        invariant shaped <==> |v.g| == planes && Rectangular(v.g[..p], paths)
      {
        assert v.g[..p + 1] == v.g[..p] + [v.g[p]];
        assert v.g[..p + 1][p] == v.g[p];
        shaped := shaped && |v.g[p]| == paths;
      }
      assert v.g[..|v.g|] == v.g;
      if !shaped {
        readErrors := readErrors + 1;
        return None;
      }
      return Some(v.g);
    }

    /** `read_delta`. */
    method ReadDelta(v: ReadView) returns (d: Option<Counts>)
      requires Valid()
      modifies this
      ensures Valid()
      ensures var ok := v.Parsed? && Sized(v.g, planes, paths);
        && (!ok ==> d == None && last == old(last))
        && (ok ==> last == Some(v.g))
        && (ok && old(last) == None ==> d == Some(v.g))
        && (ok && old(last).Some? ==> d == Some(DeltaGrid(v.g, old(last).value)))
    {
      var current := Read(v);
      if current == None { return None; }
      var before := last;
      last := current;
      if before == None { return current; }
      return Some(DeltaGrid(current.value, before.value));
    }
  }

  // ---------------------------------------------------------------- the agent's window

  function AddGrid(a: Counts, b: Counts): (g: Counts)
    requires |a| == |b| && forall p :: 0 <= p < |a| ==> |a[p]| == |b[p]|
    ensures |g| == |a| && forall p :: 0 <= p < |a| ==> |g[p]| == |a[p]|
    ensures forall p, q :: 0 <= p < |a| && 0 <= q < |a[p]| ==> g[p][q] == a[p][q] + b[p][q]
  {
    seq(|a|, p requires 0 <= p < |a| => seq(|a[p]|, q requires 0 <= q < |a[p]| => a[p][q] + b[p][q]))
  }

  ghost predicate AllZero(g: Counts) {
    forall p, q :: 0 <= p < |g| && 0 <= q < |g[p]| ==> g[p][q] == 0
  }

  /** The window part of `SenderMrcAgent`. */
  class WindowKeeper {
    const planes: nat
    const paths: nat
    const ring: SentWindowRing
    var current: Counts
    var startNs: int
    var windowId: nat

    ghost predicate Valid()
      reads this, ring
    {
      && ring.Valid() && ring.planes == planes && ring.paths == paths
      && Sized(current, planes, paths) && windowId < 0x1_0000
    }

    constructor (planes: nat, paths: nat, ring: SentWindowRing, now: int)
      requires ring.Valid() && ring.planes == planes && ring.paths == paths
      ensures Valid() && current == Zeros(planes, paths) && this.ring == ring
      ensures this.planes == planes && this.paths == paths && windowId == 0
    {
      this.planes, this.paths, this.ring := planes, paths, ring;
      current, startNs, windowId := Zeros(planes, paths), now, 0;
    }

    /** `record_sent`. */
    method RecordSent(plane: int, path: int)
      requires Valid()
      modifies this`current
      ensures Valid()
      ensures current ==
        if 0 <= plane < planes && 0 <= path < paths then Bump(old(current), plane, path) else old(current)
    {
      if 0 <= plane < planes && 0 <= path < paths {
        current := current[plane := current[plane][path := current[plane][path] + 1]];
      }
    }

    /**
      `_rotate_window`: folds the out-of-process delta in, closes the window and opens an empty one;
      an all-zero window is not kept.
     */
    method RotateWindow(delta: Option<Counts>, now: int) returns (closed: SentWindow)
      requires Valid() && (delta.Some? ==> Sized(delta.value, planes, paths))
      modifies this`current, this`startNs, this`windowId, ring
      ensures Valid()
      ensures current == Zeros(planes, paths) && startNs == now
      ensures windowId == (old(windowId) + 1) % 0x1_0000
      ensures closed == SentWindow(old(startNs), now,
        if delta.Some? then AddGrid(old(current), delta.value) else old(current), old(windowId))
      ensures ring.ring ==
        if AllZero(closed.sent) then old(ring.ring) else LastN(old(ring.ring) + [closed], ring.capacity)
    {
      if delta.Some? { current := AddGrid(current, delta.value); }
      closed := SentWindow(startNs, now, current, windowId);
      current := Zeros(planes, paths);
      startNs := now;
      windowId := (windowId + 1) % 0x1_0000;
      var any := AnySent(closed.sent);
      if any { var ok := ring.Push(closed); }
    }

    static method AnySent(g: Counts) returns (any: bool)
      ensures any == !AllZero(g)
    {
      any := false;
      for p := 0 to |g|
        invariant any == !AllZero(g[..p])
      {
        assert g[..p + 1] == g[..p] + [g[p]];
        for q := 0 to |g[p]|
          invariant any == !(AllZero(g[..p]) && forall c :: 0 <= c < q ==> g[p][c] == 0)
        {
          if g[p][q] != 0 { any := true; }
        }
        assert forall r :: 0 <= r < p ==> g[..p + 1][r] == g[..p][r];
        assert g[..p + 1][p] == g[p];
      }
      assert g[..|g|] == g;
    }
  }
}
