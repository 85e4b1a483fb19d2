/**
  A loss report's whole way: closed by the receiver's table, encoded, decoded by the sender and fused
  (`ReceiverMrcAgent._emit_one_round` and `SenderMrcAgent._handle_loss_report`, `srv6_mrc/mrc/agent.py`).
 */
module ReportPath {
  import opened Wrappers
  import opened ByteCodec
  import opened EvState
  import opened LossFusion
  import opened LossWindows
  import opened ProbeCodec

  /** What a table of at most 256 planes and paths emits fits the record format. */
  lemma {:induction false} EmittedFits(g: Cells, planes: nat, paths: nat, p: nat, q: nat)
    requires CellsOk(g, planes, paths) && p <= planes <= 256 && q <= paths <= 256
    ensures forall k :: 0 <= k < |ActiveRecs(g, planes, paths, p, q)| ==> RecOk(ActiveRecs(g, planes, paths, p, q)[k])
    decreases planes - p, paths - q
  {
    if p < planes {
      if q == paths {
        EmittedFits(g, planes, paths, p + 1, 0);
      } else {
        EmittedFits(g, planes, paths, p, q + 1);
      }
    }
  }

  /** A report names at most every EV. */
  lemma {:induction false} EmittedCount(g: Cells, planes: nat, paths: nat, p: nat, q: nat)
    requires CellsOk(g, planes, paths) && p <= planes && q <= paths
    ensures |ActiveRecs(g, planes, paths, p, q)| <= if p == planes then 0 else (planes - p) * paths - q
    decreases planes - p, paths - q
  {
    if p < planes {
      assert (planes - p) * paths == (planes - p - 1) * paths + paths;
      if q == paths {
        EmittedCount(g, planes, paths, p + 1, 0);
      } else {
        EmittedCount(g, planes, paths, p, q + 1);
      }
    }
  }

  /** One round of `_emit_one_round` for a flow, up to sending; an empty report is not sent. */
  method EmitReport<K>(table: LossWindowTable<K>, key: K) returns (payload: Option<Bytes>)
    requires table.Valid() && table.planes <= 256 && table.paths <= 256 && table.planes * table.paths <= 0xFFFF
    modifies table
    ensures table.Valid()
    ensures var rs := ActiveRecs(old(table.Window(key)).evs, table.planes, table.paths, 0, 0);
      payload.Some? <==> rs != []
    ensures payload.Some? ==>
      ParsedReport(payload.value) == Ok(LossReport(old(table.Window(key)).nextWindowId,
        CappedAll(ActiveRecs(old(table.Window(key)).evs, table.planes, table.paths, 0, 0))))
  {
    ghost var w := table.Window(key);
    ghost var rs := ActiveRecs(w.evs, table.planes, table.paths, 0, 0);
    EmittedFits(w.evs, table.planes, table.paths, 0, 0);
    EmittedCount(w.evs, table.planes, table.paths, 0, 0);
    var report := table.SnapshotAndReset(key);
    assert report.planes == rs;
    if report.planes == [] { return None; }
    hide ActiveRecs, CellsOk, ParsedReport, ReportBytes;
    LossReportRoundTrip(report.windowId, report.planes, []);
    var encoded := EncodeLossReport(report.windowId, report.planes);
    assert encoded.value + [] == encoded.value;
    payload := Some(encoded.value);
  }

  /**
    From the receiver's window to the sender's table: what the receiver emits is always encodable, and
    while no window holds more than 65535 trims of one EV, fusing what arrives is fusing what was measured.
   */
  lemma {:induction false} MeasuredIsFused(
    t: Table, w: Option<SentWindow>, g: Cells, planes: nat, paths: nat, windowId: nat, junk: Bytes)
    requires CellsOk(g, planes, paths) && planes <= 256 && paths <= 256 && planes * paths <= 0xFFFF
    requires windowId < 0x1_0000 && PairFits(w, t)
    requires forall p, q :: 0 <= p < planes && 0 <= q < paths ==> g[p][q].trimmed <= 0xFFFF
    ensures var rs := ActiveRecs(g, planes, paths, 0, 0);
      && (forall k :: 0 <= k < |rs| ==> RecOk(rs[k])) && |rs| <= 0xFFFF
      && var r := ParsedReport(ReportBytes(windowId, rs) + junk);
      r.Ok? && r.value.windowId == windowId && r.value.planes == rs && Fuse(t, r.value.planes, w) == Fuse(t, rs, w)
  {
    var rs := ActiveRecs(g, planes, paths, 0, 0);
    EmittedFits(g, planes, paths, 0, 0);
    EmittedCount(g, planes, paths, 0, 0);
    EmittedTrims(g, planes, paths, 0, 0);
    hide ActiveRecs, CellsOk, ParsedReport, ReportBytes, PairFits, Fuse;
    LossReportRoundTrip(windowId, rs, junk);
    CappedAllIdentity(rs);
  }

  lemma {:induction false} EmittedTrims(g: Cells, planes: nat, paths: nat, p: nat, q: nat)
    requires CellsOk(g, planes, paths) && p <= planes && q <= paths
    requires forall a, b :: 0 <= a < planes && 0 <= b < paths ==> g[a][b].trimmed <= 0xFFFF
    ensures forall k :: 0 <= k < |ActiveRecs(g, planes, paths, p, q)| ==>
      ActiveRecs(g, planes, paths, p, q)[k].trimmed <= 0xFFFF
    decreases planes - p, paths - q
  {
    if p < planes {
      if q == paths {
        EmittedTrims(g, planes, paths, p + 1, 0);
      } else {
        EmittedTrims(g, planes, paths, p, q + 1);
      }
    }
  }
}
