/**
  The PROBE, LOSS_REPORT and NACK payloads of `srv6_mrc/mrc/probe.py`, byte for byte, and the round
  trips through them.
 */
module ProbeCodec {
  import opened Arith
  import opened Wrappers
  import opened ByteCodec
  import opened EvState
  import opened LossFusion

  const MAGIC_PROBE: byte := 0xA5
  const MAGIC_LOSS_REPORT: byte := 0xA7
  const MAGIC_NACK: byte := 0xA9
  const PROBE_VERSION: byte := 4
  const LOSS_REPORT_VERSION: byte := 2
  const LOSS_REPORT_VERSION_TRIMMED: byte := 3
  const NACK_VERSION: byte := 1
  const PROBE_SIZE := 10
  const LOSS_HDR_SIZE := 8
  const LOSS_REC_SIZE := 16
  const NACK_SIZE := 18

  predicate U8(n: int) { 0 <= n < 0x100 }
  predicate U16(n: int) { 0 <= n < 0x1_0000 }
  predicate U32(n: int) { 0 <= n < 0x1_0000_0000 }
  predicate U64(n: int) { 0 <= n < 0x1_0000_0000_0000_0000 }

  datatype Probe = Probe(plane: int, path: int, tenant: int, src: int, dst: int)
  datatype Nack = Nack(plane: int, path: int, tenant: int, src: int, dst: int, seqNo: int)

  predicate ProbeOk(p: Probe) { U8(p.plane) && U8(p.path) && U16(p.tenant) && U16(p.src) && U8(p.dst) }
  predicate NackOk(n: Nack) {
    U8(n.plane) && U8(n.path) && U16(n.tenant) && U16(n.src) && U16(n.dst) && U64(n.seqNo)
  }

  /** What a PlaneLossRecord can hold at all. */
  predicate RecOk(r: LossRec) {
    U8(r.plane) && U8(r.path) && U32(r.seen) && U32(r.expected) && U32(r.maxGap) && U32(r.trimmed)
  }

  // ---------------------------------------------------------------- probes and NACKs

  /** `encode_probe`; a field out of range raises. */
  function EncodeProbe(p: Probe): Result<Bytes, string> {
    if !ProbeOk(p) then Err("range")
    else Ok([MAGIC_PROBE, PROBE_VERSION, p.plane, p.path] + BE(p.tenant, 2) + BE(p.src, 2) + [p.dst, 0])
  }

  function DecodeProbe(b: Bytes): Result<Probe, string> {
    if |b| < PROBE_SIZE then Err("short")
    else if b[0] != MAGIC_PROBE then Err("magic")
    else if b[1] != PROBE_VERSION then Err("version")
    else Ok(Probe(b[2], b[3], FromBE(b[4..6]), FromBE(b[6..8]), b[8]))
  }

  function EncodeNack(n: Nack): Result<Bytes, string> {
    if !NackOk(n) then Err("range")
    else Ok([MAGIC_NACK, NACK_VERSION, n.plane, n.path]
            + BE(n.tenant, 2) + BE(n.src, 2) + BE(n.dst, 2) + BE(n.seqNo, 8))
  }

  function DecodeNack(b: Bytes): Result<Nack, string> {
    if |b| < NACK_SIZE then Err("short")
    else if b[0] != MAGIC_NACK then Err("magic")
    else if b[1] != NACK_VERSION then Err("version")
    else Ok(Nack(b[2], b[3], FromBE(b[4..6]), FromBE(b[6..8]), FromBE(b[8..10]), FromBE(b[10..18])))
  }

  /** A probe comes back as it was sent, whatever bytes follow it. */
  lemma {:induction false} ProbeRoundTrip(p: Probe, junk: Bytes)
    requires ProbeOk(p)
    ensures DecodeProbe(EncodeProbe(p).value + junk) == Ok(p)
  {
    var b := EncodeProbe(p).value + junk;
    Pow256Values();
    hide BE, FromBE;
    var h := [MAGIC_PROBE, PROBE_VERSION, p.plane, p.path];
    assert b == h + BE(p.tenant, 2) + (BE(p.src, 2) + [p.dst, 0] + junk);
    ReadField(h, p.tenant, 2, BE(p.src, 2) + [p.dst, 0] + junk);
    assert b == (h + BE(p.tenant, 2)) + BE(p.src, 2) + ([p.dst, 0] + junk);
    ReadField(h + BE(p.tenant, 2), p.src, 2, [p.dst, 0] + junk);
  }

  lemma {:induction false} NackRoundTrip(n: Nack, junk: Bytes)
    requires NackOk(n)
    ensures DecodeNack(EncodeNack(n).value + junk) == Ok(n)
  {
    var b := EncodeNack(n).value + junk;
    Pow256Values();
    hide BE, FromBE;
    var h := [MAGIC_NACK, NACK_VERSION, n.plane, n.path];
    var t, s, d, q := BE(n.tenant, 2), BE(n.src, 2), BE(n.dst, 2), BE(n.seqNo, 8);
    assert b == h + t + (s + d + q + junk);
    ReadField(h, n.tenant, 2, s + d + q + junk);
    assert b == (h + t) + s + (d + q + junk);
    ReadField(h + t, n.src, 2, d + q + junk);
    assert b == (h + t + s) + d + (q + junk);
    ReadField(h + t + s, n.dst, 2, q + junk);
    assert b == (h + t + s + d) + q + junk;
    ReadField(h + t + s + d, n.seqNo, 8, junk);
  }

  /** Only encoded probes decode: but for the reserved byte, what was decoded was the encoding of the result. */
  lemma {:induction false} DecodedProbeReencodes(b: Bytes)
    ensures DecodeProbe(b).Ok? ==>
      var p := DecodeProbe(b).value;
      |b| >= 10 && ProbeOk(p) && EncodeProbe(p) == Ok(b[..9] + [0])
    ensures DecodeProbe(b).Err? ==> forall p, junk, last: byte :: ProbeOk(p) ==>
      b != EncodeProbe(p).value[..9] + [last] + junk
  {
    if DecodeProbe(b).Ok? {
      Pow256Values();
      var t, s := b[4..6], b[6..8];
      FieldBack(t);
      FieldBack(s);
      hide BE, FromBE;
      assert b[..9] + [0] == [b[0], b[1], b[2], b[3]] + t + s + [b[8], 0];
    } else {
      forall p, junk, last: byte | ProbeOk(p) ensures b != EncodeProbe(p).value[..9] + [last] + junk {
        assert EncodeProbe(p).value[..9][0] == MAGIC_PROBE && EncodeProbe(p).value[..9][1] == PROBE_VERSION;
      }
    }
  }

  lemma {:induction false} DecodedNackReencodes(b: Bytes)
    ensures DecodeNack(b).Ok? ==>
      var n := DecodeNack(b).value;
      |b| >= 18 && NackOk(n) && EncodeNack(n) == Ok(b[..18])
    ensures DecodeNack(b).Err? ==> forall n, junk :: NackOk(n) ==> b != EncodeNack(n).value + junk
  {
    if DecodeNack(b).Ok? {
      Pow256Values();
      var t, s, d, q := b[4..6], b[6..8], b[8..10], b[10..18];
      FieldBack(t);
      FieldBack(s);
      FieldBack(d);
      FieldBack(q);
      hide BE, FromBE;
      assert b[..18] == [b[0], b[1], b[2], b[3]] + t + s + d + q;
    } else {
      forall n, junk | NackOk(n) ensures b != EncodeNack(n).value + junk { NackRoundTrip(n, junk); }
    }
  }

  lemma {:induction false} FieldBack(b: Bytes)
    ensures FromBE(b) < Pow256(|b|) && BE(FromBE(b), |b|) == b
  {
    FromBEBound(b);
    BEOfFromBE(b);
  }

  // ---------------------------------------------------------------- loss reports

  predicate HasTrims(rs: seq<LossRec>) {
    exists k :: 0 <= k < |rs| && rs[k].trimmed > 0
  }

  /** One record as written: the trim count capped to its 16 bits, or zero in version 2. */
  function RecBytes(r: LossRec, trims: bool): (b: Bytes)
    requires RecOk(r)
    ensures |b| == LOSS_REC_SIZE
  {
    [r.plane, r.path] + BE(if trims then Min(r.trimmed, 0xFFFF) else 0, 2)
      + BE(r.seen, 4) + BE(r.expected, 4) + BE(r.maxGap, 4)
  }

  function RecsBytes(rs: seq<LossRec>, trims: bool): (b: Bytes)
    requires forall k :: 0 <= k < |rs| ==> RecOk(rs[k])
    ensures |b| == |rs| * LOSS_REC_SIZE
  {
    if rs == [] then [] else RecBytes(rs[0], trims) + RecsBytes(rs[1..], trims)
  }

  function Header(windowId: nat, n: nat, trims: bool): (b: Bytes)
    ensures |b| == LOSS_HDR_SIZE
  {
    [MAGIC_LOSS_REPORT, if trims then LOSS_REPORT_VERSION_TRIMMED else LOSS_REPORT_VERSION]
      + BE(windowId, 2) + BE(n, 2) + BE(0, 2)
  }

  ghost function ReportBytes(windowId: nat, rs: seq<LossRec>): Bytes
    requires forall k :: 0 <= k < |rs| ==> RecOk(rs[k])
  {
    Header(windowId, |rs|, HasTrims(rs)) + RecsBytes(rs, HasTrims(rs))
  }

  /** `encode_loss_report`. */
  method EncodeLossReport(windowId: int, rs: seq<LossRec>) returns (r: Result<Bytes, string>)
    requires forall k :: 0 <= k < |rs| ==> RecOk(rs[k])
    ensures r.Ok? <==> U16(windowId) && |rs| <= 0xFFFF
    ensures r.Ok? ==> r.value == ReportBytes(windowId, rs)
  {
    if !U16(windowId) { return Err("window_id"); }
    if |rs| > 0xFFFF { return Err("too many records"); }
    var trims := false;
    for k := 0 to |rs|
      invariant trims <==> HasTrims(rs[..k])
    {
      assert rs[..k + 1] == rs[..k] + [rs[k]];
      if rs[k].trimmed > 0 {
        trims := true;
        assert rs[..k + 1][k].trimmed > 0;
      }
    }
    assert rs[..|rs|] == rs;
    var out := Header(windowId, |rs|, trims);
    for k := 0 to |rs|
      invariant out + RecsBytes(rs[k..], trims) == ReportBytes(windowId, rs)
    {
      assert rs[k..][1..] == rs[k + 1..];
      assert out + (RecBytes(rs[k], trims) + RecsBytes(rs[k + 1..], trims)) ==
             out + RecBytes(rs[k], trims) + RecsBytes(rs[k + 1..], trims);
      out := out + RecBytes(rs[k], trims);
    }
    assert out + RecsBytes([], trims) == out;
    return Ok(out);
  }

  function ReadRec(b: Bytes, version: byte): (r: LossRec)
    requires |b| == LOSS_REC_SIZE
  {
    LossRec(b[0], b[1], FromBE(b[4..8]), FromBE(b[8..12]), FromBE(b[12..16]),
      if version == LOSS_REPORT_VERSION_TRIMMED then FromBE(b[2..4]) else 0)
  }

  function ReadRecs(b: Bytes, n: nat, version: byte): (rs: seq<LossRec>)
    requires |b| >= n * LOSS_REC_SIZE
    ensures |rs| == n
  {
    if n == 0 then []
    else [ReadRec(b[..LOSS_REC_SIZE], version)] + ReadRecs(b[LOSS_REC_SIZE..], n - 1, version)
  }

  ghost function ParsedReport(b: Bytes): Result<LossReport, string> {
    if |b| < LOSS_HDR_SIZE then Err("short")
    else if b[0] != MAGIC_LOSS_REPORT then Err("magic")
    else if b[1] != LOSS_REPORT_VERSION && b[1] != LOSS_REPORT_VERSION_TRIMMED then Err("version")
    else
      var n := FromBE(b[4..6]);
      if |b| < LOSS_HDR_SIZE + n * LOSS_REC_SIZE then Err("truncated")
      else Ok(LossReport(FromBE(b[2..4]), ReadRecs(b[LOSS_HDR_SIZE..], n, b[1])))
  }

  /** `decode_loss_report`: every slice it takes lies inside the payload. */
  method DecodeLossReport(b: Bytes) returns (r: Result<LossReport, string>)
    ensures r == ParsedReport(b)
  {
    if |b| < LOSS_HDR_SIZE { return Err("short"); }
    var magic, version := b[0], b[1];
    var windowId, n := FromBE(b[2..4]), FromBE(b[4..6]);
    if magic != MAGIC_LOSS_REPORT { return Err("magic"); }
    if version != LOSS_REPORT_VERSION && version != LOSS_REPORT_VERSION_TRIMMED { return Err("version"); }
    if |b| < LOSS_HDR_SIZE + n * LOSS_REC_SIZE { return Err("truncated"); }
    var planes := ReadLoop(b, n, version);
    return Ok(LossReport(windowId, planes));
  }

  lemma {:induction false} SliceBehind(b: Bytes, head: nat, i: nat, j: nat)
    requires i <= j && head + j <= |b|
    ensures b[head..][i..j] == b[head + i..head + j]
  {
  }

  method ReadLoop(b: Bytes, n: nat, version: byte) returns (planes: seq<LossRec>)
    requires |b| >= LOSS_HDR_SIZE + n * LOSS_REC_SIZE
    ensures planes == ReadRecs(b[LOSS_HDR_SIZE..], n, version)
  {
    hide ReadRec, ReadRecs;
    planes := [];
    var off := LOSS_HDR_SIZE;
    for k := 0 to n
      invariant off == LOSS_HDR_SIZE + k * LOSS_REC_SIZE
      invariant planes == ReadRecs(b[LOSS_HDR_SIZE..], k, version)
    {
      ReadRecsSnoc(b[LOSS_HDR_SIZE..], k, version);
      SliceBehind(b, LOSS_HDR_SIZE, k * LOSS_REC_SIZE, (k + 1) * LOSS_REC_SIZE);
      planes := planes + [ReadRec(b[off..off + LOSS_REC_SIZE], version)];
      off := off + LOSS_REC_SIZE;
    }
  }

  lemma {:induction false} ReadRecsSnoc(b: Bytes, k: nat, version: byte)
    requires |b| >= (k + 1) * LOSS_REC_SIZE
    ensures ReadRecs(b, k + 1, version) == ReadRecs(b, k, version)
      + [ReadRec(b[k * LOSS_REC_SIZE..(k + 1) * LOSS_REC_SIZE], version)]
  {
    hide ReadRec;
    if k > 0 {
      var c := b[LOSS_REC_SIZE..];
      ReadRecsSnoc(c, k - 1, version);
      assert c[(k - 1) * LOSS_REC_SIZE..k * LOSS_REC_SIZE] == b[k * LOSS_REC_SIZE..(k + 1) * LOSS_REC_SIZE];
    } else {
      assert b[0 * LOSS_REC_SIZE..1 * LOSS_REC_SIZE] == b[..LOSS_REC_SIZE];
    }
  }

  /** A record as it arrives: the trim count capped to 16 bits. */
  function Capped(r: LossRec): LossRec { r.(trimmed := Min(r.trimmed, 0xFFFF)) }

  function CappedAll(rs: seq<LossRec>): (c: seq<LossRec>)
    ensures |c| == |rs|
  {
    if rs == [] then [] else [Capped(rs[0])] + CappedAll(rs[1..])
  }

  lemma {:induction false} ReadRecBytes(r: LossRec, trims: bool)
    requires RecOk(r) && (!trims ==> r.trimmed == 0)
    ensures ReadRec(RecBytes(r, trims), if trims then LOSS_REPORT_VERSION_TRIMMED else LOSS_REPORT_VERSION) ==
            Capped(r)
  {
    Pow256Values();
    var h := [r.plane as byte, r.path as byte];
    var m := if trims then Min(r.trimmed, 0xFFFF) else 0;
    var t, s, e, g := BE(m, 2), BE(r.seen, 4), BE(r.expected, 4), BE(r.maxGap, 4);
    var b := RecBytes(r, trims);
    assert b == h + t + (s + e + g);
    ReadField(h, m, 2, s + e + g);
    assert b == (h + t) + s + (e + g);
    ReadField(h + t, r.seen, 4, e + g);
    assert b == (h + t + s) + e + g;
    ReadField(h + t + s, r.expected, 4, g);
    assert b == (h + t + s + e) + g + [];
    ReadField(h + t + s + e, r.maxGap, 4, []);
  }

  lemma {:induction false} FrontAndRest(a: Bytes, b: Bytes, c: Bytes)
    ensures (a + b + c)[..|a|] == a && (a + b + c)[|a|..] == b + c
  {
  }

  lemma {:induction false} ReadRecsBytes(rs: seq<LossRec>, trims: bool, junk: Bytes)
    requires forall k :: 0 <= k < |rs| ==> RecOk(rs[k]) && (!trims ==> rs[k].trimmed == 0)
    ensures ReadRecs(RecsBytes(rs, trims) + junk, |rs|,
              if trims then LOSS_REPORT_VERSION_TRIMMED else LOSS_REPORT_VERSION) == CappedAll(rs)
  {
    if rs != [] {
      var b := RecsBytes(rs, trims) + junk;
      FrontAndRest(RecBytes(rs[0], trims), RecsBytes(rs[1..], trims), junk);
      ReadRecBytes(rs[0], trims);
      ReadRecsBytes(rs[1..], trims, junk);
    }
  }

  lemma {:induction false} ReadHeader(windowId: nat, n: nat, trims: bool, body: Bytes)
    requires U16(windowId) && U16(n)
    ensures var b := Header(windowId, n, trims) + body;
      FromBE(b[2..4]) == windowId && FromBE(b[4..6]) == n && b[LOSS_HDR_SIZE..] == body
  {
    Pow256Values();
    var h := Header(windowId, 0, trims)[..2];
    var w, c := BE(windowId, 2), BE(n, 2);
    var b := Header(windowId, n, trims) + body;
    assert b == h + w + (c + BE(0, 2) + body);
    ReadField(h, windowId, 2, c + BE(0, 2) + body);
    assert b == (h + w) + c + (BE(0, 2) + body);
    ReadField(h + w, n, 2, BE(0, 2) + body);
  }

  /**
    A loss report comes back with the same window id and the same records, trim counts capped at
    65535, whatever bytes follow; it travels as version 3 exactly when some record has trims.
   */
  lemma {:induction false} LossReportRoundTrip(windowId: nat, rs: seq<LossRec>, junk: Bytes)
    requires U16(windowId) && |rs| <= 0xFFFF && forall k :: 0 <= k < |rs| ==> RecOk(rs[k])
    ensures ParsedReport(ReportBytes(windowId, rs) + junk) == Ok(LossReport(windowId, CappedAll(rs)))
    ensures ReportBytes(windowId, rs)[1] == LOSS_REPORT_VERSION_TRIMMED <==> HasTrims(rs)
    ensures ReportBytes(windowId, rs)[1] == LOSS_REPORT_VERSION <==> !HasTrims(rs)
  {
    var trims := HasTrims(rs);
    var body := RecsBytes(rs, trims) + junk;
    assert ReportBytes(windowId, rs) + junk == Header(windowId, |rs|, trims) + body;
    ReadHeader(windowId, |rs|, trims, body);
    ReadRecsBytes(rs, trims, junk);
  }

  lemma {:induction false} CappedAllIdentity(rs: seq<LossRec>)
    requires forall k :: 0 <= k < |rs| ==> rs[k].trimmed <= 0xFFFF
    ensures CappedAll(rs) == rs
  {
    if rs != [] { CappedAllIdentity(rs[1..]); }
  }

  /** While trim counts fit 16 bits, fusing what arrived is fusing what the receiver measured. */
  lemma {:induction false} FusionSurvivesTheWire(
    t: Table, windowId: nat, rs: seq<LossRec>, p: Option<SentWindow>, junk: Bytes)
    requires U16(windowId) && |rs| <= 0xFFFF && PairFits(p, t)
    requires forall k :: 0 <= k < |rs| ==> RecOk(rs[k]) && rs[k].trimmed <= 0xFFFF
    ensures var r := ParsedReport(ReportBytes(windowId, rs) + junk);
      r.Ok? && Fuse(t, r.value.planes, p) == Fuse(t, rs, p)
  {
    LossReportRoundTrip(windowId, rs, junk);
    CappedAllIdentity(rs);
  }

  lemma {:induction false} ReadRecsInRange(b: Bytes, n: nat, version: byte)
    requires |b| >= n * LOSS_REC_SIZE
    ensures forall k :: 0 <= k < n ==>
      RecOk(ReadRecs(b, n, version)[k]) && ReadRecs(b, n, version)[k].trimmed <= 0xFFFF
  {
    if n > 0 {
      var h := b[..LOSS_REC_SIZE];
      Pow256Values();
      FromBEBound(h[2..4]);
      FromBEBound(h[4..8]);
      FromBEBound(h[8..12]);
      FromBEBound(h[12..16]);
      ReadRecsInRange(b[LOSS_REC_SIZE..], n - 1, version);
    }
  }

  /** Whatever bytes decode, re-encoding what they say and decoding again says the same. */
  lemma {:induction false} DecodedReportsReencode(b: Bytes)
    requires ParsedReport(b).Ok?
    ensures var r := ParsedReport(b).value;
      && U16(r.windowId) && |r.planes| <= 0xFFFF
      && (forall k :: 0 <= k < |r.planes| ==> RecOk(r.planes[k]))
      && ParsedReport(ReportBytes(r.windowId, r.planes)) == Ok(r)
  {
    var r := ParsedReport(b).value;
    Pow256Values();
    FromBEBound(b[2..4]);
    FromBEBound(b[4..6]);
    ReadRecsInRange(b[LOSS_HDR_SIZE..], FromBE(b[4..6]), b[1]);
    LossReportRoundTrip(r.windowId, r.planes, []);
    CappedAllIdentity(r.planes);
    assert ReportBytes(r.windowId, r.planes) + [] == ReportBytes(r.windowId, r.planes);
  }

  lemma {:induction false} RecBytesBack(x: Bytes)
    requires |x| == LOSS_REC_SIZE
    ensures RecOk(ReadRec(x, LOSS_REPORT_VERSION_TRIMMED))
    ensures RecBytes(ReadRec(x, LOSS_REPORT_VERSION_TRIMMED), true) == x
  {
    Pow256Values();
    var t, s, e, g := x[2..4], x[4..8], x[8..12], x[12..16];
    FieldBack(t);
    FieldBack(s);
    FieldBack(e);
    FieldBack(g);
    hide BE, FromBE;
    assert x == [x[0], x[1]] + t + s + e + g;
  }

  lemma {:induction false} RecsBytesBack(b: Bytes, n: nat)
    requires |b| >= n * LOSS_REC_SIZE
    ensures var rs := ReadRecs(b, n, LOSS_REPORT_VERSION_TRIMMED);
      (forall k :: 0 <= k < n ==> RecOk(rs[k])) && RecsBytes(rs, true) == b[..n * LOSS_REC_SIZE]
  {
    if n > 0 {
      var x, rest := b[..LOSS_REC_SIZE], b[LOSS_REC_SIZE..];
      RecBytesBack(x);
      RecsBytesBack(rest, n - 1);
      hide ReadRec, RecBytes;
      assert x + rest[..(n - 1) * LOSS_REC_SIZE] == b[..n * LOSS_REC_SIZE];
    }
  }

  lemma {:induction false} NoTrimsInVersion2(b: Bytes, n: nat)
    requires |b| >= n * LOSS_REC_SIZE
    ensures forall k :: 0 <= k < n ==> ReadRecs(b, n, LOSS_REPORT_VERSION)[k].trimmed == 0
  {
    if n > 0 { NoTrimsInVersion2(b[LOSS_REC_SIZE..], n - 1); }
  }

  /**
    Only reports decode, in version 2 or 3: the header states the window id and the number of records,
    version 2 has no trims, and a version 3 report's records are byte for byte those decoded.
   */
  lemma {:induction false} DecodedReportIsItsBytes(b: Bytes)
    ensures ParsedReport(b).Ok? ==>
      var r := ParsedReport(b).value; var n := |r.planes|;
      && |b| >= 8 + 16 * n && b[0] == 0xA7 && (b[1] == 2 || b[1] == 3)
      && b[2..4] == BE(r.windowId, 2) && b[4..6] == BE(n, 2)
      && (b[1] == 2 ==> forall k :: 0 <= k < n ==> r.planes[k].trimmed == 0)
      && (b[1] == 3 ==>
            && (forall k :: 0 <= k < n ==> RecOk(r.planes[k]))
            && RecsBytes(r.planes, true) == b[8..8 + 16 * n])
    ensures ParsedReport(b).Err? ==>
      forall id: nat, rs, junk :: U16(id) && |rs| <= 0xFFFF && (forall k :: 0 <= k < |rs| ==> RecOk(rs[k])) ==>
        b != ReportBytes(id, rs) + junk
  {
    if ParsedReport(b).Ok? {
      var n := FromBE(b[4..6]);
      FieldBack(b[2..4]);
      FieldBack(b[4..6]);
      if b[1] == 2 { NoTrimsInVersion2(b[8..], n); } else { RecsBytesBack(b[8..], n); }
      hide BE, FromBE, ReadRecs, RecsBytes;
      assert b[8..][..16 * n] == b[8..8 + 16 * n];
    } else {
      forall id: nat, rs, junk | U16(id) && |rs| <= 0xFFFF && (forall k :: 0 <= k < |rs| ==> RecOk(rs[k]))
        ensures b != ReportBytes(id, rs) + junk
      {
        LossReportRoundTrip(id, rs, junk);
      }
    }
  }

  /** No encoded message decodes as one of the other two kinds. */
  lemma {:induction false} KindsDoNotMix(p: Probe, n: Nack, windowId: nat, rs: seq<LossRec>, junk: Bytes)
    requires ProbeOk(p) && NackOk(n) && forall k :: 0 <= k < |rs| ==> RecOk(rs[k])
    ensures var pb := EncodeProbe(p).value + junk;
      ParsedReport(pb).Err? && DecodeNack(pb).Err?
    ensures var nb := EncodeNack(n).value + junk;
      ParsedReport(nb).Err? && DecodeProbe(nb).Err?
    ensures var rb := ReportBytes(windowId, rs) + junk;
      DecodeProbe(rb).Err? && DecodeNack(rb).Err?
  {
    assert (EncodeProbe(p).value + junk)[0] == MAGIC_PROBE;
    assert (EncodeNack(n).value + junk)[0] == MAGIC_NACK;
    assert (ReportBytes(windowId, rs) + junk)[0] == MAGIC_LOSS_REPORT;
  }
}
