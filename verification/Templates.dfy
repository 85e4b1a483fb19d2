/**
  The data fast path (`srv6_mrc/runner.py`, `_PacketTemplates`): cached byte templates patched in place,
  against building every packet from scratch.
 */
module Templates {
  import opened ByteCodec
  import opened Checksum
  import opened Packets

  /** The cache key; the underlay source is not part of it. */
  datatype Key = Key(plane: byte, path: byte, trimmed: bool, dstOuter: Ip6)

  /** Template bytes, UDP payload length, whether a BTH precedes the payload, CRC of the ICRC prefix. */
  datatype Entry = Entry(template: Bytes, plen: nat, bth: bool, icrcPrefix: bv32)

  function MrcLen(trimmed: bool): nat { if trimmed then MRC_LEN else MRC_LEN + 32 }

  function PayloadLen(rdma: bool, trimmed: bool): nat { MrcLen(trimmed) + if rdma then 16 else 0 }

  /** The constant part of the ICRC's input. */
  function IcrcPrefix(r: Route, key: Key): Bytes {
    IcrcHead(Ip6Header(r.srcInner, r.dstInner, 17, 24 + MrcLen(key.trimmed)),
             UdpHeader(r.sport, r.dport, 24 + MrcLen(key.trimmed), 0), BthHead(key.plane, key.path))
  }

  /** The template of a key: its constant bytes, with payload, ICRC and checksum still zero. */
  function TemplatePayload(key: Key, rdma: bool): (b: Bytes)
    ensures |b| == PayloadLen(rdma, key.trimmed)
  {
    if rdma then Bth(key.plane, key.path, 0) + Repeat(0, MrcLen(key.trimmed) + 4) else Repeat(0, MrcLen(key.trimmed))
  }

  function EntryFor(r: Route, key: Key, rdma: bool): Entry {
    Entry(Frame(r, TemplatePayload(key, rdma), 0), PayloadLen(rdma, key.trimmed), rdma,
          if rdma then Crc32.Crc(IcrcPrefix(r, key), 0) else 0)
  }

  /** The tail folded into the cached CRC gives the ICRC of the whole packet. */
  lemma {:induction false} IcrcContinues(r: Route, key: Key, seqNo: Seq64, mrc: Bytes)
    requires |mrc| == MrcLen(key.trimmed)
    ensures Crc32.Crc(Psn(seqNo) + mrc, Crc32.Crc(IcrcPrefix(r, key), 0))
      == Icrc(r, Bth(key.plane, key.path, seqNo), mrc)
  {
    var ip := Ip6Header(r.srcInner, r.dstInner, 17, 24 + |mrc|);
    var udp := UdpHeader(r.sport, r.dport, 24 + |mrc|, 0);
    var bth := Bth(key.plane, key.path, seqNo);
    assert MaskBth(bth) == MaskBth(BthHead(key.plane, key.path)) + Psn(seqNo);
    assert IcrcHead(ip, udp, bth) + mrc == IcrcPrefix(r, key) + (Psn(seqNo) + mrc);
    hide Crc32.Crc, IcrcHead;
    Crc32.Continued(IcrcPrefix(r, key), Psn(seqNo) + mrc, 0);
  }

  /** The three patches of a RoCEv2 payload on top of the template's. */
  lemma {:induction false} PatchesGiveWrap(r: Route, key: Key, seqNo: Seq64, mrc: Bytes, icrc: Bytes)
    requires |mrc| == MrcLen(key.trimmed) && |icrc| == 4
    ensures var x0 := TemplatePayload(key, true);
      Splice(Splice(Splice(x0, 9, Psn(seqNo)), 12, mrc), 12 + |mrc|, icrc)
      == Bth(key.plane, key.path, seqNo) + mrc + icrc
  {
    var x0 := TemplatePayload(key, true);
    var x1 := Splice(x0, 9, Psn(seqNo));
    assert Bth(key.plane, key.path, 0)[..9] == BthHead(key.plane, key.path);
    assert x1 == Bth(key.plane, key.path, seqNo) + Repeat(0, |mrc| + 4);
    var x2 := Splice(x1, 12, mrc);
    assert x2 == Bth(key.plane, key.path, seqNo) + mrc + Repeat(0, 4);
  }

  /** `buf[at:at + len(part)] = part`. */
  method Put(buf: array<byte>, at: nat, part: Bytes)
    requires at + |part| <= buf.Length
    modifies buf
    ensures buf[..] == Splice(old(buf[..]), at, part)
  {
    forall i | 0 <= i < |part| { buf[at + i] := part[i]; }
  }

  /** `bytearray(b)`. */
  method CopyOf(b: Bytes) returns (buf: array<byte>)
    ensures fresh(buf) && buf[..] == b
  {
    buf := new byte[|b|](i requires 0 <= i < |b| => b[i]);
  }

  /** `build_outer_template`. */
  method BuildOuterTemplate(r: Route, payloadLen: nat) returns (buf: array<byte>)
    requires 48 + payloadLen < 0x1_0000
    ensures fresh(buf) && buf[..] == Frame(r, Repeat(0, payloadLen), 0)
  {
    var zeros := Repeat(0, payloadLen);
    FieldOfFrame(r, zeros, CsumOf(r, zeros), 0);
    var bytes := BuildOuterPacket(r, zeros);
    hide Frame, CsumOf;
    buf := CopyOf(bytes);
    buf[CSUM_AT] := 0;
    buf[CSUM_AT + 1] := 0;
    assert buf[..] == WithField(bytes, 0);
  }

  class PacketTemplates {
    const srcInner: Ip6
    const dstInner: Ip6
    const rdma: bool
    var cache: map<Key, Entry>
    /** The underlay source each entry was made with. */
    ghost var origin: map<Key, Ip6>

    function RouteOf(srcUnderlay: Ip6, key: Key): Route {
      RouteFor(srcUnderlay, key.dstOuter, srcInner, dstInner, rdma)
    }

    ghost predicate Valid()
      reads this
    {
      && cache.Keys == origin.Keys
      && forall k :: k in cache ==> cache[k] == EntryFor(RouteOf(origin[k], k), k, rdma)
    }

    constructor (srcInner: Ip6, dstInner: Ip6, rdma: bool)
      ensures Valid() && cache == map[] && origin == map[]
      ensures this.srcInner == srcInner && this.dstInner == dstInner && this.rdma == rdma
    {
      this.srcInner, this.dstInner, this.rdma := srcInner, dstInner, rdma;
      cache, origin := map[], map[];
    }

    /** `_make`: the constant bytes come from a real frame for sequence number 0. */
    method Make(key: Key, srcUnderlay: Ip6) returns (e: Entry)
      ensures e == EntryFor(RouteOf(srcUnderlay, key), key, rdma)
    {
      var mrcLen := MrcLen(key.trimmed);
      var r := RouteOf(srcUnderlay, key);
      if !rdma {
        var plain := BuildOuterTemplate(r, mrcLen);
        return Entry(plain[..], mrcLen, false, 0);
      }
      e := MakeRoce(key, r);
    }

    /** The RoCEv2 half of `_make`. */
    method MakeRoce(key: Key, r: Route) returns (e: Entry)
      ensures e == EntryFor(r, key, true)
    {
      var frame := WrapRdma(r, Repeat(0, MrcLen(key.trimmed)), key.plane, key.path, 0);
      assert frame[..9] == BthHead(key.plane, key.path);
      TemplateIs(r, key, frame);
      FrameParts(r, TemplatePayload(key, true), 0);
      hide Frame, Splice, TemplatePayload, IcrcHead, Crc32.Crc, WrapRdma;
      var tpl := BuildOuterTemplate(r, |frame|);
      Put(tpl, PAYLOAD_AT, frame[..12]);
      var prefix := IcrcHead(tpl[40..80], tpl[80..88], frame[..9]);
      e := Entry(tpl[..], |frame|, true, Crc32.Crc(prefix, 0));
    }

    /** `build`: patch the key's template, making it first if there is none. */
    method Build(seqNo: Seq64, plane: byte, path: byte, srcUnderlay: Ip6, dstOuter: Ip6, trimmed: bool)
      returns (packet: Bytes)
      requires Valid()
      modifies this
      ensures Valid()
      ensures var key := Key(plane, path, trimmed, dstOuter);
        && origin == NoteOrigin(old(origin), key, srcUnderlay)
        && packet == BuildPacketBytes(RouteOf(origin[key], key), seqNo, plane, path, rdma, trimmed)
    {
      var key := Key(plane, path, trimmed, dstOuter);
      hide RouteFor, EntryFor, BuildPacketBytes;
      if key !in cache {
        var made := Make(key, srcUnderlay);
        cache := cache[key := made];
        origin := origin[key := srcUnderlay];
      }
      packet := PatchTemplate(RouteOf(origin[key], key), key, cache[key], seqNo);
    }

    /** Call `k` of a sequence. */
    method BuildCall(c: Call, ghost calls: seq<Call>, ghost k: nat) returns (packet: Bytes)
      requires Valid() && k < |calls| && c == calls[k] && origin == OriginAfter(calls[..k])
      modifies this
      ensures Valid() && origin == OriginAfter(calls[..k + 1])
      ensures packet == Output(calls, k, srcInner, dstInner, rdma)
    {
      hide BuildPacketBytes, EntryFor;
      assert calls[..k + 1][..k] == calls[..k] && calls[..k + 1][k] == calls[k];
      packet := Build(c.seqNo, c.key.plane, c.key.path, c.srcUnderlay, c.key.dstOuter, c.key.trimmed);
    }

    /** The per-packet patches of `build`. */
    method PatchTemplate(ghost r: Route, key: Key, e: Entry, seqNo: Seq64) returns (packet: Bytes)
      requires e == EntryFor(r, key, rdma)
      ensures packet == BuildPacketBytes(r, seqNo, key.plane, key.path, rdma, key.trimmed)
    {
      var mrc := MrcPayload(seqNo, key.plane, key.path, key.trimmed);
      ghost var payload := UdpPayload(r, seqNo, key.plane, key.path, rdma, key.trimmed);
      PatchedFrame(r, payload);
      var buf := CopyOf(e.template);
      if e.bth { RocePatches(r, key, seqNo); } else { PlainPatch(r, key, seqNo); }
      hide Frame, Splice, UdpPayload, BuildOuterPacket, Crc32.Crc, Crc32.LE4;
      if !e.bth {
        Put(buf, PAYLOAD_AT, mrc);
      } else {
        var psn := Psn(seqNo);
        Put(buf, PAYLOAD_AT + 9, psn);
        Put(buf, PAYLOAD_AT + 12, mrc);
        var icrc := Crc32.LE4(Crc32.Crc(psn + mrc, e.icrcPrefix));
        Put(buf, PAYLOAD_AT + 12 + |mrc|, icrc);
      }
      assert buf[..] == Frame(r, payload, 0);
      Udp6ChecksumInplace(buf, e.plen);
      packet := buf[..];
    }
  }

  /** A UDP template with its payload written in. */
  lemma {:induction false} PlainPatch(r: Route, key: Key, seqNo: Seq64)
    ensures var mrc := MrcPayload(seqNo, key.plane, key.path, key.trimmed);
      Splice(EntryFor(r, key, false).template, PAYLOAD_AT, mrc)
      == Frame(r, UdpPayload(r, seqNo, key.plane, key.path, false, key.trimmed), 0)
  {
    var mrc := MrcPayload(seqNo, key.plane, key.path, key.trimmed);
    SpliceFrame(r, TemplatePayload(key, false), 0, 0, mrc);
    assert Splice(TemplatePayload(key, false), 0, mrc) == mrc;
  }

  /** A RoCEv2 template with PSN, payload and ICRC written in. */
  lemma {:induction false} RocePatches(r: Route, key: Key, seqNo: Seq64)
    ensures var e, mrc, psn := EntryFor(r, key, true), MrcPayload(seqNo, key.plane, key.path, key.trimmed), Psn(seqNo);
      var icrc := Crc32.LE4(Crc32.Crc(psn + mrc, e.icrcPrefix));
      Splice(Splice(Splice(e.template, PAYLOAD_AT + 9, psn), PAYLOAD_AT + 12, mrc), PAYLOAD_AT + 12 + |mrc|, icrc)
      == Frame(r, UdpPayload(r, seqNo, key.plane, key.path, true, key.trimmed), 0)
  {
    var x, mrc, psn := TemplatePayload(key, true), MrcPayload(seqNo, key.plane, key.path, key.trimmed), Psn(seqNo);
    var icrc := Crc32.LE4(Crc32.Crc(psn + mrc, EntryFor(r, key, true).icrcPrefix));
    PatchesGiveWrap(r, key, seqNo, mrc, icrc);
    IcrcContinues(r, key, seqNo, mrc);
    hide Splice, Frame, TemplatePayload, MrcPayload, Crc32.Crc, Crc32.LE4, Icrc, IcrcPrefix;
    SpliceFrame(r, x, 0, 9, psn);
    SpliceFrame(r, Splice(x, 9, psn), 0, 12, mrc);
    SpliceFrame(r, Splice(Splice(x, 9, psn), 12, mrc), 0, 12 + |mrc|, icrc);
  }

  /** The template the source makes is the frame's constant bytes over a zero payload. */
  lemma {:induction false} TemplateIs(r: Route, key: Key, frame: Bytes)
    requires frame == WrapRdma(r, Repeat(0, MrcLen(key.trimmed)), key.plane, key.path, 0)
    ensures Splice(Frame(r, Repeat(0, |frame|), 0), PAYLOAD_AT, frame[..12]) == Frame(r, TemplatePayload(key, true), 0)
  {
    var zeros, bth := Repeat(0, |frame|), Bth(key.plane, key.path, 0);
    WrapHead(r, Repeat(0, MrcLen(key.trimmed)), key, frame);
    ZerosAfter(bth, MrcLen(key.trimmed) + 4);
    hide Frame, WrapRdma, Bth, Splice, Repeat;
    SpliceFrame(r, zeros, 0, 0, bth);
  }

  lemma {:induction false} WrapHead(r: Route, mrc: Bytes, key: Key, frame: Bytes)
    requires frame == WrapRdma(r, mrc, key.plane, key.path, 0)
    ensures frame[..12] == Bth(key.plane, key.path, 0) && |frame| == 16 + |mrc|
  {
    hide Bth, Icrc, Crc32.LE4;
  }

  lemma {:induction false} ZerosAfter(head: Bytes, n: nat)
    ensures Splice(Repeat(0, |head| + n), 0, head) == head + Repeat(0, n)
  {
  }

  // ---------------------------------------------------------------- any sequence of builds

  datatype Call = Call(seqNo: Seq64, key: Key, srcUnderlay: Ip6)

  /** What a build does to the record of which source each entry was made with. */
  function NoteOrigin(origin: map<Key, Ip6>, key: Key, srcUnderlay: Ip6): (o: map<Key, Ip6>)
    ensures key in o
  {
    if key in origin then origin else origin[key := srcUnderlay]
  }

  function OriginAfter(calls: seq<Call>): map<Key, Ip6> {
    if calls == [] then map[]
    else
      var c := calls[|calls| - 1];
      NoteOrigin(OriginAfter(calls[..|calls| - 1]), c.key, c.srcUnderlay)
  }

  /** The packet of a call with a given underlay source. */
  function PacketOf(c: Call, srcUnderlay: Ip6, srcInner: Ip6, dstInner: Ip6, rdma: bool): Bytes {
    BuildPacketBytes(RouteFor(srcUnderlay, c.key.dstOuter, srcInner, dstInner, rdma),
      c.seqNo, c.key.plane, c.key.path, rdma, c.key.trimmed)
  }

  /** The source behind the entry that call `k` used. */
  function SourceUsed(calls: seq<Call>, k: nat): Ip6
    requires k < |calls|
  {
    assert calls[..k + 1][k] == calls[k];
    OriginAfter(calls[..k + 1])[calls[k].key]
  }

  /** The packet call `k` gets from a cache that started empty; RunCalls shows it of the real one. */
  function Output(calls: seq<Call>, k: nat, srcInner: Ip6, dstInner: Ip6, rdma: bool): Bytes
    requires k < |calls|
  {
    PacketOf(calls[k], SourceUsed(calls, k), srcInner, dstInner, rdma)
  }

  /** The packet call `k` would get without a cache. */
  function Scratch(calls: seq<Call>, k: nat, srcInner: Ip6, dstInner: Ip6, rdma: bool): Bytes
    requires k < |calls|
  {
    PacketOf(calls[k], calls[k].srcUnderlay, srcInner, dstInner, rdma)
  }

  /** Calls with the same key name the same underlay source. */
  ghost predicate SourceFixed(calls: seq<Call>) {
    forall i, j :: 0 <= i < j < |calls| && calls[i].key == calls[j].key ==> calls[i].srcUnderlay == calls[j].srcUnderlay
  }

  /** The entry of a key was made with the source of a call that used the key. */
  lemma {:induction false} OriginFromCall(calls: seq<Call>, key: Key)
    ensures key in OriginAfter(calls) ==>
      exists i :: 0 <= i < |calls| && calls[i].key == key && calls[i].srcUnderlay == OriginAfter(calls)[key]
    ensures key !in OriginAfter(calls) ==> forall i :: 0 <= i < |calls| ==> calls[i].key != key
  {
    if calls != [] {
      var before := calls[..|calls| - 1];
      OriginFromCall(before, key);
      if key in OriginAfter(before) {
        var i :| 0 <= i < |before| && before[i].key == key && before[i].srcUnderlay == OriginAfter(before)[key];
        assert calls[i] == before[i];
      } else {
        forall i | 0 <= i < |before| ensures calls[i].key != key { assert before[i].key != key; }
      }
    }
  }

  /** The source can be read back from a packet. */
  lemma {:induction false} SourceInPacket(c: Call, s1: Ip6, s2: Ip6, srcInner: Ip6, dstInner: Ip6, rdma: bool)
    ensures PacketOf(c, s1, srcInner, dstInner, rdma) == PacketOf(c, s2, srcInner, dstInner, rdma) <==> s1 == s2
  {
    var p1, p2 := PacketOf(c, s1, srcInner, dstInner, rdma), PacketOf(c, s2, srcInner, dstInner, rdma);
    var r1 := RouteFor(s1, c.key.dstOuter, srcInner, dstInner, rdma);
    var r2 := RouteFor(s2, c.key.dstOuter, srcInner, dstInner, rdma);
    SourceAt(r1, UdpPayload(r1, c.seqNo, c.key.plane, c.key.path, rdma, c.key.trimmed));
    SourceAt(r2, UdpPayload(r2, c.seqNo, c.key.plane, c.key.path, rdma, c.key.trimmed));
  }

  lemma {:induction false} SourceAt(r: Route, payload: Bytes)
    requires Short(payload)
    ensures |BuildOuterPacket(r, payload)| >= 24 && BuildOuterPacket(r, payload)[8..24] == r.srcUnderlay
  {
  }

  /**
    The fast path is the slow path: over any sequence of builds every packet equals the one built from
    scratch, if and only if calls that share a key (plane, path, trimmed, outer destination) also share
    the underlay source the key leaves out.
   */
  lemma {:induction false} FastPathIsSlowPath(calls: seq<Call>, srcInner: Ip6, dstInner: Ip6, rdma: bool)
    ensures (forall k :: 0 <= k < |calls| ==>
        Output(calls, k, srcInner, dstInner, rdma) == Scratch(calls, k, srcInner, dstInner, rdma))
      <==> SourceFixed(calls)
  {
    forall k | 0 <= k < |calls|
      ensures Output(calls, k, srcInner, dstInner, rdma) == Scratch(calls, k, srcInner, dstInner, rdma)
        <==> SourceUsed(calls, k) == calls[k].srcUnderlay
    {
      SourceInPacket(calls[k], SourceUsed(calls, k), calls[k].srcUnderlay, srcInner, dstInner, rdma);
    }
    hide Output, Scratch;
    SourcesMatch(calls);
  }

  /** Call `k` finds an entry, and with fixed sources it is one made with its own source. */
  lemma {:induction false} EntryOfCall(calls: seq<Call>, k: nat)
    requires k < |calls|
    ensures calls[k].key in OriginAfter(calls[..k + 1])
    ensures SourceFixed(calls) ==> SourceUsed(calls, k) == calls[k].srcUnderlay
  {
    OriginFromCall(calls[..k + 1], calls[k].key);
    assert calls[..k + 1][k] == calls[k];
  }

  lemma {:induction false} SourcesMatch(calls: seq<Call>)
    ensures (forall k :: 0 <= k < |calls| ==> SourceUsed(calls, k) == calls[k].srcUnderlay) <==> SourceFixed(calls)
  {
    forall k | 0 <= k < |calls|
      ensures calls[k].key in OriginAfter(calls[..k + 1])
      ensures SourceFixed(calls) ==> SourceUsed(calls, k) == calls[k].srcUnderlay
    {
      EntryOfCall(calls, k);
    }
    hide OriginAfter;
    if forall k :: 0 <= k < |calls| ==> SourceUsed(calls, k) == calls[k].srcUnderlay {
      forall i, j | 0 <= i < j < |calls| && calls[i].key == calls[j].key
        ensures calls[i].srcUnderlay == calls[j].srcUnderlay
      {
        OriginKept(calls, calls[i].key, i + 1, j + 1);
        assert SourceUsed(calls, i) == calls[i].srcUnderlay && SourceUsed(calls, j) == calls[j].srcUnderlay;
      }
    }
  }

  lemma {:induction false} OriginKept(calls: seq<Call>, key: Key, m: nat, n: nat)
    requires m <= n <= |calls| && key in OriginAfter(calls[..m])
    ensures key in OriginAfter(calls[..n]) && OriginAfter(calls[..n])[key] == OriginAfter(calls[..m])[key]
  {
    if m < n {
      OriginKept(calls, key, m, n - 1);
      assert calls[..n][..n - 1] == calls[..n - 1];
    }
  }

  /** A sender that fixes one underlay source per plane, as `run_sender` does, gets the slow path's bytes. */
  lemma {:induction false} PlaneSourcesSuffice(
    calls: seq<Call>, sources: map<byte, Ip6>, k: nat, srcInner: Ip6, dstInner: Ip6, rdma: bool)
    requires forall c :: c in calls ==> c.key.plane in sources && c.srcUnderlay == sources[c.key.plane]
    requires k < |calls|
    ensures Output(calls, k, srcInner, dstInner, rdma)
      == PacketOf(calls[k], sources[calls[k].key.plane], srcInner, dstInner, rdma)
  {
    assert SourceFixed(calls);
    SourcesMatch(calls);
  }

  /** The packets of the first `k` calls. */
  function Outputs(calls: seq<Call>, k: nat, srcInner: Ip6, dstInner: Ip6, rdma: bool): (packets: seq<Bytes>)
    requires k <= |calls|
  {
    if k == 0 then []
    else Outputs(calls, k - 1, srcInner, dstInner, rdma) + [Output(calls, k - 1, srcInner, dstInner, rdma)]
  }

  lemma {:induction false} OutputsAt(calls: seq<Call>, k: nat, srcInner: Ip6, dstInner: Ip6, rdma: bool)
    requires k <= |calls|
    ensures var packets := Outputs(calls, k, srcInner, dstInner, rdma);
      |packets| == k && forall j :: 0 <= j < k ==> packets[j] == Output(calls, j, srcInner, dstInner, rdma)
  {
    hide Output;
    if k > 0 { OutputsAt(calls, k - 1, srcInner, dstInner, rdma); }
  }

  /** Runs the calls on a cache that starts empty. */
  method BuildAll(calls: seq<Call>, templates: PacketTemplates) returns (packets: seq<Bytes>)
    requires templates.Valid() && templates.origin == map[]
    modifies templates
    ensures packets == Outputs(calls, |calls|, templates.srcInner, templates.dstInner, templates.rdma)
  {
    packets := [];
    assert calls[..0] == [];
    assert OriginAfter([]) == map[];
    hide OriginAfter, Output;
    for k := 0 to |calls|
      invariant templates.Valid() && templates.origin == OriginAfter(calls[..k])
      invariant packets == Outputs(calls, k, templates.srcInner, templates.dstInner, templates.rdma)
    {
      var packet := templates.BuildCall(calls[k], calls, k);
      packets := packets + [packet];
    }
  }

  /** The packets of a new cache are those built from scratch if and only if every key keeps its source. */
  method RunCalls(calls: seq<Call>, srcInner: Ip6, dstInner: Ip6, rdma: bool) returns (packets: seq<Bytes>)
    ensures |packets| == |calls|
    ensures forall k :: 0 <= k < |calls| ==> packets[k] == Output(calls, k, srcInner, dstInner, rdma)
    ensures (forall k :: 0 <= k < |calls| ==> packets[k] == Scratch(calls, k, srcInner, dstInner, rdma))
      <==> SourceFixed(calls)
  {
    var templates := new PacketTemplates(srcInner, dstInner, rdma);
    packets := BuildAll(calls, templates);
    OutputsAt(calls, |calls|, srcInner, dstInner, rdma);
    hide Output, Scratch, SourceFixed;
    FastPathIsSlowPath(calls, srcInner, dstInner, rdma);
  }

  /** It does fail: of two calls with one key and two sources, the second gets the first one's source. */
  lemma {:induction false} TwoSourcesOneKey(
    seqNo: Seq64, key: Key, s1: Ip6, s2: Ip6, srcInner: Ip6, dstInner: Ip6, rdma: bool)
    requires s1 != s2
    ensures var calls := [Call(seqNo, key, s1), Call(seqNo, key, s2)];
      && Output(calls, 1, srcInner, dstInner, rdma) == Scratch(calls, 0, srcInner, dstInner, rdma)
      && Output(calls, 1, srcInner, dstInner, rdma) != Scratch(calls, 1, srcInner, dstInner, rdma)
  {
    var a, b := Call(seqNo, key, s1), Call(seqNo, key, s2);
    var calls := [a, b];
    assert calls[..|calls| - 1] == [a] && calls[..1] == [a] && calls[..2] == calls && [a][..0] == [];
    assert OriginAfter([]) == map[];
    assert OriginAfter([a]) == map[key := s1];
    assert OriginAfter(calls) == NoteOrigin(OriginAfter([a]), key, s2) == map[key := s1];
    SourceInPacket(b, s1, s2, srcInner, dstInner, rdma);
  }
}
