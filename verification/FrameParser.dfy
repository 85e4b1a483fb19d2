/**
  The receiver's fixed-offset parser (`srv6_mrc/runner.py`, `_parse_frame`, `_unwrap_bth`,
  `parse_payload` and the decoding half of `run_receiver`'s handler), and that it undoes the sender.
 */
module FrameParser {
  import opened Arith
  import opened Wrappers
  import opened ByteCodec
  import opened Packets

  const IPV6: nat := 0x86DD

  predicate IsVlanTag(etype: nat) { etype == 0x8100 || etype == 0x88A8 }

  function U16(b: Bytes, at: nat): nat
    requires at + 2 <= |b|
  {
    b[at] as int * 256 + b[at + 1]
  }

  /** Where the EtherType is, behind any VLAN tags. */
  function TypeAt(frame: Bytes, off: nat): (r: nat)
    requires off + 2 <= |frame|
    ensures off <= r && r + 2 <= |frame|
    decreases |frame| - off
  {
    if IsVlanTag(U16(frame, off)) && |frame| >= off + 6 then TypeAt(frame, off + 4) else off
  }

  datatype Datagram = Datagram(src: Bytes, dst: Bytes, sport: nat, dport: nat, payload: Bytes)

  /** An IPv6 header at `ip` within the first `end` bytes. */
  predicate HeaderAt(frame: Bytes, ip: nat, end: nat) {
    end <= |frame| && ip + 40 <= end && frame[ip] / 16 == 6
  }

  /** The end of the packet: what the payload length says, at most what is there. */
  function EndOf(frame: Bytes, ip: nat, end: nat): nat
    requires HeaderAt(frame, ip, end)
  {
    Min(end, ip + 40 + U16(frame, ip + 4))
  }

  function ParseUdp(frame: Bytes, ip: nat, end: nat): Option<Datagram>
    requires HeaderAt(frame, ip, |frame|) && end <= |frame|
  {
    if frame[ip + 6] != 17 || end < ip + 48 then None
    else Some(Datagram(frame[ip + 8..ip + 24], frame[ip + 24..ip + 40], U16(frame, ip + 40), U16(frame, ip + 42),
                       frame[ip + 48..end]))
  }

  function ParseIp(frame: Bytes, ip: nat): Option<Datagram> {
    if !HeaderAt(frame, ip, |frame|) then None
    else
      var end := EndOf(frame, ip, |frame|);
      if frame[ip + 6] != 41 then ParseUdp(frame, ip, end)
      else if !HeaderAt(frame, ip + 40, end) then None
      else ParseUdp(frame, ip + 40, EndOf(frame, ip + 40, end))
  }

  /** `_parse_frame`. */
  function Parsed(frame: Bytes): Option<Datagram> {
    if |frame| < 14 then None
    else
      var off := TypeAt(frame, 12);
      if U16(frame, off) != IPV6 then None else ParseIp(frame, off + 2)
  }

  /** `_parse_frame` with its offset loop. */
  method ParseFrame(frame: Bytes) returns (r: Option<Datagram>)
    ensures r == Parsed(frame)
  {
    if |frame| < 14 { return None; }
    var off := 12;
    var etype := U16(frame, off);
    while IsVlanTag(etype) && |frame| >= off + 6
      invariant 12 <= off && off + 2 <= |frame| && etype == U16(frame, off)
      invariant TypeAt(frame, off) == TypeAt(frame, 12)
      decreases |frame| - off
    {
      off := off + 4;
      etype := U16(frame, off);
    }
    var ip := off + 2;
    if etype != IPV6 || |frame| < ip + 40 || frame[ip] / 16 != 6 { return None; }
    var end := Min(|frame|, ip + 40 + U16(frame, ip + 4));
    var nh := frame[ip + 6];
    if nh == 41 {
      ip := ip + 40;
      if end < ip + 40 || frame[ip] / 16 != 6 { return None; }
      end := Min(end, ip + 40 + U16(frame, ip + 4));
      nh := frame[ip + 6];
    }
    if nh != 17 { return None; }
    var udp := ip + 40;
    if end < udp + 8 { return None; }
    r := Some(Datagram(frame[ip + 8..ip + 24], frame[ip + 24..ip + 40], U16(frame, udp), U16(frame, udp + 2),
                       frame[udp + 8..end]));
  }

  /** `_unwrap_bth`. */
  function UnwrapBth(p: Bytes): Option<Bytes> {
    if |p| <= 16 then None else Some(p[12..|p| - 4])
  }

  /** `parse_payload`. */
  function ParsePayload(raw: Bytes): Option<(nat, byte, byte)> {
    if |raw| < MRC_LEN then None else Some((FromBE(raw[..8]), raw[8], raw[9]))
  }

  /** What the handler of `run_receiver` makes of a data packet. */
  datatype Data = Data(src: Bytes, sport: nat, dport: nat, seqNo: nat, plane: byte, path: byte, trimmed: bool)

  /** The decoding half of the handler: framing by port, own destination only, header-only means trimmed. */
  function Decode(frame: Bytes, self: Bytes): Option<Data> {
    var d := Parsed(frame);
    if d.None? then None
    else
      var raw :=
        if d.value.dport == SPRAY_PORT then Some(d.value.payload)
        else if d.value.dport == RDMA_PORT then UnwrapBth(d.value.payload)
        else None;
      if raw.None? || d.value.dst != self then None
      else
        var ev := ParsePayload(raw.value);
        if ev.None? then None
        else Some(Data(d.value.src, d.value.sport, d.value.dport, ev.value.0, ev.value.1, ev.value.2,
                       |raw.value| == MRC_LEN))
  }

  // ---------------------------------------------------------------- what was sent comes out

  lemma {:induction false} U16Field(b: Bytes, at: nat, n: nat)
    requires n < 0x1_0000 && at + 2 <= |b| && b[at..at + 2] == BE(n, 2)
    ensures U16(b, at) == n
  {
    Packets.BE2(n);
    assert b[at] == b[at..at + 2][0] && b[at + 1] == b[at..at + 2][1];
  }

  lemma {:induction false} FieldAfter(head: Bytes, n: nat, rest: Bytes)
    requires n < 0x1_0000
    ensures U16(head + BE(n, 2) + rest, |head|) == n
  {
    var b := head + BE(n, 2) + rest;
    assert b[|head|..|head| + 2] == BE(n, 2);
    U16Field(b, |head|, n);
  }

  lemma {:induction false} SliceOfSlice(b: Bytes, at: nat, n: nat, i: nat, j: nat)
    requires at + n <= |b| && i <= j <= n
    ensures b[at..at + n][i..j] == b[at + i..at + j]
  {
    var x, y := b[at..at + n][i..j], b[at + i..at + j];
    assert forall k :: 0 <= k < j - i ==> x[k] == y[k];
  }

  /** The fields of a header that starts at `at`. */
  lemma {:induction false} HeaderFields(b: Bytes, at: nat, src: Ip6, dst: Ip6, nh: byte, len: nat)
    requires len < 0x1_0000 && at + 40 <= |b| && b[at..at + 40] == Ip6Header(src, dst, nh, len)
    ensures b[at] == 0x60 && b[at + 6] == nh && U16(b, at + 4) == len
    ensures b[at + 8..at + 24] == src && b[at + 24..at + 40] == dst
  {
    var h := b[at..at + 40];
    assert h[0] == 0x60 && h[6] == nh && h[4..6] == BE(len, 2) && h[8..24] == src && h[24..40] == dst;
    assert b[at] == h[0] && b[at + 6] == h[6];
    SliceOfSlice(b, at, 40, 4, 6);
    SliceOfSlice(b, at, 40, 8, 24);
    SliceOfSlice(b, at, 40, 24, 40);
    U16Field(b, at + 4, len);
  }

  lemma {:induction false} UdpPorts(sport: nat, dport: nat, len: nat, csum: nat)
    ensures UdpHeader(sport, dport, len, csum)[0..2] == BE(sport, 2)
    ensures UdpHeader(sport, dport, len, csum)[2..4] == BE(dport, 2)
  {
    var a, b, c := BE(sport, 2), BE(dport, 2), BE(len, 2) + BE(csum, 2);
    assert UdpHeader(sport, dport, len, csum) == a + b + c;
    assert (a + b + c)[0..2] == a;
    assert (a + b + c)[2..4] == b;
  }

  /** An inner packet with anything before and after it parses to its datagram. */
  lemma {:induction false} InnerParses(b: Bytes, at: nat, r: Route, x: Bytes, csum: nat)
    requires Short(x) && at + 48 + |x| <= |b| && b[at..at + 48 + |x|] == Inner(r, x, csum)
    ensures HeaderAt(b, at, |b|) && b[at + 6] == 17 && at + 40 + U16(b, at + 4) == at + 48 + |x|
    ensures ParseUdp(b, at, at + 48 + |x|) == Some(Datagram(r.srcInner, r.dstInner, r.sport, r.dport, x))
  {
    var p := b[at..at + 48 + |x|];
    assert p[..40] == Ip6Header(r.srcInner, r.dstInner, 17, 8 + |x|);
    var udp := UdpHeader(r.sport, r.dport, 8 + |x|, csum);
    assert p[40..48] == udp;
    assert p[48..] == x;
    SliceOfSlice(p, 40, 8, 0, 2);
    SliceOfSlice(p, 40, 8, 2, 4);
    UdpPorts(r.sport, r.dport, 8 + |x|, csum);
    hide Inner, Ip6Header, UdpHeader;
    SliceOfSlice(b, at, 48 + |x|, 0, 40);
    SliceOfSlice(b, at, 48 + |x|, 40, 42);
    SliceOfSlice(b, at, 48 + |x|, 42, 44);
    SliceOfSlice(b, at, 48 + |x|, 48, 48 + |x|);
    HeaderFields(b, at, r.srcInner, r.dstInner, 17, 8 + |x|);
    U16Field(b, at + 40, r.sport);
    U16Field(b, at + 42, r.dport);
  }

  /** A decapsulated packet in a frame parses, padding or not. */
  lemma {:induction false} PlainParses(head: Bytes, r: Route, x: Bytes, csum: nat, padding: Bytes)
    requires Short(x)
    ensures ParseIp(head + Inner(r, x, csum) + padding, |head|)
      == Some(Datagram(r.srcInner, r.dstInner, r.sport, r.dport, x))
  {
    var ip, inner := |head|, Inner(r, x, csum);
    var b := head + inner + padding;
    hide Inner, ParseUdp;
    assert b[ip..ip + 48 + |x|] == inner;
    InnerParses(b, ip, r, x, csum);
  }

  /** An encapsulated packet in a frame parses to its inner datagram. */
  lemma {:induction false} EncapsulatedParses(head: Bytes, r: Route, x: Bytes, csum: nat, padding: Bytes)
    requires Short(x)
    ensures ParseIp(head + Frame(r, x, csum) + padding, |head|)
      == Some(Datagram(r.srcInner, r.dstInner, r.sport, r.dport, x))
  {
    var ip, inner := |head|, Inner(r, x, csum);
    var outer := Ip6Header(r.srcUnderlay, r.dstOuter, 41, 48 + |x|);
    var b := head + Frame(r, x, csum) + padding;
    hide Inner, Ip6Header, ParseUdp;
    assert b == head + outer + inner + padding;
    hide Frame;
    assert b[ip..ip + 40] == outer;
    assert b[ip + 40..ip + 88 + |x|] == inner;
    HeaderFields(b, ip, r.srcUnderlay, r.dstOuter, 41, 48 + |x|);
    InnerParses(b, ip + 40, r, x, csum);
  }

  /** A VLAN tag: a tag protocol identifier and two bytes of tag control. */
  datatype Tag = Tag(outer: bool, tci: Port)

  function TagBytes(t: Tag): (b: Bytes)
    ensures |b| == 4
  {
    BE(if t.outer then 0x88A8 else 0x8100, 2) + BE(t.tci, 2)
  }

  function Tags(ts: seq<Tag>): (b: Bytes)
    ensures |b| == 4 * |ts|
  {
    if ts == [] then [] else TagBytes(ts[0]) + Tags(ts[1..])
  }

  /** However many tags there are, the EtherType is found behind them. */
  lemma {:induction false} TagsAreSkipped(head: Bytes, ts: seq<Tag>, rest: Bytes)
    requires |rest| >= 2
    ensures var b := head + Tags(ts) + (BE(IPV6, 2) + rest);
      TypeAt(b, |head|) == |head| + 4 * |ts| && U16(b, |head| + 4 * |ts|) == IPV6
    decreases |ts|
  {
    var tail := BE(IPV6, 2) + rest;
    var b, at := head + Tags(ts) + tail, |head|;
    if ts == [] {
      assert b == head + BE(IPV6, 2) + rest;
      FieldAfter(head, IPV6, rest);
    } else {
      var tpid := if ts[0].outer then 0x88A8 else 0x8100;
      var others := Tags(ts[1..]);
      assert b == (head + TagBytes(ts[0])) + others + tail;
      assert b == head + BE(tpid, 2) + (BE(ts[0].tci, 2) + others + tail);
      FieldAfter(head, tpid, BE(ts[0].tci, 2) + others + tail);
      TagsAreSkipped(head + TagBytes(ts[0]), ts[1..], rest);
    }
  }

  /** An Ethernet frame around a packet. */
  function Ethernet(macs: Bytes, ts: seq<Tag>, packet: Bytes, padding: Bytes): Bytes {
    macs + Tags(ts) + (BE(IPV6, 2) + (packet + padding))
  }

  /**
    The parser undoes the builder: addresses, ports and payload come out of any framing, with any VLAN
    tags and padding, before or after the fabric's decapsulation.
   */
  lemma {:induction false} ParsesWhatWasBuilt(
    macs: Bytes, ts: seq<Tag>, r: Route, x: Bytes, csum: nat, encapsulated: bool, padding: Bytes)
    requires |macs| == 12 && Short(x)
    ensures Parsed(Ethernet(macs, ts, if encapsulated then Frame(r, x, csum) else Inner(r, x, csum), padding))
      == Some(Datagram(r.srcInner, r.dstInner, r.sport, r.dport, x))
  {
    var packet := if encapsulated then Frame(r, x, csum) else Inner(r, x, csum);
    hide Frame, Inner, ParseIp;
    TagsAreSkipped(macs, ts, packet + padding);
    var head := macs + Tags(ts) + BE(IPV6, 2);
    assert Ethernet(macs, ts, packet, padding) == head + packet + padding;
    if encapsulated {
      EncapsulatedParses(head, r, x, csum, padding);
    } else {
      PlainParses(head, r, x, csum, padding);
    }
  }

  /** Unwrapping and parsing give back what the payload was made from. */
  lemma {:induction false} PayloadRoundTrip(r: Route, seqNo: Seq64, plane: byte, path: byte, rdma: bool, trimmed: bool)
    ensures var p := UdpPayload(r, seqNo, plane, path, rdma, trimmed);
      var raw := if rdma then UnwrapBth(p) else Some(p);
      && raw == Some(MrcPayload(seqNo, plane, path, trimmed))
      && ParsePayload(raw.value) == Some((seqNo, plane, path))
      && (|raw.value| == MRC_LEN <==> trimmed)
  {
    var mrc := MrcPayload(seqNo, plane, path, trimmed);
    if rdma {
      var bth, tail := Bth(plane, path, seqNo), Crc32.LE4(Icrc(r, Bth(plane, path, seqNo), mrc));
      assert bth + mrc + tail == UdpPayload(r, seqNo, plane, path, rdma, trimmed);
      assert (bth + mrc + tail)[12..|bth + mrc + tail| - 4] == mrc;
    }
    assert mrc[..8] == BE(seqNo, 8) && mrc[8] == plane && mrc[9] == path;
    Pow256Values();
    FromBEOfBE(seqNo, 8);
  }

  /** What the destination host captures: the packet as built, or its inner packet where a leaf decapsulates. */
  function Captured(packet: Bytes, encapsulated: bool): Bytes
    requires |packet| >= 40
  {
    if encapsulated then packet else packet[40..]
  }

  lemma {:induction false} CapturedFrame(r: Route, x: Bytes, csum: nat, encapsulated: bool)
    ensures Captured(Frame(r, x, csum), encapsulated) == if encapsulated then Frame(r, x, csum) else Inner(r, x, csum)
  {
    assert Frame(r, x, csum)[40..] == Inner(r, x, csum);
  }

  /**
    End to end: a data packet built for (seq, plane, path), plain or RoCEv2, full or trimmed, captured
    before or after decapsulation, decodes at its destination to exactly that; every other host drops it.
   */
  lemma {:induction false} DecodesWhatWasSent(
    macs: Bytes, ts: seq<Tag>, padding: Bytes, encapsulated: bool, srcUnderlay: Ip6, dstOuter: Ip6, srcInner: Ip6,
    dstInner: Ip6, seqNo: Seq64, plane: byte, path: byte, rdma: bool, trimmed: bool, self: Bytes)
    requires |macs| == 12
    ensures var r := RouteFor(srcUnderlay, dstOuter, srcInner, dstInner, rdma);
      var packet := BuildPacketBytes(r, seqNo, plane, path, rdma, trimmed);
      |packet| >= 40 &&
      Decode(Ethernet(macs, ts, Captured(packet, encapsulated), padding), self)
      == if self == dstInner then Some(Data(srcInner, SPRAY_PORT, r.dport, seqNo, plane, path, trimmed)) else None
  {
    var r := RouteFor(srcUnderlay, dstOuter, srcInner, dstInner, rdma);
    var x := UdpPayload(r, seqNo, plane, path, rdma, trimmed);
    CapturedFrame(r, x, CsumOf(r, x), encapsulated);
    ParsesWhatWasBuilt(macs, ts, r, x, CsumOf(r, x), encapsulated, padding);
    hide Frame, Inner, Captured, Parsed, UdpPayload, Decode, CsumOf, Ethernet;
    var packet := BuildPacketBytes(r, seqNo, plane, path, rdma, trimmed);
    DecodesDatagram(Ethernet(macs, ts, Captured(packet, encapsulated), padding),
      r, seqNo, plane, path, rdma, trimmed, self);
  }

  /** A frame that parses to the datagram of a data packet decodes to that packet. */
  lemma {:induction false} DecodesDatagram(
    frame: Bytes, r: Route, seqNo: Seq64, plane: byte, path: byte, rdma: bool, trimmed: bool, self: Bytes)
    requires r.dport == if rdma then RDMA_PORT else SPRAY_PORT
    requires Parsed(frame) ==
      Some(Datagram(r.srcInner, r.dstInner, r.sport, r.dport, UdpPayload(r, seqNo, plane, path, rdma, trimmed)))
    ensures Decode(frame, self) ==
      if self == r.dstInner then Some(Data(r.srcInner, r.sport, r.dport, seqNo, plane, path, trimmed)) else None
  {
    PayloadRoundTrip(r, seqNo, plane, path, rdma, trimmed);
    hide Parsed, UdpPayload, ParsePayload, UnwrapBth, MrcPayload;
  }

  /** The EV of a RoCEv2 packet can be read from its queue pair number as well. */
  lemma {:induction false} QpNumberNamesEv(plane: byte, path: byte, seqNo: Seq64)
    ensures var dqpn := FromBE(Bth(plane, path, seqNo)[5..8]);
      dqpn / 256 % 256 == plane && dqpn % 256 == path && dqpn >= 2
    ensures FromBE(Bth(plane, path, seqNo)[9..12]) == seqNo % 0x100_0000
  {
    var n := 0x01_0000 + plane as int * 256 + path;
    Pow256Values();
    assert Bth(plane, path, seqNo)[5..8] == BE(n, 3);
    FromBEOfBE(n, 3);
    assert Bth(plane, path, seqNo)[9..12] == BE(seqNo % 0x100_0000, 3);
    FromBEOfBE(seqNo % 0x100_0000, 3);
  }

  /** A UDP header in an IPv6 packet at `ip`, by the header's own fields. */
  predicate UdpOverIpv6(frame: Bytes, ip: nat) {
    |frame| >= ip + 48 && frame[ip] / 16 == 6 && frame[ip + 6] == 17
  }

  /**
    Nothing else decodes: a frame that yields data carries, behind its tags, an IPv6 packet with UDP in
    it, directly or one IPv6 header deeper, to the host's own address and to one of the two ports.
   */
  lemma {:induction false} OnlyDataDecodes(frame: Bytes, self: Bytes)
    requires Decode(frame, self).Some?
    ensures |frame| >= 14
    ensures var at := TypeAt(frame, 12); var ip := at + 2;
      && frame[at] == 0x86 && frame[at + 1] == 0xDD && |frame| >= ip + 48 && frame[ip] / 16 == 6
      && var udp := if frame[ip + 6] == 41 then ip + 40 else ip;
      && UdpOverIpv6(frame, udp) && frame[udp + 24..udp + 40] == self
      && (U16(frame, udp + 42) == 9999 || U16(frame, udp + 42) == 4791)
  {
  }
}
