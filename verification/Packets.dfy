/**
  The bytes of a sprayed data packet: the IPv6-in-IPv6/UDP layout of `srv6_mrc/encap.py`, the payload
  of `srv6_mrc/runner.py` and the RoCEv2 framing of `srv6_mrc/rdma.py`, built from scratch.
 */
module Packets {
  import opened ByteCodec
  import opened Checksum
  import Crc32

  type Ip6 = b: Bytes | |b| == 16 witness [0, 0, 0, 0, 0, 0, 0, 0, 0, 0, 0, 0, 0, 0, 0, 0]
  type Port = p: nat | p < 0x1_0000
  type Seq64 = s: nat | s < 0x1_0000_0000_0000_0000

  const SPRAY_PORT: Port := 9999
  const RDMA_PORT: Port := 4791
  const MRC_LEN: nat := 10

  datatype Route = Route(
    srcUnderlay: Ip6, dstOuter: Ip6, srcInner: Ip6, dstInner: Ip6, sport: Port, dport: Port)

  /** A header without extension headers: traffic class and flow label 0, hop limit 64. */
  function Ip6Header(src: Ip6, dst: Ip6, nh: byte, len: nat): (b: Bytes)
    ensures |b| == 40
  {
    [0x60, 0, 0, 0] + BE(len, 2) + [nh, 64] + src + dst
  }

  function UdpHeader(sport: nat, dport: nat, len: nat, csum: nat): (b: Bytes)
    ensures |b| == 8
  {
    BE(sport, 2) + BE(dport, 2) + BE(len, 2) + BE(csum, 2)
  }

  /** The inner packet with a given checksum field. */
  function Inner(r: Route, payload: Bytes, csum: nat): (b: Bytes)
    ensures |b| == 48 + |payload|
  {
    Ip6Header(r.srcInner, r.dstInner, 17, 8 + |payload|)
    + (UdpHeader(r.sport, r.dport, 8 + |payload|, csum) + payload)
  }

  /** The packet on the wire. */
  function Frame(r: Route, payload: Bytes, csum: nat): (b: Bytes)
    ensures |b| == PAYLOAD_AT + |payload|
  {
    Ip6Header(r.srcUnderlay, r.dstOuter, 41, 48 + |payload|) + Inner(r, payload, csum)
  }

  predicate Short(payload: Bytes) { 48 + |payload| < 0x1_0000 }

  /** The checksum of a payload between these addresses and ports. */
  function CsumOf(r: Route, payload: Bytes): nat
    requires Short(payload)
  {
    Stored(WordSum(Blob(Frame(r, payload, 0), |payload|)))
  }

  /** `build_outer_packet`. */
  function BuildOuterPacket(r: Route, payload: Bytes): Bytes
    requires Short(payload)
  {
    Frame(r, payload, CsumOf(r, payload))
  }

  // ---------------------------------------------------------------- payloads

  function Repeat(x: byte, n: nat): (b: Bytes)
    ensures |b| == n && forall i :: 0 <= i < n ==> b[i] == x
  {
    seq(n, i => x)
  }

  /** The 10-byte header `!QBB`, followed by the pad unless the packet is trimmed. */
  function MrcPayload(seqNo: Seq64, plane: byte, path: byte, trimmed: bool): (b: Bytes)
    ensures |b| == if trimmed then MRC_LEN else MRC_LEN + 32
  {
    BE(seqNo, 8) + [plane, path] + if trimmed then [] else Repeat(0x58, 32)
  }

  /** The BTH up to the PSN: UD_SEND_ONLY, P_Key 0xffff and the QP number that names the EV. */
  function BthHead(plane: byte, path: byte): (b: Bytes)
    ensures |b| == 9
  {
    [0x64, 0, 0xff, 0xff, 0] + BE(0x01_0000 + plane as int * 256 + path, 3) + [0]
  }

  function Psn(seqNo: Seq64): Bytes { BE(seqNo % 0x100_0000, 3) }

  function Bth(plane: byte, path: byte, seqNo: Seq64): (b: Bytes)
    ensures |b| == 12
  {
    BthHead(plane, path) + Psn(seqNo)
  }

  function MaskIp6(h: Bytes): (b: Bytes)
    requires |h| == 40
    ensures |b| == 40
  {
    [0x6f, 0xff, 0xff, 0xff] + h[4..7] + [0xff] + h[8..]
  }

  function MaskUdp(h: Bytes): (b: Bytes)
    requires |h| == 8
    ensures |b| == 8
  {
    h[..6] + [0xff, 0xff]
  }

  function MaskBth(h: Bytes): (b: Bytes)
    requires |h| >= 5
    ensures |b| == |h|
  {
    h[4 := 0xff]
  }

  /** The masked pseudo-packet an ICRC covers, before the PSN. */
  function IcrcHead(ip: Bytes, udp: Bytes, bth: Bytes): Bytes
    requires |ip| == 40 && |udp| == 8 && |bth| >= 5
  {
    Repeat(0xff, 8) + MaskIp6(ip) + MaskUdp(udp) + MaskBth(bth)
  }

  /** The ICRC of a RoCEv2 packet whose UDP payload is BTH, `mrc` and the ICRC itself. */
  function Icrc(r: Route, bth: Bytes, mrc: Bytes): bv32
    requires |bth| == 12
  {
    Crc32.Crc(IcrcHead(Ip6Header(r.srcInner, r.dstInner, 17, 24 + |mrc|),
                       UdpHeader(r.sport, r.dport, 24 + |mrc|, 0), bth) + mrc, 0)
  }

  /** `wrap_rdma`. */
  function WrapRdma(r: Route, mrc: Bytes, plane: byte, path: byte, seqNo: Seq64): (b: Bytes)
    ensures |b| == 16 + |mrc|
  {
    Bth(plane, path, seqNo) + mrc + Crc32.LE4(Icrc(r, Bth(plane, path, seqNo), mrc))
  }

  function RouteFor(srcUnderlay: Ip6, dstOuter: Ip6, srcInner: Ip6, dstInner: Ip6, rdma: bool): Route {
    Route(srcUnderlay, dstOuter, srcInner, dstInner, SPRAY_PORT, if rdma then RDMA_PORT else SPRAY_PORT)
  }

  function UdpPayload(r: Route, seqNo: Seq64, plane: byte, path: byte, rdma: bool, trimmed: bool): (b: Bytes)
    ensures Short(b)
  {
    var mrc := MrcPayload(seqNo, plane, path, trimmed);
    if rdma then WrapRdma(r, mrc, plane, path, seqNo) else mrc
  }

  /** `_build_packet_bytes`. */
  function BuildPacketBytes(r: Route, seqNo: Seq64, plane: byte, path: byte, rdma: bool, trimmed: bool): Bytes {
    BuildOuterPacket(r, UdpPayload(r, seqNo, plane, path, rdma, trimmed))
  }

  // ---------------------------------------------------------------- the layout

  /** `part` written over `b` from `at` on. */
  function Splice(b: Bytes, at: nat, part: Bytes): (r: Bytes)
    requires at + |part| <= |b|
    ensures |r| == |b|
  {
    b[..at] + part + b[at + |part|..]
  }

  /** Writing into the payload region of a frame is writing into its payload. */
  lemma {:induction false} SpliceFrame(r: Route, x: Bytes, csum: nat, at: nat, part: Bytes)
    requires at + |part| <= |x|
    ensures Splice(Frame(r, x, csum), PAYLOAD_AT + at, part) == Frame(r, Splice(x, at, part), csum)
  {
    var f, y := Frame(r, x, csum), Splice(x, at, part);
    assert f == f[..PAYLOAD_AT] + x;
    assert Frame(r, y, csum)[..PAYLOAD_AT] == f[..PAYLOAD_AT];
    assert Frame(r, y, csum) == f[..PAYLOAD_AT] + y;
  }

  /** The pieces of a frame. */
  lemma {:induction false} FrameParts(r: Route, x: Bytes, csum: nat)
    ensures var f := Frame(r, x, csum);
      && f[40..80] == Ip6Header(r.srcInner, r.dstInner, 17, 8 + |x|)
      && f[80..88] == UdpHeader(r.sport, r.dport, 8 + |x|, csum)
      && f[88..] == x
  {
  }

  /** Writing the checksum field of a frame. */
  lemma {:induction false} FieldOfFrame(r: Route, x: Bytes, csum: nat, c: nat)
    requires c <= M
    ensures WithField(Frame(r, x, csum), c) == Frame(r, x, c)
  {
    var h, h' := UdpHeader(r.sport, r.dport, 8 + |x|, csum), UdpHeader(r.sport, r.dport, 8 + |x|, c);
    BE2(c);
    assert h' == h[..6] + [c / 256, c % 256];
    assert Frame(r, x, csum)[80..88] == h && Frame(r, x, c)[80..88] == h';
    assert Frame(r, x, csum)[..80] == Frame(r, x, c)[..80];
    assert Frame(r, x, csum)[88..] == x == Frame(r, x, c)[88..];
    hide Frame, UdpHeader;
    SetWithin(Frame(r, x, csum), Frame(r, x, c), h, h', c);
  }

  lemma {:induction false} SetWithin(f: Bytes, g: Bytes, h: Bytes, h': Bytes, c: nat)
    requires c <= M && |f| == |g| >= 88 && |h| == 8
    requires f[..80] == g[..80] && f[88..] == g[88..] && f[80..88] == h && g[80..88] == h'
    requires h' == h[..6] + [c / 256, c % 256]
    ensures WithField(f, c) == g
  {
    var w := WithField(f, c);
    forall i | 0 <= i < |f| ensures w[i] == g[i] {
      if i < 80 {
        assert f[..80][i] == g[..80][i];
      } else if i < 88 {
        assert f[80..88][i - 80] == f[i] && g[80..88][i - 80] == g[i];
      } else {
        assert f[88..][i - 88] == g[88..][i - 88];
      }
    }
  }

  lemma {:induction false} BE2(c: nat)
    requires c <= M
    ensures BE(c, 2) == [c / 256, c % 256]
  {
    assert BE(c, 2) == BE(c / 256, 1) + [c % 256];
    assert BE(c / 256, 1) == [] + [c / 256 % 256];
  }

  /** Patching the checksum of a frame whose field is zero gives the packet built from scratch. */
  lemma {:induction false} PatchedFrame(r: Route, x: Bytes)
    requires Short(x)
    ensures Fits(Frame(r, x, 0), |x|)
    ensures Patched(Frame(r, x, 0), |x|) == BuildOuterPacket(r, x)
  {
    FieldOfFrame(r, x, 0, CsumOf(r, x));
  }

  /** A packet built from scratch passes the receiver's UDP check. */
  lemma {:induction false} BuiltVerifies(r: Route, x: Bytes)
    requires Short(x)
    ensures Fits(BuildOuterPacket(r, x), |x|) && Verifies(BuildOuterPacket(r, x), |x|)
  {
    PatchedFrame(r, x);
    FieldOfFrame(r, x, 0, 0);
    ZeroField(r, x);
    PatchedVerifiesIffFieldWasZero(Frame(r, x, 0), |x|);
  }

  lemma {:induction false} ZeroField(r: Route, x: Bytes)
    ensures Field(Frame(r, x, 0)) == 0
  {
    BE2(0);
    var f := Frame(r, x, 0);
    FrameParts(r, x, 0);
    assert f[CSUM_AT] == f[80..88][6] && f[CSUM_AT + 1] == f[80..88][7];
  }

  // ---------------------------------------------------------------- the receiver's check, in RFC terms

  /**
    The check of section 8.1 of RFC 8200: the 16-bit words of both addresses, the length, the next header
    17 and the whole datagram add up to a positive multiple of 2^16 - 1.
   */
  predicate DatagramAccepted(src: Bytes, dst: Bytes, datagram: Bytes) {
    var sum := WordSum(src) + WordSum(dst) + |datagram| / 0x1_0000 + |datagram| % 0x1_0000 + 17 + WordSum(datagram);
    sum > 0 && sum % 0xFFFF == 0
  }

  lemma {:induction false} OnesIsAll(n: nat)
    ensures Ones(n) == M <==> n > 0 && n % 0xFFFF == 0
  {
    if n > 0 && n % M == 0 {
      OnesUnique(n, M, n / M - 1);
    } else if n > 0 {
      OnesUnique(n, n % M, n / M);
    }
  }

  lemma {:induction false} BlobParts(r: Route, x: Bytes, csum: nat)
    requires Short(x)
    ensures Fits(Frame(r, x, csum), |x|)
    ensures Blob(Frame(r, x, csum), |x|) ==
      r.srcInner + (r.dstInner + (BE(8 + |x|, 4) + ([0, 0, 0, 17] + (UdpHeader(r.sport, r.dport, 8 + |x|, csum) + x))))
  {
    var f := Frame(r, x, csum);
    var ip, udp := Ip6Header(r.srcInner, r.dstInner, 17, 8 + |x|), UdpHeader(r.sport, r.dport, 8 + |x|, csum);
    FrameParts(r, x, csum);
    assert ip[8..24] == r.srcInner && ip[24..40] == r.dstInner;
    hide Frame, UdpHeader, Ip6Header, BE;
    assert f[48..80] == f[40..80][8..40] == ip[8..24] + ip[24..40];
    assert f[80..88 + |x|] == f[80..88] + f[88..];
  }

  lemma {:induction false} WordsOf(n: nat)
    requires n < 0x1_0000
    ensures WordSum(BE(n, 4)) == n / 0x1_0000 + n % 0x1_0000 && WordSum([0, 0, 0, 17]) == 17
  {
    assert BE(n, 4) == BE(n / 0x1_0000, 2) + BE(n, 2) by {
      assert n / 256 / 256 == 0;
      assert BE(n, 4) == BE(n / 256, 3) + [n % 256] && BE(n / 256, 3) == BE(0, 2) + [n / 256 % 256];
      BE2(n);
    }
    BE2(n);
    BE2(0);
    var b := [0, 0, n / 256, n % 256];
    assert BE(n, 4) == b && b[2..] == [n / 256, n % 256] && b[2..][2..] == [];
    assert WordSum(b[2..]) == n / 256 * 256 + n % 256 + WordSum([]);
    assert WordSum(b) == WordSum(b[2..]);
    assert [0, 0, 0, 17][2..] == [0, 17] && [0, 17][2..] == [];
  }

  /** Whatever is sent, the datagram of the packet built from scratch passes that check and states its length. */
  lemma {:induction false} BuiltDatagramAccepted(r: Route, x: Bytes)
    requires Short(x)
    ensures DatagramAccepted(r.srcInner, r.dstInner, BuildOuterPacket(r, x)[80..])
    ensures BuildOuterPacket(r, x)[48..64] == r.srcInner && BuildOuterPacket(r, x)[64..80] == r.dstInner
    ensures BuildOuterPacket(r, x)[80..][4..6] == BE(|BuildOuterPacket(r, x)[80..]|, 2)
  {
    var f, csum := BuildOuterPacket(r, x), CsumOf(r, x);
    var datagram := UdpHeader(r.sport, r.dport, 8 + |x|, csum) + x;
    BuiltVerifies(r, x);
    BlobParts(r, x, csum);
    DatagramAt(r, x, csum);
    LengthField(r.sport, r.dport, 8 + |x|, csum);
    WordsOf(8 + |x|);
    hide Frame, UdpHeader, BE, CsumOf, WordSum, Blob;
    SumOfParts(r.srcInner, r.dstInner, BE(8 + |x|, 4), [0, 0, 0, 17], datagram);
    OnesIsAll(WordSum(Blob(f, |x|)));
  }

  lemma {:induction false} LengthField(sport: nat, dport: nat, len: nat, csum: nat)
    ensures UdpHeader(sport, dport, len, csum)[4..6] == BE(len, 2)
  {
    assert UdpHeader(sport, dport, len, csum) == BE(sport, 2) + BE(dport, 2) + (BE(len, 2) + BE(csum, 2));
    hide BE;
  }

  lemma {:induction false} DatagramAt(r: Route, x: Bytes, csum: nat)
    ensures var f := Frame(r, x, csum);
      && f[80..] == UdpHeader(r.sport, r.dport, 8 + |x|, csum) + x
      && f[48..64] == r.srcInner && f[64..80] == r.dstInner
  {
    var f := Frame(r, x, csum);
    var ip := Ip6Header(r.srcInner, r.dstInner, 17, 8 + |x|);
    FrameParts(r, x, csum);
    assert ip[8..24] == r.srcInner && ip[24..40] == r.dstInner;
    hide Frame, UdpHeader, Ip6Header;
    assert f[48..64] == f[40..80][8..24] && f[64..80] == f[40..80][24..40];
    assert f[80..] == f[80..88] + f[88..];
  }

  lemma {:induction false} SumOfParts(a: Bytes, b: Bytes, c: Bytes, d: Bytes, e: Bytes)
    requires |a| == |b| == 16 && |c| == |d| == 4
    ensures WordSum(a + (b + (c + (d + e)))) == WordSum(a) + WordSum(b) + WordSum(c) + WordSum(d) + WordSum(e)
  {
    hide WordSum;
    WordSumAppend(a, b + (c + (d + e)));
    WordSumAppend(b, c + (d + e));
    WordSumAppend(c, d + e);
    WordSumAppend(d, e);
  }
}
