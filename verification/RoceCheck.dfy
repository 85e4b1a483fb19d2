/**
  What a RoCEv2 receiver checks: the invariant CRC over the masked headers, the payload and the trailing
  CRC itself.  Every packet the sender builds, cached or from scratch, passes; and the check sees every
  byte of the inner packet but the fields the network may change.
 */
module RoceCheck {
  import opened ByteCodec
  import opened Checksum
  import opened Packets
  import opened Templates
  import Crc32
  import CrcRemainder

  /** An inner packet with room for its headers, a BTH and an ICRC. */
  predicate Roomy(inner: Bytes) { |inner| >= 64 }

  /** What the ICRC covers of an inner packet: eight bytes of ones, masked headers, then the rest. */
  function Covered(inner: Bytes): Bytes
    requires Roomy(inner)
  {
    IcrcHead(inner[..40], inner[40..48], inner[48..60]) + inner[60..]
  }

  /** The residue of a CRC-32 that covers its own transmitted value. */
  predicate Accepts(inner: Bytes)
    requires Roomy(inner)
  {
    Crc32.Crc(Covered(inner), 0) == 0x2144_DF1C
  }

  /**
    Bytes the check leaves out: traffic class and flow label (with the version nibble before them), hop
    limit, UDP checksum and the reserved byte of the BTH.
   */
  predicate Masked(i: nat) { i < 4 || i == 7 || i == 46 || i == 47 || i == 52 }

  lemma {:induction false} CoveredBytes(inner: Bytes)
    requires Roomy(inner)
    ensures |Covered(inner)| == |inner| + 8
    ensures forall i: nat :: i < |inner| && !Masked(i) ==> Covered(inner)[i + 8] == inner[i]
    ensures Covered(inner)[8] == 0x6f
    ensures forall i: nat :: i < |inner| && Masked(i) && i > 0 ==> Covered(inner)[i + 8] == 0xff
    ensures forall i :: 0 <= i < 8 ==> Covered(inner)[i] == 0xff
  {
    var ip, udp, bth, rest := inner[..40], inner[40..48], inner[48..60], inner[60..];
    var all := Covered(inner);
    assert all == Repeat(0xff, 8) + (MaskIp6(ip) + (MaskUdp(udp) + (MaskBth(bth) + rest)));
    assert all[8..48] == MaskIp6(ip);
    assert all[48..56] == MaskUdp(udp);
    assert all[56..68] == MaskBth(bth);
    assert all[68..] == rest;
    hide Covered;
    forall i: nat | i < |inner|
      ensures all[i + 8] == if i == 0 then 0x6f else if Masked(i) then 0xff else inner[i]
    {
      if i < 40 {
        assert all[8..48][i] == all[i + 8];
      } else if i < 48 {
        assert all[48..56][i - 40] == all[i + 8];
      } else if i < 60 {
        assert all[56..68][i - 48] == all[i + 8];
      } else {
        assert all[68..][i - 60] == all[i + 8] && rest[i - 60] == inner[i];
      }
    }
  }

  /** Two inner packets look the same to the check if and only if they agree on every byte not masked. */
  lemma {:induction false} CoversAllButMasked(a: Bytes, b: Bytes)
    requires Roomy(a) && |a| == |b|
    ensures Covered(a) == Covered(b) <==> forall i: nat :: i < |a| && !Masked(i) ==> a[i] == b[i]
  {
    CoveredBytes(a);
    CoveredBytes(b);
    hide Covered, Masked;
    if forall i: nat :: i < |a| && !Masked(i) ==> a[i] == b[i] {
      forall j: nat | j < |a| + 8 ensures Covered(a)[j] == Covered(b)[j] {
        if j > 8 {
          var i: nat := j - 8;
          assert j == i + 8;
          if !Masked(i) { assert a[i] == b[i]; }
        }
      }
    } else {
      var i: nat :| i < |a| && !Masked(i) && a[i] != b[i];
      assert Covered(a)[i + 8] != Covered(b)[i + 8];
    }
  }

  lemma {:induction false} UdpFront(sport: nat, dport: nat, len: nat, csum: nat)
    ensures UdpHeader(sport, dport, len, csum)[..6] == UdpHeader(sport, dport, len, 0)[..6]
  {
    hide BE;
    assert UdpHeader(sport, dport, len, csum)[..6] == BE(sport, 2) + BE(dport, 2) + BE(len, 2);
    assert UdpHeader(sport, dport, len, 0)[..6] == BE(sport, 2) + BE(dport, 2) + BE(len, 2);
  }

  lemma {:induction false} InnerParts(r: Route, payload: Bytes, csum: nat)
    requires |payload| >= 16
    ensures Frame(r, payload, csum)[40..] == Inner(r, payload, csum)
    ensures var inner := Inner(r, payload, csum);
      && inner[..40] == Ip6Header(r.srcInner, r.dstInner, 17, 8 + |payload|)
      && inner[40..48] == UdpHeader(r.sport, r.dport, 8 + |payload|, csum)
      && inner[48..60] == payload[..12] && inner[60..] == payload[12..]
  {
    hide Ip6Header, UdpHeader;
  }

  /** What the check covers of a built packet: the bytes its ICRC was computed over, and the ICRC. */
  lemma {:induction false} BuiltCovers(r: Route, payload: Bytes, csum: nat, bth: Bytes, mrc: Bytes, icrc: Bytes)
    requires |bth| == 12 && |icrc| == 4 && payload == bth + (mrc + icrc)
    ensures var inner := Frame(r, payload, csum)[40..];
      Roomy(inner) && Covered(inner) == IcrcHead(Ip6Header(r.srcInner, r.dstInner, 17, 24 + |mrc|),
        UdpHeader(r.sport, r.dport, 24 + |mrc|, 0), bth) + mrc + icrc
  {
    InnerParts(r, payload, csum);
    UdpFront(r.sport, r.dport, 8 + |payload|, csum);
    assert payload[..12] == bth && payload[12..] == mrc + icrc;
    hide Ip6Header, UdpHeader, Frame, Inner;
  }

  lemma {:induction false} RocePayload(r: Route, seqNo: Seq64, plane: byte, path: byte, trimmed: bool)
    ensures var mrc, bth := MrcPayload(seqNo, plane, path, trimmed), Bth(plane, path, seqNo);
      UdpPayload(r, seqNo, plane, path, true, trimmed) == bth + (mrc + Crc32.LE4(Icrc(r, bth, mrc)))
  {
    hide MrcPayload, Bth, Icrc, Crc32.LE4;
  }

  /** Every RoCEv2 packet the sender builds passes the receiver's check. */
  lemma {:induction false} BuiltIsAccepted(r: Route, seqNo: Seq64, plane: byte, path: byte, trimmed: bool)
    ensures var packet := BuildPacketBytes(r, seqNo, plane, path, true, trimmed);
      |packet| >= 104 && Accepts(packet[40..])
  {
    var mrc, bth := MrcPayload(seqNo, plane, path, trimmed), Bth(plane, path, seqNo);
    var payload := UdpPayload(r, seqNo, plane, path, true, trimmed);
    var icrc := Crc32.LE4(Icrc(r, bth, mrc));
    var head := IcrcHead(Ip6Header(r.srcInner, r.dstInner, 17, 24 + |mrc|),
      UdpHeader(r.sport, r.dport, 24 + |mrc|, 0), bth) + mrc;
    hide MrcPayload, Bth, UdpPayload, Ip6Header, UdpHeader, IcrcHead, Crc32.Crc, Crc32.LE4, Frame, Covered, CsumOf;
    RocePayload(r, seqNo, plane, path, trimmed);
    BuiltCovers(r, payload, CsumOf(r, payload), bth, mrc, icrc);
    assert icrc == Crc32.LE4(Crc32.Crc(head, 0));
    CrcRemainder.Residue(head);
  }

  /** And goes on passing whatever the network makes of the masked fields. */
  lemma {:induction false} TransitKeepsAcceptance(sent: Bytes, arrived: Bytes)
    requires Roomy(sent) && |sent| == |arrived|
    requires forall i: nat :: i < |sent| && !Masked(i) ==> sent[i] == arrived[i]
    ensures Accepts(sent) <==> Accepts(arrived)
  {
    CoversAllButMasked(sent, arrived);
  }

  /** Every RoCEv2 packet that comes out of the template cache passes the check, whatever its source. */
  lemma {:induction false} CachedIsAccepted(calls: seq<Call>, k: nat, srcInner: Ip6, dstInner: Ip6)
    requires k < |calls|
    ensures var packet := Output(calls, k, srcInner, dstInner, true);
      |packet| >= 104 && Accepts(packet[40..])
  {
    var c := calls[k];
    var r := RouteFor(SourceUsed(calls, k), c.key.dstOuter, srcInner, dstInner, true);
    hide BuildPacketBytes, SourceUsed;
    BuiltIsAccepted(r, c.seqNo, c.key.plane, c.key.path, c.key.trimmed);
  }
}
