/**
  The address plan against the generated tables: where data packets and probes really go, for every
  topology within the port and digit budget of the generator.
 */
module Delivery {
  import opened Arith
  import opened Wrappers
  import opened Grids
  import opened Addressing
  import opened Forwarding

  // ---------------------------------------------------------------- cables

  lemma {:induction false} PeerIs(t: Topo, x: End, y: End)
    requires Joined(t, x, y) && forall z :: Joined(t, x, z) ==> z == y
    ensures Peer(t, x) == Some(y)
  {
  }

  /** Leaf uplink ports and spine downlink ports face each other. */
  lemma {:induction false} FabricPeers(t: Topo, p: nat, s: nat, l: nat)
    requires p < t.planes && s < t.spines <= 8 && l < t.leaves
    ensures Peer(t, End(Leaf(p, l), s + 1)) == Some(End(Spine(p, s), l + 1))
    ensures Peer(t, End(Spine(p, s), l + 1)) == Some(End(Leaf(p, l), s + 1))
  {
    assert Wired(t, FabricCable(p, s, l));
    PeerIs(t, End(Leaf(p, l), s + 1), End(Spine(p, s), l + 1));
    PeerIs(t, End(Spine(p, s), l + 1), End(Leaf(p, l), s + 1));
  }

  function HostPort(tenant: Tenant): nat { if tenant.Green? then GREEN_PORT else YELLOW_PORT }

  /** A host's NIC p + 1 faces its leaf in plane p. */
  lemma {:induction false} HostPeers(t: Topo, p: nat, n: nat, tenant: Tenant)
    requires p < t.planes && n < t.leaves && t.spines <= 8
    ensures Peer(t, End(Leaf(p, n), HostPort(tenant))) == Some(End(Host(tenant, n), p + 1))
    ensures Peer(t, End(Host(tenant, n), p + 1)) == Some(End(Leaf(p, n), HostPort(tenant)))
  {
    assert Wired(t, HostCable(p, n, tenant));
    PeerIs(t, End(Leaf(p, n), HostPort(tenant)), End(Host(tenant, n), p + 1));
    PeerIs(t, End(Host(tenant, n), p + 1), End(Leaf(p, n), HostPort(tenant)));
  }

  /** No port of the lab has two cables. */
  ghost predicate OneCablePerPort(t: Topo) {
    forall x, y, z :: Joined(t, x, y) && Joined(t, x, z) ==> y == z
  }

  /** The port numbering is free of clashes if and only if a plane has at most 8 spines. */
  lemma {:induction false} PortsClashAboveEightSpines(t: Topo)
    requires t.planes > 0 && t.leaves > 0
    ensures OneCablePerPort(t) <==> t.spines <= 8
  {
    if t.spines > 8 {
      assert Wired(t, FabricCable(0, 8, 0)) && Wired(t, HostCable(0, 0, Green));
      assert Joined(t, End(Leaf(0, 0), 9), End(Spine(0, 8), 1));
      assert Joined(t, End(Leaf(0, 0), 9), End(Host(Green, 0), 1));
    }
  }

  // ---------------------------------------------------------------- lookups

  lemma {:induction false} CoversSid(plane: nat, func: nat, a: Addr)
    ensures Covers(Sid(plane, func), a) <==> a.h0 == BLOCK && a.h1 == plane && a.h2 == func
  {
  }

  lemma {:induction false} CoversAll(x: Addr, a: Addr)
    ensures Covers(Prefix(x, 128), a) <==> x == a
  {
  }

  lemma {:induction false} FoundIn(t: Topo, n: Node, vrf: Vrf, a: Addr, e: Entry)
    requires OnlyBest(t, n, vrf, a, e)
    ensures LookupIn(t, n, vrf, a) == Some(e.action) && Lookup(t, n, vrf, a) == Some(e.action)
  {
  }

  /** Entries of a leaf that match a uSID address: only the SID or route of its active identifier. */
  lemma {:induction false} LeafStatic(t: Topo, p: nat, l: nat, f: Entry, a: Addr)
    requires OneDigit(t) && p < t.planes && l < t.leaves && f in Statics(t, Leaf(p, l)) && Covers(f.prefix, a)
    ensures a.h0 == BLOCK && a.h1 == p && f.prefix == Sid(p, a.h2)
    ensures a.h2 == LeafLocator(l) ==> f.action == UN
    ensures forall s: nat :: s < t.spines && a.h2 == LeafUa(s) ==> f == LeafUaEntry(t, p, l, s)
    ensures forall s: nat :: s < t.spines && a.h2 == SpineLocator(s) ==> f == ToSpine(t, p, l, s)
    ensures a.h2 == UDT_GREEN ==> f.action == UDT6(VrfGreen)
    ensures a.h2 == UDT_PROBE ==> f.action == UDT6(Main)
    ensures a.h2 == HOST_UA ==> f.action == UA(YELLOW_PORT, Anycast(Yellow, l))
    ensures a.h2 == UDT_YELLOW ==> f.action == Via(Anycast(Yellow, l))
  {
    CoversSid(p, f.prefix.addr.h2, a);
  }

  /** The SID or route of the active identifier wins on a leaf, whichever port the packet came in on. */
  lemma {:induction false} LeafFinds(t: Topo, p: nat, l: nat, vrf: Vrf, a: Addr, e: Entry)
    requires OneDigit(t) && p < t.planes && l < t.leaves
    requires e in Statics(t, Leaf(p, l)) && Covers(e.prefix, a) && a != Loopback(p, LeafLocator(l))
    requires forall f :: f in Statics(t, Leaf(p, l)) && Covers(f.prefix, a) ==> f == e
    ensures Lookup(t, Leaf(p, l), vrf, a) == Some(e.action)
  {
    var n := Leaf(p, l);
    LeafStatic(t, p, l, e, a);
    forall i | i in Ifaces(t, n) ensures !Covers(ConnectedEntry(i).prefix, a) || i.len == 128
      ensures !Covers(LocalEntry(i).prefix, a)
    {
      CoversAll(i.addr, a);
    }
    hide Ifaces, Statics, Covers;
    assert OnlyBest(t, n, Main, a, e);
    assert NoMatch(t, n, VrfGreen, a);
    FoundIn(t, n, Main, a, e);
  }

  lemma {:induction false} LeafUaLookup(t: Topo, p: nat, l: nat, s: nat, vrf: Vrf, a: Addr)
    requires OneDigit(t) && p < t.planes && l < t.leaves && s < t.spines
    requires a.h0 == BLOCK && a.h1 == p && a.h2 == LeafUa(s)
    ensures Lookup(t, Leaf(p, l), vrf, a) == Some(UA(s + 1, P2p(t, s, l, 0)))
  {
    LeafUnique(t, p, l, vrf, a, LeafUaEntry(t, p, l, s));
  }

  /** One call per identifier: `e` is what the leaf was given for the active identifier of `a`. */
  lemma {:induction false} LeafUnique(t: Topo, p: nat, l: nat, vrf: Vrf, a: Addr, e: Entry)
    requires OneDigit(t) && p < t.planes && l < t.leaves && a != Loopback(p, LeafLocator(l))
    requires e in Statics(t, Leaf(p, l)) && e.prefix == Sid(p, a.h2) && a.h0 == BLOCK && a.h1 == p
    requires a.h2 == LeafLocator(l) || !(exists o: nat :: o < t.leaves && a.h2 == LeafLocator(o))
    ensures Lookup(t, Leaf(p, l), vrf, a) == Some(e.action)
  {
    CoversSid(p, a.h2, a);
    LeafStatic(t, p, l, e, a);
    forall f | f in Statics(t, Leaf(p, l)) && Covers(f.prefix, a) ensures f == e {
      LeafStatic(t, p, l, f, a);
    }
    LeafFinds(t, p, l, vrf, a, e);
  }

  lemma {:induction false} LinkNumber(t: Topo, s: nat, l: nat, s': nat, l': nat)
    requires l < t.leaves && l' < t.leaves
    ensures P2p(t, s, l, 0).h3 == P2p(t, s', l', 0).h3 <==> s == s' && l == l'
  {
    SameCell(t.leaves, s, l, s', l');
  }

  lemma {:induction false} CoversP2p(x: Addr, a: Addr)
    requires x.h7 < 2
    ensures Covers(Prefix(x, 127), a) <==>
      x.h0 == a.h0 && x.h1 == a.h1 && x.h2 == a.h2 && x.h3 == a.h3 && x.h4 == a.h4 && x.h5 == a.h5 && x.h6 == a.h6
      && a.h7 < 2
  {
    assert Pow2(1) == 2;
  }

  /** Static entries match uSID block addresses only. */
  lemma {:induction false} StaticsAreBlock(t: Topo, n: Node, f: Entry, a: Addr)
    requires !n.Host? && f in Statics(t, n) && Covers(f.prefix, a)
    ensures a.h0 == BLOCK
  {
  }

  /** A leaf resolves a spine's side of a link to the port of that link. */
  lemma {:induction false} LeafResolves(t: Topo, p: nat, l: nat, s: nat, vrf: Vrf)
    requires l < t.leaves && s < t.spines
    ensures Lookup(t, Leaf(p, l), vrf, P2p(t, s, l, 0)) == Some(Connected(s + 1))
  {
    var n, a, up := Leaf(p, l), P2p(t, s, l, 0), LeafUplink(t, l, s);
    assert up in Ifaces(t, n);
    forall i | i in Ifaces(t, n)
      ensures !Covers(LocalEntry(i).prefix, a)
      ensures i.len < 128 && Covers(ConnectedEntry(i).prefix, a) ==> i == up
    {
      CoversAll(i.addr, a);
      if s' :| 0 <= s' < t.spines && i == LeafUplink(t, l, s') {
        CoversP2p(i.addr, a);
        LinkNumber(t, s', l, s, l);
      }
    }
    forall f | f in Statics(t, n) ensures !Covers(f.prefix, a) {
      if Covers(f.prefix, a) { StaticsAreBlock(t, n, f, a); }
    }
    CoversP2p(up.addr, a);
    assert forall i :: i in Ifaces(t, n) && i.vrf == VrfGreen && i.len < 128 ==> i != up;
    hide Ifaces, Statics, Covers, P2p;
    assert OnlyBest(t, n, Main, a, ConnectedEntry(up));
    assert NoMatch(t, n, VrfGreen, a);
    FoundIn(t, n, Main, a, ConnectedEntry(up));
  }

  /** A leaf reaches every host-side address of its own hosts on the port of that tenant. */
  lemma {:induction false} LeafReachesHost(t: Topo, p: nat, l: nat, tenant: Tenant, x: nat)
    requires l < t.leaves && x >= 2
    ensures Lookup(t, Leaf(p, l), if tenant.Green? then VrfGreen else Main, HostAddr(tenant, l, x))
      == Some(Connected(HostPort(tenant)))
  {
    var n, a, vrf := Leaf(p, l), HostAddr(tenant, l, x), if tenant.Green? then VrfGreen else Main;
    var port := Iface(HostPort(tenant), HostAddr(tenant, l, 1), 64, vrf);
    assert port in Ifaces(t, n);
    forall i | i in Ifaces(t, n)
      ensures !Covers(LocalEntry(i).prefix, a)
      ensures i.len < 128 && Covers(ConnectedEntry(i).prefix, a) ==> i == port
    {
      CoversAll(i.addr, a);
    }
    forall f | f in Statics(t, n) ensures !Covers(f.prefix, a) {
      if Covers(f.prefix, a) { StaticsAreBlock(t, n, f, a); }
    }
    assert Covers(ConnectedEntry(port).prefix, a);
    hide Ifaces, Statics, Covers, HostAddr;
    assert OnlyBest(t, n, vrf, a, ConnectedEntry(port));
    FoundIn(t, n, vrf, a, ConnectedEntry(port));
  }

  // ---------------------------------------------------------------- spines and hosts

  lemma {:induction false} SpineStatic(t: Topo, p: nat, s: nat, f: Entry, a: Addr)
    requires OneDigit(t) && p < t.planes && s < t.spines && f in Statics(t, Spine(p, s)) && Covers(f.prefix, a)
    ensures a.h0 == BLOCK && a.h1 == p && f.prefix == Sid(p, a.h2)
    ensures a.h2 == SpineLocator(s) ==> f.action == UN
    ensures forall l: nat :: l < t.leaves && a.h2 == SpineUa(l) ==> f == SpineUaEntry(t, p, s, l)
    ensures forall l: nat :: l < t.leaves && a.h2 == LeafLocator(l) ==> f == ToLeaf(t, p, s, l)
  {
    CoversSid(p, f.prefix.addr.h2, a);
  }

  /** The SID or route of the active identifier wins on a spine. */
  lemma {:induction false} SpineFinds(t: Topo, p: nat, s: nat, a: Addr, e: Entry)
    requires OneDigit(t) && p < t.planes && s < t.spines && a != Loopback(p, SpineLocator(s))
    requires e in Statics(t, Spine(p, s)) && e.prefix == Sid(p, a.h2) && a.h0 == BLOCK && a.h1 == p
    ensures Lookup(t, Spine(p, s), Main, a) == Some(e.action)
  {
    var n := Spine(p, s);
    CoversSid(p, a.h2, a);
    SpineStatic(t, p, s, e, a);
    forall f | f in Statics(t, n) && Covers(f.prefix, a) ensures f == e {
      SpineStatic(t, p, s, f, a);
    }
    forall i | i in Ifaces(t, n) ensures !Covers(ConnectedEntry(i).prefix, a) || i.len == 128
      ensures !Covers(LocalEntry(i).prefix, a)
    {
      CoversAll(i.addr, a);
    }
    hide Ifaces, Statics, Covers;
    assert OnlyBest(t, n, Main, a, e);
    FoundIn(t, n, Main, a, e);
  }

  /** A spine resolves a leaf's side of a link to the port of that link. */
  lemma {:induction false} SpineResolves(t: Topo, p: nat, s: nat, l: nat)
    requires l < t.leaves && s < t.spines
    ensures Lookup(t, Spine(p, s), Main, P2p(t, s, l, 1)) == Some(Connected(l + 1))
  {
    var n, a, down := Spine(p, s), P2p(t, s, l, 1), SpineDownlink(t, s, l);
    assert down in Ifaces(t, n);
    forall i | i in Ifaces(t, n)
      ensures !Covers(LocalEntry(i).prefix, a)
      ensures i.len < 128 && Covers(ConnectedEntry(i).prefix, a) ==> i == down
    {
      CoversAll(i.addr, a);
      if l' :| 0 <= l' < t.leaves && i == SpineDownlink(t, s, l') {
        CoversP2p(i.addr, a);
        LinkNumber(t, s, l', s, l);
      }
    }
    forall f | f in Statics(t, n) ensures !Covers(f.prefix, a) {
      if Covers(f.prefix, a) { StaticsAreBlock(t, n, f, a); }
    }
    CoversP2p(down.addr, a);
    hide Ifaces, Statics, Covers, P2p;
    assert OnlyBest(t, n, Main, a, ConnectedEntry(down));
    FoundIn(t, n, Main, a, ConnectedEntry(down));
  }

  lemma {:induction false} CoversPlane(p: nat, a: Addr)
    ensures Covers(Prefix(Addr(BLOCK, p, 0, 0, 0, 0, 0, 0), 32), a) <==> a.h0 == BLOCK && a.h1 == p
  {
  }

  /** A host hands every address of a plane's block to that plane's NIC, but for its own decap SID. */
  lemma {:induction false} HostSends(t: Topo, tenant: Tenant, h: nat, p: nat, a: Addr)
    requires p < t.planes && a.h0 == BLOCK && a.h1 == p && a.h2 != UDT_YELLOW
    ensures Lookup(t, Host(tenant, h), Main, a) == Some(ViaDev(HostAddr(tenant, h, 1), p + 1))
  {
    var n, e := Host(tenant, h), PlaneRoute(tenant, h, p);
    CoversPlane(p, a);
    assert e in Statics(t, n);
    forall f | f in Statics(t, n) && Covers(f.prefix, a) ensures f == e {
      CoversSid(f.prefix.addr.h1, f.prefix.addr.h2, a);
    }
    HostBlockOnly(t, tenant, h, p, a, e);
  }

  /** A yellow host decapsulates its tenant SID in every plane. */
  lemma {:induction false} HostDecaps(t: Topo, h: nat, p: nat, a: Addr)
    requires p < t.planes && a.h0 == BLOCK && a.h1 == p && a.h2 == UDT_YELLOW
    ensures Lookup(t, Host(Yellow, h), Main, a) == Some(UDT6(Main))
  {
    var n, e := Host(Yellow, h), HostUdt(p);
    CoversSid(p, UDT_YELLOW, a);
    assert e in Statics(t, n);
    forall f | f in Statics(t, n) && Covers(f.prefix, a) ensures f == e || f.prefix.len < 48 {
      CoversSid(f.prefix.addr.h1, f.prefix.addr.h2, a);
    }
    HostBlockOnly(t, Yellow, h, p, a, e);
  }

  lemma {:induction false} HostBlockOnly(t: Topo, tenant: Tenant, h: nat, p: nat, a: Addr, e: Entry)
    requires a.h0 == BLOCK && e in Statics(t, Host(tenant, h)) && Covers(e.prefix, a)
    requires forall f :: f in Statics(t, Host(tenant, h)) && Covers(f.prefix, a) ==>
      f == e || f.prefix.len < e.prefix.len
    ensures Lookup(t, Host(tenant, h), Main, a) == Some(e.action)
  {
    var n := Host(tenant, h);
    forall i | i in Ifaces(t, n)
      ensures !Covers(ConnectedEntry(i).prefix, a) && !Covers(LocalEntry(i).prefix, a)
    {
    }
    hide Ifaces, Statics, Covers;
    assert OnlyBest(t, n, Main, a, e);
    FoundIn(t, n, Main, a, e);
  }

  /** A host keeps what is addressed to one of its addresses. */
  lemma {:induction false} HostKeeps(t: Topo, tenant: Tenant, h: nat, i: Iface)
    requires i in Ifaces(t, Host(tenant, h))
    ensures Lookup(t, Host(tenant, h), Main, i.addr) == Some(Local)
  {
    var n, e := Host(tenant, h), LocalEntry(i);
    forall j | j in Ifaces(t, n) ensures Covers(LocalEntry(j).prefix, i.addr) ==> LocalEntry(j) == e {
      CoversAll(j.addr, i.addr);
    }
    CoversAll(i.addr, i.addr);
    assert forall f :: f in Statics(t, n) ==> f.prefix.len <= 48;
    assert forall j :: j in Ifaces(t, n) ==> j.vrf == Main;
    hide Ifaces, Statics, Covers;
    assert OnlyBest(t, n, Main, i.addr, e);
    FoundIn(t, n, Main, i.addr, e);
  }

  // ---------------------------------------------------------------- hops

  lemma {:induction false} Crosses(t: Topo, n: Node, port: nat, nexthop: Addr, pkt: Packet, far: End, i: Iface)
    requires Peer(t, End(n, port)) == Some(far)
    requires i in Ifaces(t, far.node) && i.port == far.port && i.addr == nexthop
    ensures Emit(t, n, port, nexthop, pkt) == Moved(At(far.node, Some(far.port), PortVrf(far.node, far.port), pkt))
  {
  }

  /** Leaf l to spine s, addressed to the spine's side of the link. */
  lemma {:induction false} CrossUp(t: Topo, p: nat, s: nat, l: nat, pkt: Packet)
    requires p < t.planes && l < t.leaves && s < t.spines <= 8
    ensures Emit(t, Leaf(p, l), s + 1, P2p(t, s, l, 0), pkt) == Moved(At(Spine(p, s), Some(l + 1), Main, pkt))
  {
    FabricPeers(t, p, s, l);
    assert SpineDownlink(t, s, l) in Ifaces(t, Spine(p, s));
    hide Ifaces, Peer;
    Crosses(t, Leaf(p, l), s + 1, P2p(t, s, l, 0), pkt, End(Spine(p, s), l + 1), SpineDownlink(t, s, l));
  }

  /** Spine s to leaf l, addressed to the leaf's side of the link. */
  lemma {:induction false} CrossDown(t: Topo, p: nat, s: nat, l: nat, pkt: Packet)
    requires p < t.planes && l < t.leaves && s < t.spines <= 8
    ensures Emit(t, Spine(p, s), l + 1, P2p(t, s, l, 1), pkt) == Moved(At(Leaf(p, l), Some(s + 1), Main, pkt))
  {
    FabricPeers(t, p, s, l);
    assert LeafUplink(t, l, s) in Ifaces(t, Leaf(p, l));
    hide Ifaces, Peer;
    Crosses(t, Spine(p, s), l + 1, P2p(t, s, l, 1), pkt, End(Leaf(p, l), s + 1), LeafUplink(t, l, s));
  }

  /** Leaf to the NIC of its host that carries `i`. */
  lemma {:induction false} CrossToHost(t: Topo, p: nat, l: nat, tenant: Tenant, i: Iface, pkt: Packet)
    requires p < t.planes && l < t.leaves && t.spines <= 8
    requires i in Ifaces(t, Host(tenant, l)) && i.port == p + 1
    ensures Emit(t, Leaf(p, l), HostPort(tenant), i.addr, pkt) == Moved(At(Host(tenant, l), Some(p + 1), Main, pkt))
  {
    HostPeers(t, p, l, tenant);
    hide Ifaces, Peer;
    Crosses(t, Leaf(p, l), HostPort(tenant), i.addr, pkt, End(Host(tenant, l), p + 1), i);
  }

  /** Host to its gateway in plane p. */
  lemma {:induction false} CrossFromHost(t: Topo, p: nat, h: nat, tenant: Tenant, pkt: Packet)
    requires p < t.planes && h < t.leaves && t.spines <= 8
    ensures Emit(t, Host(tenant, h), p + 1, HostAddr(tenant, h, 1), pkt)
      == Moved(At(Leaf(p, h), Some(HostPort(tenant)), PortVrf(Leaf(p, h), HostPort(tenant)), pkt))
  {
    HostPeers(t, p, h, tenant);
    var i := Iface(HostPort(tenant), HostAddr(tenant, h, 1), 64, if tenant.Green? then VrfGreen else Main);
    assert i in Ifaces(t, Leaf(p, h));
    hide Ifaces, Peer;
    Crosses(t, Host(tenant, h), p + 1, HostAddr(tenant, h, 1), pkt, End(Leaf(p, h), HostPort(tenant)), i);
  }

  lemma {:induction false} NicIsIface(t: Topo, tenant: Tenant, h: nat, p: nat)
    requires p < t.planes
    ensures HostNic(tenant, h, p) in Ifaces(t, Host(tenant, h))
  {
  }

  /** What a leaf is given per spine, for itself and for its yellow host. */
  lemma {:induction false} LeafHas(t: Topo, p: nat, l: nat)
    ensures forall s :: 0 <= s < t.spines ==>
      LeafUaEntry(t, p, l, s) in Statics(t, Leaf(p, l)) && ToSpine(t, p, l, s) in Statics(t, Leaf(p, l))
    ensures Entry(Sid(p, LeafLocator(l)), UN) in Statics(t, Leaf(p, l))
    ensures Entry(Sid(p, HOST_UA), UA(YELLOW_PORT, Anycast(Yellow, l))) in Statics(t, Leaf(p, l))
    ensures Entry(Sid(p, UDT_YELLOW), Via(Anycast(Yellow, l))) in Statics(t, Leaf(p, l))
    ensures Entry(Sid(p, UDT_GREEN), UDT6(VrfGreen)) in Statics(t, Leaf(p, l))
    ensures Entry(Sid(p, UDT_PROBE), UDT6(Main)) in Statics(t, Leaf(p, l))
  {
  }

  lemma {:induction false} SpineHas(t: Topo, p: nat, s: nat)
    ensures forall l :: 0 <= l < t.leaves ==>
      SpineUaEntry(t, p, s, l) in Statics(t, Spine(p, s)) && ToLeaf(t, p, s, l) in Statics(t, Spine(p, s))
    ensures Entry(Sid(p, SpineLocator(s)), UN) in Statics(t, Spine(p, s))
  {
  }

  function Shifted(pkt: Packet): Packet { pkt.(dst := Shift(pkt.dst)) }

  predicate InBlock(a: Addr, p: nat, func: nat) { a.h0 == BLOCK && a.h1 == p && a.h2 == func }

  /** Host to its leaf in the plane of the address. */
  lemma {:induction false} HostToLeaf(t: Topo, p: nat, at: At)
    requires at.node.Host? && at.vrf.Main? && at.node.id < t.leaves && p < t.planes && t.spines <= 8 && MayForward(at)
    requires at.pkt.dst.h0 == BLOCK && at.pkt.dst.h1 == p && at.pkt.dst.h2 != UDT_YELLOW
    ensures var tn, n := at.node.tenant, Leaf(p, at.node.id);
      Step(t, at) == Moved(At(n, Some(HostPort(tn)), PortVrf(n, HostPort(tn)), at.pkt))
  {
    var tn, h := at.node.tenant, at.node.id;
    hide Ifaces, Statics, Emit, Lookup;
    HostSends(t, tn, h, p, at.pkt.dst);
    CrossFromHost(t, p, h, tn, at.pkt);
  }

  /** Leaf to spine by adjacency SID. */
  lemma {:induction false} LeafUp(t: Topo, p: nat, l: nat, s: nat, at: At)
    requires OneDigit(t) && p < t.planes && l < t.leaves && s < t.spines <= 8
    requires at.node == Leaf(p, l) && InBlock(at.pkt.dst, p, LeafUa(s)) && !Exhausted(at.pkt.dst)
    ensures Step(t, at) == Moved(At(Spine(p, s), Some(l + 1), Main, Shifted(at.pkt)))
  {
    hide Ifaces, Statics, Emit, Lookup;
    LeafUaLookup(t, p, l, s, at.vrf, at.pkt.dst);
    CrossUp(t, p, s, l, Shifted(at.pkt));
  }

  /** Spine to leaf by adjacency SID. */
  lemma {:induction false} SpineDown(t: Topo, p: nat, s: nat, l: nat, at: At)
    requires OneDigit(t) && p < t.planes && l < t.leaves && s < t.spines <= 8
    requires at.node == Spine(p, s) && at.vrf.Main? && InBlock(at.pkt.dst, p, SpineUa(l)) && !Exhausted(at.pkt.dst)
    ensures Step(t, at) == Moved(At(Leaf(p, l), Some(s + 1), Main, Shifted(at.pkt)))
  {
    SpineHas(t, p, s);
    hide Ifaces, Statics, Emit, Lookup;
    SpineFinds(t, p, s, at.pkt.dst, SpineUaEntry(t, p, s, l));
    CrossDown(t, p, s, l, Shifted(at.pkt));
  }

  /** Leaf to spine by the route to the spine's locator; the address does not change. */
  lemma {:induction false} LeafRoutesUp(t: Topo, p: nat, l: nat, s: nat, at: At)
    requires OneDigit(t) && p < t.planes && l < t.leaves && s < t.spines <= 8
    requires at.node == Leaf(p, l) && InBlock(at.pkt.dst, p, SpineLocator(s))
    ensures Step(t, at) == Moved(At(Spine(p, s), Some(l + 1), Main, at.pkt))
  {
    LeafHas(t, p, l);
    hide Ifaces, Statics, Emit, Lookup;
    LeafUnique(t, p, l, at.vrf, at.pkt.dst, ToSpine(t, p, l, s));
    LeafResolves(t, p, l, s, at.vrf);
    CrossUp(t, p, s, l, at.pkt);
  }

  /** Spine to leaf by the route to the leaf's locator. */
  lemma {:induction false} SpineRoutesDown(t: Topo, p: nat, s: nat, l: nat, at: At)
    requires OneDigit(t) && p < t.planes && l < t.leaves && s < t.spines <= 8
    requires at.node == Spine(p, s) && at.vrf.Main? && InBlock(at.pkt.dst, p, LeafLocator(l))
    ensures Step(t, at) == Moved(At(Leaf(p, l), Some(s + 1), Main, at.pkt))
  {
    SpineHas(t, p, s);
    hide Ifaces, Statics, Emit, Lookup;
    SpineFinds(t, p, s, at.pkt.dst, ToLeaf(t, p, s, l));
    SpineResolves(t, p, s, l);
    CrossDown(t, p, s, l, at.pkt);
  }

  /** A leaf consumes its own locator. */
  lemma {:induction false} ConsumesLeaf(t: Topo, p: nat, l: nat, at: At)
    requires OneDigit(t) && p < t.planes && l < t.leaves && !Exhausted(at.pkt.dst) && at.pkt.dst.h7 == 0
    requires at.node == Leaf(p, l) && at.vrf.Main? && InBlock(at.pkt.dst, p, LeafLocator(l))
    ensures Step(t, at) == Moved(at.(pkt := Shifted(at.pkt)))
  {
    LeafHas(t, p, l);
    hide Ifaces, Statics, Emit, Lookup;
    LeafUnique(t, p, l, Main, at.pkt.dst, Entry(Sid(p, LeafLocator(l)), UN));
  }

  /** A spine consumes its own locator. */
  lemma {:induction false} ConsumesSpine(t: Topo, p: nat, s: nat, at: At)
    requires OneDigit(t) && p < t.planes && s < t.spines && !Exhausted(at.pkt.dst) && at.pkt.dst.h7 == 0
    requires at.node == Spine(p, s) && at.vrf.Main? && InBlock(at.pkt.dst, p, SpineLocator(s))
    ensures Step(t, at) == Moved(at.(pkt := Shifted(at.pkt)))
  {
    SpineHas(t, p, s);
    hide Ifaces, Statics, Emit, Lookup;
    SpineFinds(t, p, s, at.pkt.dst, Entry(Sid(p, SpineLocator(s)), UN));
  }

  /** Leaf to its yellow host by the host adjacency SID. */
  lemma {:induction false} LeafDownToHost(t: Topo, p: nat, l: nat, at: At)
    requires OneDigit(t) && p < t.planes && l < t.leaves && t.spines <= 8
    requires at.node == Leaf(p, l) && InBlock(at.pkt.dst, p, HOST_UA) && !Exhausted(at.pkt.dst)
    ensures Step(t, at) == Moved(At(Host(Yellow, l), Some(p + 1), Main, Shifted(at.pkt)))
  {
    LeafHas(t, p, l);
    hide Ifaces, Statics, Emit, Lookup;
    LeafUnique(t, p, l, at.vrf, at.pkt.dst, Entry(Sid(p, HOST_UA), UA(YELLOW_PORT, Anycast(Yellow, l))));
    NicIsIface(t, Yellow, l, p);
    CrossToHost(t, p, l, Yellow, HostNic(Yellow, l, p), Shifted(at.pkt));
  }

  /** Leaf to its yellow host by the route for the host's decapsulation SID. */
  lemma {:induction false} LeafRoutesToHost(t: Topo, p: nat, l: nat, at: At)
    requires OneDigit(t) && p < t.planes && l < t.leaves && t.spines <= 8
    requires at.node == Leaf(p, l) && at.vrf.Main? && InBlock(at.pkt.dst, p, UDT_YELLOW)
    ensures Step(t, at) == Moved(At(Host(Yellow, l), Some(p + 1), Main, at.pkt))
  {
    LeafHas(t, p, l);
    hide Ifaces, Statics, Emit, Lookup;
    LeafUnique(t, p, l, Main, at.pkt.dst, Entry(Sid(p, UDT_YELLOW), Via(Anycast(Yellow, l))));
    LeafReachesHost(t, p, l, Yellow, 2);
    NicIsIface(t, Yellow, l, p);
    CrossToHost(t, p, l, Yellow, HostNic(Yellow, l, p), at.pkt);
  }

  /** Leaf decapsulation: green into its VRF, returning yellow probes into the main table. */
  lemma {:induction false} LeafDecaps(t: Topo, p: nat, l: nat, tenant: Tenant, at: At)
    requires OneDigit(t) && p < t.planes && l < t.leaves && at.node == Leaf(p, l) && at.pkt.inner.Some?
    requires InBlock(at.pkt.dst, p, if tenant.Green? then UDT_GREEN else UDT_PROBE)
    ensures Step(t, at) ==
      Moved(at.(vrf := if tenant.Green? then VrfGreen else Main, pkt := Packet(at.pkt.inner.value, None)))
  {
    var func, vrf := if tenant.Green? then UDT_GREEN else UDT_PROBE, if tenant.Green? then VrfGreen else Main;
    LeafHas(t, p, l);
    hide Ifaces, Statics, Emit, Lookup;
    LeafUnique(t, p, l, at.vrf, at.pkt.dst, Entry(Sid(p, func), UDT6(vrf)));
  }

  /** A leaf delivers a decapsulated packet to the host NIC that carries its destination. */
  lemma {:induction false} LeafHandsOver(t: Topo, p: nat, l: nat, tenant: Tenant, x: nat, at: At, i: Iface)
    requires p < t.planes && l < t.leaves && t.spines <= 8 && x >= 2
    requires at.node == Leaf(p, l) && at.vrf == (if tenant.Green? then VrfGreen else Main)
    requires at.pkt.dst == HostAddr(tenant, l, x)
    requires i in Ifaces(t, Host(tenant, l)) && i.port == p + 1 && i.addr == at.pkt.dst
    ensures Step(t, at) == Moved(At(Host(tenant, l), Some(p + 1), Main, at.pkt))
  {
    hide Ifaces, Statics, Emit, Lookup;
    LeafReachesHost(t, p, l, tenant, x);
    CrossToHost(t, p, l, tenant, i, at.pkt);
  }

  /** A yellow host decapsulates. */
  lemma {:induction false} HostUnwraps(t: Topo, h: nat, p: nat, at: At)
    requires p < t.planes && at.node == Host(Yellow, h) && at.vrf.Main? && InBlock(at.pkt.dst, p, UDT_YELLOW)
    requires at.pkt.inner.Some?
    ensures Step(t, at) == Moved(at.(pkt := Packet(at.pkt.inner.value, None)))
  {
    hide Ifaces, Statics, Emit, Lookup;
    HostDecaps(t, h, p, at.pkt.dst);
  }

  lemma {:induction false} HostStops(t: Topo, at: At, i: Iface)
    requires at.node.Host? && at.vrf.Main? && i in Ifaces(t, at.node) && at.pkt.dst == i.addr
    ensures Step(t, at) == Delivered(at)
  {
    hide Ifaces, Statics, Emit, Lookup;
    HostKeeps(t, at.node.tenant, at.node.id, i);
  }

  // ---------------------------------------------------------------- whole journeys

  lemma {:induction false} Hop(t: Topo, at: At, next: At, fuel: nat, end: Outcome, rest: seq<Node>)
    requires Step(t, at) == Moved(next) && Travel(t, next, fuel) == (end, rest)
    ensures Travel(t, at, fuel + 1) == (end, (if next.node == at.node then [] else [next.node]) + rest)
  {
  }

  ghost predicate Budget(t: Topo) { OneDigit(t) && t.spines <= 8 }

  /** `at` comes to `end` through the nodes `via`. */
  ghost predicate Goes(t: Topo, at: At, via: seq<Node>, end: Outcome) {
    exists fuel: nat :: Travel(t, at, fuel) == (end, via)
  }

  lemma {:induction false} GoesOn(t: Topo, at: At, next: At, via: seq<Node>, end: Outcome)
    requires Step(t, at) == Moved(next) && Goes(t, next, via, end)
    ensures next.node != at.node ==> Goes(t, at, [next.node] + via, end)
    ensures next.node == at.node ==> Goes(t, at, via, end)
  {
    var fuel: nat :| Travel(t, next, fuel) == (end, via);
    Hop(t, at, next, fuel, end, via);
    assert [] + via == via;
    assert Travel(t, at, fuel + 1).1 == (if next.node == at.node then [] else [next.node]) + via;
  }

  lemma {:induction false} Joining(a: seq<Node>, b: seq<Node>, c: seq<Node>)
    ensures a + (b + c) == (a + b) + c
  {
  }

  /** Four steps that change node twice: up with a shift or not, and down with a shift or not. */
  lemma {:induction false} GoesUpDown(
    t: Topo, at: At, up: At, shifted: At, down: At, last: At, via: seq<Node>, end: Outcome)
    requires Step(t, at) == Moved(up) && up.node != at.node
    requires up == shifted || (Step(t, up) == Moved(shifted) && up.node == shifted.node)
    requires Step(t, shifted) == Moved(down) && down.node != shifted.node
    requires down == last || (Step(t, down) == Moved(last) && down.node == last.node)
    requires Goes(t, last, via, end)
    ensures Goes(t, at, [up.node, down.node] + via, end)
  {
    hide Step, Goes;
    if down != last { GoesOn(t, down, last, via, end); }
    GoesOn(t, shifted, down, via, end);
    if up != shifted { GoesOn(t, up, shifted, [down.node] + via, end); }
    GoesOn(t, at, up, [down.node] + via, end);
    Joining([up.node], [down.node], via);
    assert [up.node] + [down.node] == [up.node, down.node];
  }

  lemma {:induction false} GoesStop(t: Topo, at: At)
    requires Step(t, at) == Delivered(at)
    ensures Goes(t, at, [], Delivered(at))
  {
    assert Travel(t, at, 1) == (Delivered(at), []);
  }

  /** More fuel does not change how a finished journey ended. */
  lemma {:induction false} MoreFuel(t: Topo, at: At, fuel: nat, extra: nat)
    requires !Travel(t, at, fuel).0.Moved?
    ensures Travel(t, at, fuel + extra) == Travel(t, at, fuel)
    decreases fuel
  {
    hide Step;
    if fuel > 0 && Step(t, at).Moved? {
      MoreFuel(t, Step(t, at).at, fuel - 1, extra);
    }
  }

  /** A journey ends in one way only. */
  lemma {:induction false} OneEnd(t: Topo, at: At, via: seq<Node>, end: Outcome, via': seq<Node>, end': Outcome)
    requires Goes(t, at, via, end) && Goes(t, at, via', end') && !end.Moved? && !end'.Moved?
    ensures via == via' && end == end'
  {
    var f: nat, g: nat :| Travel(t, at, f) == (end, via) && Travel(t, at, g) == (end', via');
    MoreFuel(t, at, f, g);
    MoreFuel(t, at, g, f);
  }

  /** Up to spine s and down to leaf l by adjacency SIDs. */
  lemma {:induction false} ThroughSpine(
    t: Topo, p: nat, from: nat, s: nat, l: nat, at: At, via: seq<Node>, end: Outcome)
    requires Budget(t) && p < t.planes && from < t.leaves && l < t.leaves && s < t.spines
    requires at.node == Leaf(p, from) && InBlock(at.pkt.dst, p, LeafUa(s))
    requires at.pkt.dst.h3 == SpineUa(l) && at.pkt.dst.h4 != 0
    requires Goes(t, At(Leaf(p, l), Some(s + 1), Main, Shifted(Shifted(at.pkt))), via, end)
    ensures Goes(t, at, [Spine(p, s), Leaf(p, l)] + via, end)
  {
    hide Step, Goes;
    var up := At(Spine(p, s), Some(from + 1), Main, Shifted(at.pkt));
    var down := At(Leaf(p, l), Some(s + 1), Main, Shifted(up.pkt));
    LeafUp(t, p, from, s, at);
    SpineDown(t, p, s, l, up);
    GoesUpDown(t, at, up, up, down, down, via, end);
  }

  /** Up to spine s and down to leaf l by node locators, both consumed on the way. */
  lemma {:induction false} ThroughLocators(
    t: Topo, p: nat, from: nat, s: nat, l: nat, at: At, via: seq<Node>, end: Outcome)
    requires Budget(t) && p < t.planes && from < t.leaves && l < t.leaves && s < t.spines
    requires at.node == Leaf(p, from) && InBlock(at.pkt.dst, p, SpineLocator(s))
    requires at.pkt.dst.h3 == LeafLocator(l) && at.pkt.dst.h4 != 0
    requires at.pkt.dst.h5 == at.pkt.dst.h6 == at.pkt.dst.h7 == 0
    requires Goes(t, At(Leaf(p, l), Some(s + 1), Main, Shifted(Shifted(at.pkt))), via, end)
    ensures Goes(t, at, [Spine(p, s), Leaf(p, l)] + via, end)
  {
    hide Step, Goes;
    var up := At(Spine(p, s), Some(from + 1), Main, at.pkt);
    var shifted := up.(pkt := Shifted(at.pkt));
    var down := At(Leaf(p, l), Some(s + 1), Main, shifted.pkt);
    LeafRoutesUp(t, p, from, s, at);
    ConsumesSpine(t, p, s, up);
    SpineRoutesDown(t, p, s, l, shifted);
    ConsumesLeaf(t, p, l, down);
    GoesUpDown(t, at, up, shifted, down, down.(pkt := Shifted(down.pkt)), via, end);
  }

  /** A packet as its sender hands it to the kernel. */
  function Sent(tenant: Tenant, src: nat, outer: Addr, inner: Addr): At {
    At(Host(tenant, src), None, Main, Packet(outer, Some(inner)))
  }

  /** A decapsulated packet taken in by host `h` on the NIC of plane `p`. */
  function Received(tenant: Tenant, h: nat, p: nat, inner: Addr): At {
    At(Host(tenant, h), Some(p + 1), Main, Packet(inner, None))
  }

  /** The last leg: what is left of the identifier list at the destination leaf. */
  lemma {:induction false} DataLastLeg(t: Topo, tenant: Tenant, p: nat, dst: nat, mode: SidMode, at: At)
    requires Budget(t) && p < t.planes && dst < t.leaves && at.node == Leaf(p, dst) && at.vrf.Main?
    requires at.pkt == Packet(
      if tenant.Green? then Addr(BLOCK, p, UDT_GREEN, 0, 0, 0, 0, 0)
      else if mode.ModeUA? then Addr(BLOCK, p, HOST_UA, UDT_YELLOW, 0, 0, 0, 0)
      else Addr(BLOCK, p, UDT_YELLOW, 0, 0, 0, 0, 0), Some(Anycast(tenant, dst)))
    ensures Goes(t, at, [Host(tenant, dst)], Delivered(Received(tenant, dst, p, Anycast(tenant, dst))))
  {
    var end := Received(tenant, dst, p, Anycast(tenant, dst));
    NicIsIface(t, tenant, dst, p);
    assert [Host(tenant, dst)] + [] == [Host(tenant, dst)];
    hide Step, Goes, Ifaces;
    HostStops(t, end, HostNic(tenant, dst, p));
    GoesStop(t, end);
    if tenant.Green? {
      var inVrf := At(at.node, at.arrival, VrfGreen, end.pkt);
      LeafDecaps(t, p, dst, Green, at);
      LeafHandsOver(t, p, dst, Green, 2, inVrf, HostNic(Green, dst, p));
      GoesOn(t, inVrf, end, [], Delivered(end));
      GoesOn(t, at, inVrf, [Host(tenant, dst)], Delivered(end));
    } else {
      var atHost := end.(pkt := Packet(Addr(BLOCK, p, UDT_YELLOW, 0, 0, 0, 0, 0), at.pkt.inner));
      if mode.ModeUA? { LeafDownToHost(t, p, dst, at); } else { LeafRoutesToHost(t, p, dst, at); }
      HostUnwraps(t, dst, p, atHost);
      GoesOn(t, atHost, end, [], Delivered(end));
      GoesOn(t, at, atHost, [], Delivered(end));
    }
  }

  /** From the source's leaf to the destination host. */
  lemma {:induction false} DataCrosses(
    t: Topo, tenant: Tenant, p: nat, s: nat, src: nat, dst: nat, mode: SidMode, at: At)
    requires Budget(t) && p < t.planes && s < t.spines && src < t.leaves && dst < t.leaves
    requires at.node == Leaf(p, src)
    requires at.pkt == Packet(UsidList(tenant, p, s, dst, mode), Some(Anycast(tenant, dst)))
    ensures Goes(t, at, [Spine(p, s), Leaf(p, dst)] + [Host(tenant, dst)],
      Delivered(Received(tenant, dst, p, Anycast(tenant, dst))))
  {
    var end := Delivered(Received(tenant, dst, p, Anycast(tenant, dst)));
    hide Step, Goes;
    DataLastLeg(t, tenant, p, dst, mode, At(Leaf(p, dst), Some(s + 1), Main, Shifted(Shifted(at.pkt))));
    if mode.ModeUA? {
      ThroughSpine(t, p, src, s, dst, at, [Host(tenant, dst)], end);
    } else {
      ThroughLocators(t, p, src, s, dst, at, [Host(tenant, dst)], end);
    }
  }

  /**
    Data delivery: for every topology in the budget, tenant, plane, spine, pair of hosts and SID mode,
    the address built by `usid_outer_dst` takes the packet through exactly the source's leaf, the
    chosen spine and the destination's leaf of that plane, and the destination host takes in the
    decapsulated packet on that plane's NIC.  The path does not depend on the SID mode.
   */
  lemma {:induction false} DataDelivered(t: Topo, tenant: Tenant, p: nat, s: nat, src: nat, dst: nat, mode: SidMode)
    requires Budget(t) && InPlane(t, p) && InSpine(t, s) && InHost(t, src) && InHost(t, dst)
    ensures UsidOuterDst(t, tenant, p, s, dst, mode).Ok?
    ensures Goes(t, Sent(tenant, src, UsidOuterDst(t, tenant, p, s, dst, mode).value, Anycast(tenant, dst)),
      [Leaf(p, src), Spine(p, s), Leaf(p, dst), Host(tenant, dst)],
      Delivered(Received(tenant, dst, p, Anycast(tenant, dst))))
  {
    var outer := UsidList(tenant, p, s, dst, mode);
    var start, end := Sent(tenant, src, outer, Anycast(tenant, dst)), Received(tenant, dst, p, Anycast(tenant, dst));
    var atSrc := At(Leaf(p, src), Some(HostPort(tenant)), PortVrf(Leaf(p, src), HostPort(tenant)), start.pkt);
    hide Step, Goes;
    DataCrosses(t, tenant, p, s, src, dst, mode, atSrc);
    HostToLeaf(t, p, start);
    GoesOn(t, start, atSrc, [Spine(p, s), Leaf(p, dst)] + [Host(tenant, dst)], Delivered(end));
    Joining([Leaf(p, src)], [Spine(p, s), Leaf(p, dst)], [Host(tenant, dst)]);
    assert [Leaf(p, src)] + [Spine(p, s), Leaf(p, dst)] + [Host(tenant, dst)]
      == [Leaf(p, src), Spine(p, s), Leaf(p, dst), Host(tenant, dst)];
  }

  // ---------------------------------------------------------------- probes

  lemma {:induction false} EvIsIface(t: Topo, tenant: Tenant, h: nat, p: nat, path: nat)
    requires p < t.planes && path < t.spines
    ensures HostEv(tenant, h, p, path) in Ifaces(t, Host(tenant, h))
  {
  }

  /** The returning probe at its sender's leaf. */
  lemma {:induction false} ProbeLastLeg(t: Topo, tenant: Tenant, p: nat, src: nat, path: nat, at: At)
    requires Budget(t) && p < t.planes && src < t.leaves && path < t.spines
    requires at.node == Leaf(p, src) && at.vrf.Main? && at.pkt.inner == Some(EvAddr(tenant, src, p, path))
    requires InBlock(at.pkt.dst, p, if tenant.Green? then UDT_GREEN else UDT_PROBE)
    ensures Goes(t, at, [Host(tenant, src)], Delivered(Received(tenant, src, p, EvAddr(tenant, src, p, path))))
  {
    var end := Received(tenant, src, p, EvAddr(tenant, src, p, path));
    var i := HostEv(tenant, src, p, path);
    EvIsIface(t, tenant, src, p, path);
    var inVrf := At(at.node, at.arrival, if tenant.Green? then VrfGreen else Main, end.pkt);
    assert [Host(tenant, src)] + [] == [Host(tenant, src)];
    hide Step, Goes, Ifaces;
    LeafDecaps(t, p, src, tenant, at);
    LeafHandsOver(t, p, src, tenant, (p + 1) * 16 + path, inVrf, i);
    HostStops(t, end, i);
    GoesStop(t, end);
    GoesOn(t, inVrf, end, [], Delivered(end));
    GoesOn(t, at, inVrf, [Host(tenant, src)], Delivered(end));
  }

  /** The nodes a probe visits: out and back through one spine, a yellow one turning at the peer host. */
  function ProbeRound(tenant: Tenant, p: nat, src: nat, dst: nat, path: nat): seq<Node> {
    [Leaf(p, src), Spine(p, path), Leaf(p, dst)]
    + (if tenant.Green? then [] else [Host(Yellow, dst), Leaf(p, dst)])
    + [Spine(p, path), Leaf(p, src), Host(tenant, src)]
  }

  /** The way back from the far leaf, once the far host (if any) has turned the probe around. */
  lemma {:induction false} ProbeBack(t: Topo, tenant: Tenant, p: nat, src: nat, dst: nat, path: nat, at: At)
    requires Budget(t) && p < t.planes && src < t.leaves && dst < t.leaves && path < t.spines
    requires at.node == Leaf(p, dst) && at.pkt.inner == Some(EvAddr(tenant, src, p, path))
    requires InBlock(at.pkt.dst, p, LeafUa(path)) && at.pkt.dst.h3 == SpineUa(src)
    requires at.pkt.dst.h4 == if tenant.Green? then UDT_GREEN else UDT_PROBE
    ensures Goes(t, at, [Spine(p, path), Leaf(p, src), Host(tenant, src)],
      Delivered(Received(tenant, src, p, EvAddr(tenant, src, p, path))))
  {
    var home := At(Leaf(p, src), Some(path + 1), Main, Shifted(Shifted(at.pkt)));
    hide Step, Goes;
    ProbeLastLeg(t, tenant, p, src, path, home);
    var end := Delivered(Received(tenant, src, p, EvAddr(tenant, src, p, path)));
    ThroughSpine(t, p, dst, path, src, at, [Host(tenant, src)], end);
    assert [Spine(p, path), Leaf(p, src)] + [Host(tenant, src)] == [Spine(p, path), Leaf(p, src), Host(tenant, src)];
  }

  /** The probe at the far leaf: a green one turns around there, a yellow one at the host. */
  lemma {:induction false} ProbeTurns(t: Topo, tenant: Tenant, p: nat, src: nat, dst: nat, path: nat, far: At)
    requires Budget(t) && p < t.planes && src < t.leaves && dst < t.leaves && path < t.spines
    requires far == At(Leaf(p, dst), Some(path + 1), Main,
      Packet(Shift(Shift(ProbeList(tenant, p, src, dst, path))), Some(EvAddr(tenant, src, p, path))))
    ensures Goes(t, far, (if tenant.Green? then [] else [Host(Yellow, dst), Leaf(p, dst)])
      + [Spine(p, path), Leaf(p, src), Host(tenant, src)],
      Delivered(Received(tenant, src, p, EvAddr(tenant, src, p, path))))
  {
    var end := Delivered(Received(tenant, src, p, EvAddr(tenant, src, p, path)));
    var home := [Spine(p, path), Leaf(p, src), Host(tenant, src)];
    hide Step, Goes;
    if tenant.Green? {
      ProbeBack(t, tenant, p, src, dst, path, far);
      assert [] + home == home;
    } else {
      var turn := At(Host(Yellow, dst), Some(p + 1), Main, Shifted(far.pkt));
      var back := At(Leaf(p, dst), Some(YELLOW_PORT), Main, turn.pkt);
      ProbeBack(t, tenant, p, src, dst, path, back);
      HostToLeaf(t, p, turn);
      GoesOn(t, turn, back, home, end);
      LeafDownToHost(t, p, dst, far);
      GoesOn(t, far, turn, [Leaf(p, dst)] + home, end);
      assert [Host(Yellow, dst)] + ([Leaf(p, dst)] + home) == [Host(Yellow, dst), Leaf(p, dst)] + home;
    }
  }

  /**
    Probe round trip: every probe addressed by `probe_outer_dst` goes out to the far leaf (a yellow one
    on to the far host) and comes back to its sender through the same spine both ways, on the NIC of
    its plane, with the inner address that names the EV.
   */
  lemma {:induction false} ProbeReturns(t: Topo, tenant: Tenant, p: nat, src: nat, dst: nat, path: nat)
    requires Budget(t) && InPlane(t, p) && InHost(t, src) && InHost(t, dst) && InSpine(t, path)
    ensures ProbeOuterDst(t, tenant, p, src, dst, path).Ok? && ProbeEvAddr(t, tenant, src, p, path).Ok?
    ensures var inner := ProbeEvAddr(t, tenant, src, p, path).value;
      Goes(t, Sent(tenant, src, ProbeOuterDst(t, tenant, p, src, dst, path).value, inner),
        ProbeRound(tenant, p, src, dst, path), Delivered(Received(tenant, src, p, inner)))
  {
    var outer, inner := ProbeList(tenant, p, src, dst, path), EvAddr(tenant, src, p, path);
    var start, end := Sent(tenant, src, outer, inner), Delivered(Received(tenant, src, p, inner));
    var out := At(Leaf(p, src), Some(HostPort(tenant)), PortVrf(Leaf(p, src), HostPort(tenant)), start.pkt);
    var far := At(Leaf(p, dst), Some(path + 1), Main, Shifted(Shifted(start.pkt)));
    var turn := if tenant.Green? then [] else [Host(Yellow, dst), Leaf(p, dst)];
    var home := [Spine(p, path), Leaf(p, src), Host(tenant, src)];
    hide Step, Goes;
    ProbeTurns(t, tenant, p, src, dst, path, far);
    ThroughSpine(t, p, src, path, dst, out, turn + home, end);
    HostToLeaf(t, p, start);
    GoesOn(t, start, out, [Spine(p, path), Leaf(p, dst)] + (turn + home), end);
    Joining([Leaf(p, src)], [Spine(p, path), Leaf(p, dst)], turn + home);
    Joining([Leaf(p, src), Spine(p, path), Leaf(p, dst)], turn, home);
    assert [Leaf(p, src)] + [Spine(p, path), Leaf(p, dst)] == [Leaf(p, src), Spine(p, path), Leaf(p, dst)];
  }

  /** Which nodes can claim an address. */
  ghost predicate Configured(t: Topo, n: Node, port: nat, a: Addr) {
    && (n.Leaf? ==> n.plane < t.planes && n.id < t.leaves)
    && (n.Spine? ==> n.plane < t.planes && n.id < t.spines)
    && (n.Host? ==> n.id < t.leaves)
    && Owns(t, n, port, a)
  }

  /** An EV's probe address is configured on its host's NIC of its plane and nowhere else in the lab. */
  lemma {:induction false} EvAddressHasOneOwner(t: Topo, tenant: Tenant, h: nat, p: nat, path: nat, n: Node, port: nat)
    requires Budget(t) && InHost(t, h) && InPlane(t, p) && InSpine(t, path)
    ensures Configured(t, n, port, EvAddr(tenant, h, p, path)) <==> n == Host(tenant, h) && port == p + 1
  {
    EvIsIface(t, tenant, h, p, path);
    var a := EvAddr(tenant, h, p, path);
    forall i | i in Ifaces(t, n) && i.addr == a ensures n == Host(tenant, h) && i.port == p + 1 {
      assert (p + 1) * 16 + path >= 16;
      if n.Host? {
        if q, r :| 0 <= q < t.planes && 0 <= r < t.spines && i == HostEv(n.tenant, n.id, q, r) {
          assert (q + 1) * 16 + r == (p + 1) * 16 + path;
        }
      }
    }
  }

  /** The inner-source placeholders are configured nowhere. */
  lemma {:induction false} PlaceholderHasNoOwner(t: Topo, tenant: Tenant, n: Node, port: nat)
    requires Budget(t)
    ensures !Configured(t, n, port, Placeholder(tenant))
  {
    if n.Host? {
      assert forall p: nat, q: nat :: p < t.planes && q < t.spines ==> HostEv(n.tenant, n.id, p, q).addr.h7 < 0xffff;
    }
    assert forall i :: i in Ifaces(t, n) ==> i.addr.h7 < 0xffff;
  }
}
