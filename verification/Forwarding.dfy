/**
  What the generated configuration files (`generators/fabric.py`) make of every node: its interfaces,
  SIDs, routes and cables, and one forwarding step over them.  A lookup takes the longest matching
  prefix and only succeeds when one entry is the longest; a frame only crosses a link whose far end
  owns the next-hop address.
 */
module Forwarding {
  import opened Wrappers
  import opened Addressing

  /** `p<plane>-leaf<id>`, `p<plane>-spine<id>` and `<tenant>-host<id>`. */
  datatype Node = Leaf(plane: nat, id: nat) | Spine(plane: nat, id: nat) | Host(tenant: Tenant, id: nat)

  datatype Vrf = Main | VrfGreen

  /** Ports are numbered as the host side names them: `Ethernet<4k>` is `eth<k+1>`; 0 is the loopback. */
  datatype Iface = Iface(port: nat, addr: Addr, len: nat, vrf: Vrf)

  datatype Action =
    | UN
    | UA(port: nat, nexthop: Addr)
    | UDT6(vrf: Vrf)
    | Via(gateway: Addr)
    | ViaDev(gateway: Addr, dev: nat)
    | Connected(port: nat)
    | Local

  datatype Entry = Entry(prefix: Prefix, action: Action)

  const GREEN_PORT: nat := 32 / 4 + 1
  const YELLOW_PORT: nat := 36 / 4 + 1

  // ---------------------------------------------------------------- interfaces

  function LeafUplink(t: Topo, leaf: nat, s: nat): Iface { Iface(s + 1, P2p(t, s, leaf, 1), 127, Main) }

  /** `write_leaf_config_db`. */
  function LeafIfaces(t: Topo, plane: nat, leaf: nat): set<Iface> {
    (set s | 0 <= s < t.spines :: LeafUplink(t, leaf, s))
    + {Iface(0, Loopback(plane, LeafLocator(leaf)), 128, Main),
       Iface(GREEN_PORT, HostAddr(Green, leaf, 1), 64, VrfGreen),
       Iface(YELLOW_PORT, HostAddr(Yellow, leaf, 1), 64, Main)}
  }

  function SpineDownlink(t: Topo, spine: nat, l: nat): Iface { Iface(l + 1, P2p(t, spine, l, 0), 127, Main) }

  /** `write_spine_config_db`. */
  function SpineIfaces(t: Topo, plane: nat, spine: nat): set<Iface> {
    (set l | 0 <= l < t.leaves :: SpineDownlink(t, spine, l))
    + {Iface(0, Loopback(plane, SpineLocator(spine)), 128, Main)}
  }

  function HostNic(tenant: Tenant, host: nat, p: nat): Iface { Iface(p + 1, Anycast(tenant, host), 64, Main) }

  function HostEv(tenant: Tenant, host: nat, p: nat, path: nat): Iface {
    Iface(p + 1, EvAddr(tenant, host, p, path), 128, Main)
  }

  /** The `ip -6 addr add` lines of `write_topology_yaml`. */
  function HostIfaces(t: Topo, tenant: Tenant, host: nat): set<Iface> {
    (set p | 0 <= p < t.planes :: HostNic(tenant, host, p))
    + (set p, q | 0 <= p < t.planes && 0 <= q < t.spines :: HostEv(tenant, host, p, q))
    + if tenant.Yellow? then {Iface(0, Anycast(tenant, host), 128, Main)} else {}
  }

  function Ifaces(t: Topo, n: Node): set<Iface> {
    match n
    case Leaf(p, l) => LeafIfaces(t, p, l)
    case Spine(p, s) => SpineIfaces(t, p, s)
    case Host(tn, h) => HostIfaces(t, tn, h)
  }

  /** A port answers for the addresses configured on it. */
  ghost predicate Owns(t: Topo, n: Node, port: nat, a: Addr) {
    exists i :: i in Ifaces(t, n) && i.port == port && i.addr == a
  }

  // ---------------------------------------------------------------- SIDs and routes

  function LeafUaEntry(t: Topo, plane: nat, leaf: nat, s: nat): Entry {
    Entry(Sid(plane, LeafUa(s)), UA(s + 1, P2p(t, s, leaf, 0)))
  }

  function ToSpine(t: Topo, plane: nat, leaf: nat, s: nat): Entry {
    Entry(Sid(plane, SpineLocator(s)), Via(P2p(t, s, leaf, 0)))
  }

  function ToLeafVia(t: Topo, plane: nat, leaf: nat, other: nat, s: nat): Entry {
    Entry(Sid(plane, LeafLocator(other)), Via(P2p(t, s, leaf, 0)))
  }

  /** `write_leaf_frr`, the static SIDs. */
  function LeafSids(t: Topo, plane: nat, leaf: nat): set<Entry> {
    {Entry(Sid(plane, LeafLocator(leaf)), UN)}
    + (set s | 0 <= s < t.spines :: LeafUaEntry(t, plane, leaf, s))
    + {Entry(Sid(plane, UDT_GREEN), UDT6(VrfGreen)),
       Entry(Sid(plane, HOST_UA), UA(YELLOW_PORT, Anycast(Yellow, leaf))),
       Entry(Sid(plane, UDT_PROBE), UDT6(Main))}
  }

  /** `write_leaf_frr`, the static routes. */
  function LeafRoutes(t: Topo, plane: nat, leaf: nat): set<Entry> {
    (set s | 0 <= s < t.spines :: ToSpine(t, plane, leaf, s))
    + (set o, s | 0 <= o < t.leaves && o != leaf && 0 <= s < t.spines :: ToLeafVia(t, plane, leaf, o, s))
    + {Entry(Sid(plane, UDT_YELLOW), Via(Anycast(Yellow, leaf)))}
  }

  function SpineUaEntry(t: Topo, plane: nat, spine: nat, l: nat): Entry {
    Entry(Sid(plane, SpineUa(l)), UA(l + 1, P2p(t, spine, l, 1)))
  }

  function ToLeaf(t: Topo, plane: nat, spine: nat, l: nat): Entry {
    Entry(Sid(plane, LeafLocator(l)), Via(P2p(t, spine, l, 1)))
  }

  /** `write_spine_frr`, the static SIDs. */
  function SpineSids(t: Topo, plane: nat, spine: nat): set<Entry> {
    {Entry(Sid(plane, SpineLocator(spine)), UN)} + (set l | 0 <= l < t.leaves :: SpineUaEntry(t, plane, spine, l))
  }

  /** `write_spine_frr`, the static routes. */
  function SpineRoutes(t: Topo, plane: nat, spine: nat): set<Entry> {
    set l | 0 <= l < t.leaves :: ToLeaf(t, plane, spine, l)
  }

  function PlaneRoute(tenant: Tenant, host: nat, p: nat): Entry {
    Entry(Prefix(Addr(BLOCK, p, 0, 0, 0, 0, 0, 0), 32), ViaDev(HostAddr(tenant, host, 1), p + 1))
  }

  function TenantRoute(tenant: Tenant, host: nat): Entry {
    Entry(Prefix(Addr(0x2001, 0xdb8, TenantBase(tenant), 0, 0, 0, 0, 0), 48), ViaDev(HostAddr(tenant, host, 1), 1))
  }

  function HostUdt(p: nat): Entry { Entry(Sid(p, UDT_YELLOW), UDT6(Main)) }

  /** The `ip -6 route add` lines of `write_topology_yaml`. */
  function HostRoutes(t: Topo, tenant: Tenant, host: nat): set<Entry> {
    (set p | 0 <= p < t.planes :: PlaneRoute(tenant, host, p))
    + {TenantRoute(tenant, host)}
    + if tenant.Yellow? then (set p | 0 <= p < t.planes :: HostUdt(p)) else {}
  }

  function Statics(t: Topo, n: Node): set<Entry> {
    match n
    case Leaf(p, l) => LeafSids(t, p, l) + LeafRoutes(t, p, l)
    case Spine(p, s) => SpineSids(t, p, s) + SpineRoutes(t, p, s)
    case Host(tn, h) => HostRoutes(t, tn, h)
  }

  function ConnectedEntry(i: Iface): Entry { Entry(Prefix(i.addr, i.len), Connected(i.port)) }
  function LocalEntry(i: Iface): Entry { Entry(Prefix(i.addr, 128), Local) }

  /** The table of a VRF: what its interfaces add, and in the main table the SIDs and routes. */
  ghost predicate InTable(t: Topo, n: Node, vrf: Vrf, e: Entry) {
    || (exists i :: i in Ifaces(t, n) && i.vrf == vrf && i.len < 128 && e == ConnectedEntry(i))
    || (exists i :: i in Ifaces(t, n) && i.vrf == vrf && e == LocalEntry(i))
    || (vrf.Main? && e in Statics(t, n))
  }

  /** `e` is the one longest match for `a`. */
  ghost predicate OnlyBest(t: Topo, n: Node, vrf: Vrf, a: Addr, e: Entry) {
    && InTable(t, n, vrf, e) && Covers(e.prefix, a)
    && forall f :: InTable(t, n, vrf, f) && Covers(f.prefix, a) ==> f == e || f.prefix.len < e.prefix.len
  }

  ghost predicate NoMatch(t: Topo, n: Node, vrf: Vrf, a: Addr) {
    forall f :: InTable(t, n, vrf, f) ==> !Covers(f.prefix, a)
  }

  /** The lookup in one table; two longest matches (an ECMP group) count as a failure. */
  ghost function LookupIn(t: Topo, n: Node, vrf: Vrf, a: Addr): Option<Action> {
    if e :| OnlyBest(t, n, vrf, a, e) then Some(e.action) else None
  }

  /** A lookup that matches nothing in a VRF goes on in the main table, as Linux rules do. */
  ghost function Lookup(t: Topo, n: Node, vrf: Vrf, a: Addr): Option<Action> {
    if NoMatch(t, n, vrf, a) then LookupIn(t, n, Main, a) else LookupIn(t, n, vrf, a)
  }

  // ---------------------------------------------------------------- cables

  datatype End = End(node: Node, port: nat)
  datatype Cable = Cable(a: End, b: End)

  function FabricCable(p: nat, s: nat, l: nat): Cable { Cable(End(Leaf(p, l), s + 1), End(Spine(p, s), l + 1)) }

  function HostCable(p: nat, n: nat, tenant: Tenant): Cable {
    Cable(End(Leaf(p, n), if tenant.Green? then 9 else 10), End(Host(tenant, n), p + 1))
  }

  /** The `links:` section of `write_topology_yaml`. */
  ghost predicate Wired(t: Topo, c: Cable) {
    || (exists p, s, l :: 0 <= p < t.planes && 0 <= s < t.spines && 0 <= l < t.leaves && c == FabricCable(p, s, l))
    || (exists p, n, tn :: 0 <= p < t.planes && 0 <= n < t.leaves && c == HostCable(p, n, tn))
  }

  ghost predicate Joined(t: Topo, x: End, y: End) { Wired(t, Cable(x, y)) || Wired(t, Cable(y, x)) }

  /** The far end of a port with exactly one cable. */
  ghost function Peer(t: Topo, x: End): Option<End> {
    if y :| Joined(t, x, y) && forall z :: Joined(t, x, z) ==> z == y then Some(y) else None
  }

  // ---------------------------------------------------------------- one step

  /** A packet's destination, and the one inside it when it is encapsulated. */
  datatype Packet = Packet(dst: Addr, inner: Option<Addr>)

  /** A packet about to be looked up on a node; `arrival` is the port it came in on. */
  datatype At = At(node: Node, arrival: Option<nat>, vrf: Vrf, pkt: Packet)

  datatype Outcome = Moved(at: At) | Delivered(at: At) | Dropped

  /** The VRF a port is bound to. */
  function PortVrf(n: Node, port: nat): Vrf { if n.Leaf? && port == GREEN_PORT then VrfGreen else Main }

  ghost function Emit(t: Topo, n: Node, port: nat, nexthop: Addr, pkt: Packet): Outcome {
    match Peer(t, End(n, port))
    case None => Dropped
    case Some(far) =>
      if Owns(t, far.node, far.port, nexthop)
      then Moved(At(far.node, Some(far.port), PortVrf(far.node, far.port), pkt))
      else Dropped
  }

  /** Green hosts have forwarding off: they only send their own packets. */
  predicate MayForward(at: At) { at.node.Host? ==> at.arrival.None? || at.node.tenant.Yellow? }

  ghost function Step(t: Topo, at: At): Outcome {
    match Lookup(t, at.node, at.vrf, at.pkt.dst)
    case None => Dropped
    case Some(Local) => if at.node.Host? then Delivered(at) else Dropped
    case Some(UN) =>
      if Exhausted(at.pkt.dst) then Dropped else Moved(at.(vrf := Main, pkt := at.pkt.(dst := Shift(at.pkt.dst))))
    case Some(UA(port, nexthop)) =>
      if Exhausted(at.pkt.dst) then Dropped
      else Emit(t, at.node, port, nexthop, at.pkt.(dst := Shift(at.pkt.dst)))
    case Some(UDT6(vrf)) =>
      if at.pkt.inner.None? then Dropped else Moved(at.(vrf := vrf, pkt := Packet(at.pkt.inner.value, None)))
    case Some(Via(gateway)) =>
      (match Lookup(t, at.node, at.vrf, gateway)
       case Some(Connected(port)) => if MayForward(at) then Emit(t, at.node, port, gateway, at.pkt) else Dropped
       case _ => Dropped)
    case Some(ViaDev(gateway, dev)) =>
      if MayForward(at) then Emit(t, at.node, dev, gateway, at.pkt) else Dropped
    case Some(Connected(port)) =>
      if MayForward(at) then Emit(t, at.node, port, at.pkt.dst, at.pkt) else Dropped
  }

  /** `fuel` steps, with the nodes entered on the way. */
  ghost function Travel(t: Topo, at: At, fuel: nat): (r: (Outcome, seq<Node>))
    decreases fuel
  {
    if fuel == 0 then (Moved(at), [])
    else
      match Step(t, at)
      case Moved(next) =>
        var rest := Travel(t, next, fuel - 1);
        (rest.0, (if next.node == at.node then [] else [next.node]) + rest.1)
      case stop => (stop, [])
  }
}
