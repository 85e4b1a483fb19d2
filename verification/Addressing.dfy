/**
  IPv6 addresses as eight hextets, the uSID address plan of `srv6_mrc/topo.py`, and the SID, locator
  and host address helpers of `generators/fabric.py`.
 */
module Addressing {
  import opened Arith
  import opened Wrappers

  datatype Addr = Addr(h0: nat, h1: nat, h2: nat, h3: nat, h4: nat, h5: nat, h6: nat, h7: nat)

  datatype Prefix = Prefix(addr: Addr, len: nat)

  /** The first `bits` bits of two hextets agree. */
  predicate Agree(x: nat, y: nat, bits: int) {
    if bits <= 0 then true
    else if bits >= 16 then x == y
    else x / Pow2(16 - bits) == y / Pow2(16 - bits)
  }

  predicate Covers(p: Prefix, a: Addr) {
    && Agree(p.addr.h0, a.h0, p.len) && Agree(p.addr.h1, a.h1, p.len - 16)
    && Agree(p.addr.h2, a.h2, p.len - 32) && Agree(p.addr.h3, a.h3, p.len - 48)
    && Agree(p.addr.h4, a.h4, p.len - 64) && Agree(p.addr.h5, a.h5, p.len - 80)
    && Agree(p.addr.h6, a.h6, p.len - 96) && Agree(p.addr.h7, a.h7, p.len - 112)
  }

  /** The NEXT-CSID shift (RFC 9800 section 4.1): the argument moves up behind the 32-bit block. */
  function Shift(a: Addr): Addr { Addr(a.h0, a.h1, a.h3, a.h4, a.h5, a.h6, a.h7, 0) }

  /** No identifier is left after the active one. */
  predicate Exhausted(a: Addr) { a.h3 == 0 && a.h4 == 0 && a.h5 == 0 && a.h6 == 0 && a.h7 == 0 }

  /** A topology's size; leaves are also the hosts of each tenant. */
  datatype Topo = Topo(planes: nat, spines: nat, leaves: nat)

  /** Every plane, spine and leaf number is one hexadecimal digit, as the address texts assume. */
  predicate OneDigit(t: Topo) { t.planes <= 16 && t.spines <= 16 && t.leaves <= 16 }

  datatype Tenant = Green | Yellow
  datatype SidMode = ModeUA | ModeUN

  const BLOCK: nat := 0xfc00
  const UDT_GREEN: nat := 0xd000
  const UDT_YELLOW: nat := 0xd001
  const UDT_PROBE: nat := 0xdfff
  const HOST_UA: nat := 0xe009

  function Sid(plane: nat, func: nat): Prefix { Prefix(Addr(BLOCK, plane, func, 0, 0, 0, 0, 0), 48) }

  function SpineLocator(spine: nat): nat { 0x10 + spine }
  function LeafLocator(leaf: nat): nat { 0x20 + leaf }
  function LeafUa(spine: nat): nat { 0xf000 + spine }
  function SpineUa(leaf: nat): nat { 0xe000 + leaf }

  function Loopback(plane: nat, locator: nat): Addr { Addr(BLOCK, plane, locator, 0, 0, 0, 0, 1) }

  /** `p2p_prefix` with host part `x`: 0 on the spine's side, 1 on the leaf's. */
  function P2p(t: Topo, spine: nat, leaf: nat, x: nat): Addr {
    Addr(0x2001, 0xdb8, 0xfab, spine * t.leaves + leaf, 0, 0, 0, x)
  }

  function TenantBase(tenant: Tenant): nat { if tenant.Green? then 0xbbbb else 0xcccc }

  /** An address in a host's plane-independent /64: 1 is the leaf gateway, 2 the anycast address. */
  function HostAddr(tenant: Tenant, host: nat, x: nat): Addr {
    Addr(0x2001, 0xdb8, TenantBase(tenant), host, 0, 0, 0, x)
  }

  function Anycast(tenant: Tenant, host: nat): Addr { HostAddr(tenant, host, 2) }

  // ---------------------------------------------------------------- addresses built by topo.py

  predicate InPlane(t: Topo, plane: int) { 0 <= plane < t.planes }
  predicate InSpine(t: Topo, spine: int) { 0 <= spine < t.spines }
  predicate InHost(t: Topo, host: int) { 0 <= host < t.leaves }

  /** `usid_outer_dst`; an argument out of range raises. */
  function UsidOuterDst(t: Topo, tenant: Tenant, plane: int, spine: int, dst: int, mode: SidMode)
    : (r: Result<Addr, string>)
    ensures r.Ok? <==> 0 <= plane < t.planes && 0 <= spine < t.spines && 0 <= dst < t.leaves
  {
    if !InPlane(t, plane) then Err("plane")
    else if !InSpine(t, spine) then Err("spine")
    else if !InHost(t, dst) then Err("host")
    else Ok(UsidList(tenant, plane, spine, dst, mode))
  }

  function UsidList(tenant: Tenant, plane: nat, spine: nat, dst: nat, mode: SidMode): Addr {
    match (mode, tenant)
    case (ModeUA, Green) => Addr(BLOCK, plane, LeafUa(spine), SpineUa(dst), UDT_GREEN, 0, 0, 0)
    case (ModeUA, Yellow) => Addr(BLOCK, plane, LeafUa(spine), SpineUa(dst), HOST_UA, UDT_YELLOW, 0, 0)
    case (ModeUN, Green) => Addr(BLOCK, plane, SpineLocator(spine), LeafLocator(dst), UDT_GREEN, 0, 0, 0)
    case (ModeUN, Yellow) => Addr(BLOCK, plane, SpineLocator(spine), LeafLocator(dst), UDT_YELLOW, 0, 0, 0)
  }

  /** `probe_outer_dst`. */
  function ProbeOuterDst(t: Topo, tenant: Tenant, plane: int, src: int, dst: int, path: int)
    : (r: Result<Addr, string>)
    ensures r.Ok? <==> 0 <= plane < t.planes && 0 <= src < t.leaves && 0 <= dst < t.leaves && 0 <= path < t.spines
  {
    if !InPlane(t, plane) then Err("plane")
    else if !InHost(t, src) || !InHost(t, dst) then Err("host")
    else if !InSpine(t, path) then Err("spine")
    else Ok(ProbeList(tenant, plane, src, dst, path))
  }

  function ProbeList(tenant: Tenant, plane: nat, src: nat, dst: nat, path: nat): Addr {
    match tenant
    case Green => Addr(BLOCK, plane, LeafUa(path), SpineUa(dst), LeafUa(path), SpineUa(src), UDT_GREEN, 0)
    case Yellow => Addr(BLOCK, plane, LeafUa(path), SpineUa(dst), HOST_UA, LeafUa(path), SpineUa(src), UDT_PROBE)
  }

  /** `probe_ev_addr`: the NIC number (plane + 1) and the path share the last hextet. */
  function ProbeEvAddr(t: Topo, tenant: Tenant, host: int, plane: int, path: int): (r: Result<Addr, string>)
    ensures r.Ok? <==> 0 <= host < t.leaves && 0 <= plane < t.planes && 0 <= path < t.spines
  {
    if !InHost(t, host) then Err("host")
    else if !InPlane(t, plane) then Err("plane")
    else if !InSpine(t, path) then Err("spine")
    else Ok(EvAddr(tenant, host, plane, path))
  }

  function EvAddr(tenant: Tenant, host: nat, plane: nat, path: nat): Addr {
    HostAddr(tenant, host, (plane + 1) * 16 + path)
  }

  /** `PROBE_INNER_SRC_PLACEHOLDER`. */
  function Placeholder(tenant: Tenant): Addr { HostAddr(tenant, 0, 0xffff) }

  datatype Ev = Ev(tenant: Tenant, host: nat, plane: nat, path: nat)

  /** `probe_ev_from_inner_dst`. */
  function EvOfInnerDst(t: Topo, a: Addr): Option<Ev> {
    if a.h0 != 0x2001 || a.h1 != 0xdb8 then None
    else if a.h2 != 0xcccc && a.h2 != 0xbbbb then None
    else if a.h4 != 0 || a.h5 != 0 || a.h6 != 0 then None
    else if a.h3 >= t.leaves then None
    else if a.h7 < 0x10 || a.h7 > 0xff then None
    else
      var nic, path := a.h7 / 16 % 16, a.h7 % 16;
      if !(1 <= nic <= t.planes) || path >= t.spines then None
      else Some(Ev(if a.h2 == 0xcccc then Yellow else Green, a.h3, nic - 1, path))
  }

  predicate InRange(t: Topo, ev: Ev) { ev.host < t.leaves && ev.plane < t.planes && ev.path < t.spines }

  /** Decoding inverts the address plan: an address decodes to an EV exactly when it is that EV's. */
  lemma {:induction false} DecodesExactlyItsAddress(t: Topo, a: Addr, ev: Ev)
    requires OneDigit(t) && t.planes <= 15
    ensures EvOfInnerDst(t, a) == Some(ev) <==>
      InRange(t, ev) && a == EvAddr(ev.tenant, ev.host, ev.plane, ev.path)
  {
    if InRange(t, ev) {
      var low := (ev.plane + 1) * 16 + ev.path;
      assert low / 16 == ev.plane + 1 && low % 16 == ev.path;
    }
    assert a.h7 == a.h7 / 16 * 16 + a.h7 % 16;
  }

  /** An EV's probe address comes back as that EV if and only if its NIC number fits one digit. */
  lemma {:induction false} RoundTripIffNicFits(t: Topo, ev: Ev)
    requires t.leaves <= 0x1_0000 && t.spines <= 16 && InRange(t, ev)
    ensures EvOfInnerDst(t, EvAddr(ev.tenant, ev.host, ev.plane, ev.path)) == Some(ev) <==> ev.plane <= 14
  {
    var low := (ev.plane + 1) * 16 + ev.path;
    assert low / 16 == ev.plane + 1 && low % 16 == ev.path;
  }

  /** A sixteenth plane's probe address, with NIC number 16, decodes to nothing. */
  lemma {:induction false} SixteenthPlaneIsLost()
    ensures EvOfInnerDst(Topo(16, 8, 16), EvAddr(Yellow, 0, 15, 0)) == None
  {
  }

  /** Anycast addresses, gateways and the inner-source placeholders are no EV's address. */
  lemma {:induction false} OtherAddressesDecodeToNone(t: Topo, tenant: Tenant, host: nat)
    ensures EvOfInnerDst(t, Anycast(tenant, host)) == None
    ensures EvOfInnerDst(t, HostAddr(tenant, host, 1)) == None
    ensures EvOfInnerDst(t, Placeholder(tenant)) == None
  {
  }
}
