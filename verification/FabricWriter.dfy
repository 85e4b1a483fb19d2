/**
  The loops of `generators/fabric.py` that emit the configuration, proved to emit exactly the entries,
  interfaces and cables the forwarding model reads.  Lines are the values they denote; both `write_*`
  halves of a node (`config_db.json` and `frr.conf`, or a host's `exec` list) are here.
 */
module FabricWriter {
  import opened Addressing
  import opened Forwarding

  /** `write_leaf_frr`. */
  method WriteLeafFrr(t: Topo, plane: nat, leaf: nat) returns (sids: seq<Entry>, routes: seq<Entry>)
    ensures forall e :: e in sids <==> e in LeafSids(t, plane, leaf)
    ensures forall e :: e in routes <==> e in LeafRoutes(t, plane, leaf)
  {
    sids := [Entry(Sid(plane, LeafLocator(leaf)), UN)];
    for s := 0 to t.spines
      invariant forall e :: e in sids <==>
        e == Entry(Sid(plane, LeafLocator(leaf)), UN) || exists k :: 0 <= k < s && e == LeafUaEntry(t, plane, leaf, k)
    {
      var line := Entry(Sid(plane, LeafUa(s)), UA(s + 1, P2p(t, s, leaf, 0)));
      assert line == LeafUaEntry(t, plane, leaf, s);
      sids := sids + [line];
    }
    sids := sids + [Entry(Sid(plane, UDT_GREEN), UDT6(VrfGreen))];
    sids := sids + [Entry(Sid(plane, HOST_UA), UA(YELLOW_PORT, Anycast(Yellow, leaf)))];
    sids := sids + [Entry(Sid(plane, UDT_PROBE), UDT6(Main))];
    routes := [];
    for s := 0 to t.spines
      invariant forall e :: e in routes <==> exists k :: 0 <= k < s && e == ToSpine(t, plane, leaf, k)
    {
      var line := Entry(Sid(plane, SpineLocator(s)), Via(P2p(t, s, leaf, 0)));
      assert line == ToSpine(t, plane, leaf, s);
      routes := routes + [line];
    }
    var remote := WriteRemoteLeaves(t, plane, leaf);
    routes := routes + remote + [Entry(Sid(plane, UDT_YELLOW), Via(Anycast(Yellow, leaf)))];
  }

  /** The routes of `write_leaf_frr` to every other leaf, one per spine. */
  method WriteRemoteLeaves(t: Topo, plane: nat, leaf: nat) returns (routes: seq<Entry>)
    ensures forall e :: e in routes <==>
      exists o, s :: 0 <= o < t.leaves && o != leaf && 0 <= s < t.spines && e == ToLeafVia(t, plane, leaf, o, s)
  {
    routes := [];
    for other := 0 to t.leaves
      invariant forall e :: e in routes <==>
        exists o, s :: 0 <= o < other && o != leaf && 0 <= s < t.spines && e == ToLeafVia(t, plane, leaf, o, s)
    {
      if other == leaf { continue; }
      var before := routes;
      for s := 0 to t.spines
        invariant forall e :: e in routes <==>
          e in before || exists k :: 0 <= k < s && e == ToLeafVia(t, plane, leaf, other, k)
      {
        var line := Entry(Sid(plane, LeafLocator(other)), Via(P2p(t, s, leaf, 0)));
        assert line == ToLeafVia(t, plane, leaf, other, s);
        routes := routes + [line];
      }
    }
  }

  /** `write_spine_frr`. */
  method WriteSpineFrr(t: Topo, plane: nat, spine: nat) returns (sids: seq<Entry>, routes: seq<Entry>)
    ensures forall e :: e in sids <==> e in SpineSids(t, plane, spine)
    ensures forall e :: e in routes <==> e in SpineRoutes(t, plane, spine)
  {
    sids := [Entry(Sid(plane, SpineLocator(spine)), UN)];
    for l := 0 to t.leaves
      invariant forall e :: e in sids <==>
        || e == Entry(Sid(plane, SpineLocator(spine)), UN)
        || exists k :: 0 <= k < l && e == SpineUaEntry(t, plane, spine, k)
    {
      var line := Entry(Sid(plane, SpineUa(l)), UA(l + 1, P2p(t, spine, l, 1)));
      assert line == SpineUaEntry(t, plane, spine, l);
      sids := sids + [line];
    }
    routes := [];
    for l := 0 to t.leaves
      invariant forall e :: e in routes <==> exists k :: 0 <= k < l && e == ToLeaf(t, plane, spine, k)
    {
      var line := Entry(Sid(plane, LeafLocator(l)), Via(P2p(t, spine, l, 1)));
      assert line == ToLeaf(t, plane, spine, l);
      routes := routes + [line];
    }
  }

  /** The interfaces of `write_leaf_config_db`. */
  method WriteLeafConfigDb(t: Topo, plane: nat, leaf: nat) returns (ifaces: seq<Iface>)
    ensures forall i :: i in ifaces <==> i in LeafIfaces(t, plane, leaf)
  {
    ifaces := [Iface(0, Loopback(plane, LeafLocator(leaf)), 128, Main)];
    for s := 0 to t.spines
      invariant forall i :: i in ifaces <==>
        || i == Iface(0, Loopback(plane, LeafLocator(leaf)), 128, Main)
        || exists k :: 0 <= k < s && i == LeafUplink(t, leaf, k)
    {
      var addr := Iface(s + 1, P2p(t, s, leaf, 1), 127, Main);
      assert addr == LeafUplink(t, leaf, s);
      ifaces := ifaces + [addr];
    }
    ifaces := ifaces + [Iface(GREEN_PORT, HostAddr(Green, leaf, 1), 64, VrfGreen)];
    ifaces := ifaces + [Iface(YELLOW_PORT, HostAddr(Yellow, leaf, 1), 64, Main)];
  }

  /** The interfaces of `write_spine_config_db`. */
  method WriteSpineConfigDb(t: Topo, plane: nat, spine: nat) returns (ifaces: seq<Iface>)
    ensures forall i :: i in ifaces <==> i in SpineIfaces(t, plane, spine)
  {
    ifaces := [Iface(0, Loopback(plane, SpineLocator(spine)), 128, Main)];
    for l := 0 to t.leaves
      invariant forall i :: i in ifaces <==>
        || i == Iface(0, Loopback(plane, SpineLocator(spine)), 128, Main)
        || exists k :: 0 <= k < l && i == SpineDownlink(t, spine, k)
    {
      var addr := Iface(l + 1, P2p(t, spine, l, 0), 127, Main);
      assert addr == SpineDownlink(t, spine, l);
      ifaces := ifaces + [addr];
    }
  }

  /** The `ip -6 addr add` lines of one host in `write_topology_yaml`. */
  method WriteHostAddrs(t: Topo, tenant: Tenant, host: nat) returns (ifaces: seq<Iface>)
    ensures forall i :: i in ifaces <==> i in HostIfaces(t, tenant, host)
  {
    ifaces := [];
    for p := 0 to t.planes
      invariant forall i :: i in ifaces <==> exists k :: 0 <= k < p && i == HostNic(tenant, host, k)
    {
      var addr := Iface(p + 1, Anycast(tenant, host), 64, Main);
      assert addr == HostNic(tenant, host, p);
      ifaces := ifaces + [addr];
    }
    if tenant.Yellow? { ifaces := ifaces + [Iface(0, Anycast(tenant, host), 128, Main)]; }
    var evs := WriteEvAddrs(t, tenant, host);
    ifaces := ifaces + evs;
  }

  /** The per-EV probe addresses of one host. */
  method WriteEvAddrs(t: Topo, tenant: Tenant, host: nat) returns (ifaces: seq<Iface>)
    ensures forall i :: i in ifaces <==>
      exists p, q :: 0 <= p < t.planes && 0 <= q < t.spines && i == HostEv(tenant, host, p, q)
  {
    ifaces := [];
    for p := 0 to t.planes
      invariant forall i :: i in ifaces <==>
        exists k, q :: 0 <= k < p && 0 <= q < t.spines && i == HostEv(tenant, host, k, q)
    {
      var before := ifaces;
      for path := 0 to t.spines
        invariant forall i :: i in ifaces <==>
          i in before || exists q :: 0 <= q < path && i == HostEv(tenant, host, p, q)
      {
        var addr := Iface(p + 1, EvAddr(tenant, host, p, path), 128, Main);
        assert addr == HostEv(tenant, host, p, path);
        ifaces := ifaces + [addr];
      }
    }
  }

  /** The `ip -6 route add` lines of one host in `write_topology_yaml`. */
  method WriteHostRoutes(t: Topo, tenant: Tenant, host: nat) returns (routes: seq<Entry>)
    ensures forall e :: e in routes <==> e in HostRoutes(t, tenant, host)
  {
    routes := [];
    for p := 0 to t.planes
      invariant forall e :: e in routes <==> exists k :: 0 <= k < p && e == PlaneRoute(tenant, host, k)
    {
      var line := Entry(Prefix(Addr(BLOCK, p, 0, 0, 0, 0, 0, 0), 32), ViaDev(HostAddr(tenant, host, 1), p + 1));
      assert line == PlaneRoute(tenant, host, p);
      routes := routes + [line];
    }
    routes := routes + [TenantRoute(tenant, host)];
    if tenant.Yellow? {
      var before := routes;
      for p := 0 to t.planes
        invariant forall e :: e in routes <==> e in before || exists k :: 0 <= k < p && e == HostUdt(k)
      {
        var line := Entry(Sid(p, UDT_YELLOW), UDT6(Main));
        assert line == HostUdt(p);
        routes := routes + [line];
      }
    }
  }

  /** The `links:` section of `write_topology_yaml`. */
  method WriteLinks(t: Topo) returns (cables: seq<Cable>)
    ensures forall c :: c in cables <==> Wired(t, c)
  {
    var fabric := WriteFabricLinks(t);
    var hosts: seq<Cable> := [];
    for p := 0 to t.planes
      invariant forall c :: c in hosts <==>
        exists k, n, tn :: 0 <= k < p && 0 <= n < t.leaves && c == HostCable(k, n, tn)
    {
      var before := hosts;
      for n := 0 to t.leaves
        invariant forall c :: c in hosts <==> c in before || exists m, tn :: 0 <= m < n && c == HostCable(p, m, tn)
      {
        var green := Cable(End(Leaf(p, n), 9), End(Host(Green, n), p + 1));
        assert green == HostCable(p, n, Green);
        hosts := hosts + [green];
        var yellow := Cable(End(Leaf(p, n), 10), End(Host(Yellow, n), p + 1));
        assert yellow == HostCable(p, n, Yellow);
        hosts := hosts + [yellow];
      }
    }
    cables := fabric + hosts;
  }

  method WriteFabricLinks(t: Topo) returns (cables: seq<Cable>)
    ensures forall c :: c in cables <==>
      exists p, s, l :: 0 <= p < t.planes && 0 <= s < t.spines && 0 <= l < t.leaves && c == FabricCable(p, s, l)
  {
    cables := [];
    for p := 0 to t.planes
      invariant forall c :: c in cables <==>
        exists k, s, l :: 0 <= k < p && 0 <= s < t.spines && 0 <= l < t.leaves && c == FabricCable(k, s, l)
    {
      var before := cables;
      for s := 0 to t.spines
        invariant forall c :: c in cables <==>
          c in before || exists k, l :: 0 <= k < s && 0 <= l < t.leaves && c == FabricCable(p, k, l)
      {
        var row := cables;
        for l := 0 to t.leaves
          invariant forall c :: c in cables <==> c in row || exists k :: 0 <= k < l && c == FabricCable(p, s, k)
        {
          var cable := Cable(End(Leaf(p, l), s + 1), End(Spine(p, s), l + 1));
          assert cable == FabricCable(p, s, l);
          cables := cables + [cable];
        }
      }
    }
  }
}
