/** Which ports of a whole tree a host address is written to, against the path from the targeted port to
    its CPU port. */
module HostPaths {
  import opened Entities
  import opened HostAddresses
  import opened Wrappers

  /** Indices are below the number of ports, links are between DSA ports, and CPU ports are CPU ports. */
  ghost predicate WellFormed(tree: Tree) {
    && Routed(tree) && UniqueIndices(tree.ports)
    && (forall p {:trigger p in tree.ports} :: p in tree.ports ==>
          && p.index < tree.numPorts[p.ds]
          && (p.cpuDp.Some? ==> tree.ports[p.cpuDp.value].kind == Cpu))
    && (forall l {:trigger l in tree.rtable} :: l in tree.rtable ==> tree.ports[l.dp].kind == Dsa)
  }

  /** The targeted port has a CPU port, and so have the DSA ports of its switch, the same one. */
  ghost predicate Targeted(tree: Tree, t: nat) {
    && WellFormed(tree) && t < |tree.ports| && tree.ports[t].cpuDp.Some?
    && forall p {:trigger p in tree.ports} :: p in tree.ports && p.ds == tree.ports[t].ds && p.kind == Dsa ==>
         p.cpuDp == tree.ports[t].cpuDp
  }

  function CpuOf(tree: Tree, t: nat): Port
    requires InTree(tree) && t < |tree.ports| && tree.ports[t].cpuDp.Some?
  {
    assert tree.ports[t] in tree.ports;
    tree.ports[tree.ports[t].cpuDp.value]
  }

  /** The local port of switch d on the way to the CPU port. */
  function TowardsCpu(tree: Tree, t: nat, d: nat): nat
    requires InTree(tree) && t < |tree.ports| && tree.ports[t].cpuDp.Some? && d < |tree.numPorts|
  {
    if d == CpuOf(tree, t).ds then CpuOf(tree, t).index else RoutingPort(tree, d, CpuOf(tree, t).ds)
  }

  /** Switch d is that of the targeted port, or is reached from it through the same port as the CPU's. */
  predicate Behind(tree: Tree, t: nat, d: nat)
    requires InTree(tree) && t < |tree.ports| && tree.ports[t].cpuDp.Some?
  {
    assert tree.ports[t] in tree.ports;
    var s, c := tree.ports[t].ds, CpuOf(tree, t).ds;
    d == s || (s != c && RoutingPort(tree, s, d) == RoutingPort(tree, s, c))
  }

  /** dsa_routing_port gives a port that has a link to the device, or the number of ports. */
  lemma {:induction false} RoutingPortSpec(tree: Tree, ds: nat, device: nat, i: nat)
    requires InTree(tree) && ds < |tree.numPorts|
    ensures RoutingPort(tree, ds, device, i) == tree.numPorts[ds] ||
      exists k :: 0 <= k < |tree.rtable| && tree.rtable[k] in tree.rtable
        && tree.ports[tree.rtable[k].dp].ds == ds
        && tree.ports[tree.rtable[k].dp].index == RoutingPort(tree, ds, device, i)
    decreases |tree.rtable| - i
  {
    if i >= |tree.rtable| {
    } else {
      RoutingPortSpec(tree, ds, device, i + 1);
    }
  }

  /** The port on the way to another switch is a DSA port. */
  lemma RoutingPortIsDsa(tree: Tree, i: nat, j: nat)
    requires WellFormed(tree) && i < |tree.ports| && j < |tree.ports| && tree.ports[i].ds != tree.ports[j].ds
    ensures tree.ports[i] in tree.ports
    ensures var r := ToPort(tree.ports, tree.ports[i].ds, RoutingPort(tree, tree.ports[i].ds, tree.ports[j].ds));
      r.Some? && tree.ports[r.value] in tree.ports && tree.ports[r.value].kind == Dsa
  {
    var ds := tree.ports[i].ds;
    assert tree.ports[i] in tree.ports && tree.ports[j] in tree.ports;
    RoutingPortSpec(tree, ds, tree.ports[j].ds, 0);
    var r := ToPort(tree.ports, ds, RoutingPort(tree, ds, tree.ports[j].ds));
    assert tree.ports[r.value] in tree.ports;
    assert r.value < |tree.ports|;
  }

  /** A port matches if and only if its switch is behind and it is the one on the way to the CPU port. */
  lemma MatchIff(tree: Tree, t: nat, i: nat)
    requires Targeted(tree, t) && i < |tree.ports|
    ensures tree.ports[i] in tree.ports && tree.ports[i].ds < |tree.numPorts|
    ensures HostAddressMatch(tree, i, t) <==>
      Behind(tree, t, tree.ports[i].ds) && tree.ports[i].index == TowardsCpu(tree, t, tree.ports[i].ds)
  {
    var s, d := tree.ports[t].ds, tree.ports[i].ds;
    assert tree.ports[i] in tree.ports && tree.ports[t] in tree.ports;
    if d != s {
      RoutingPortIsDsa(tree, t, i);
      var r := ToPort(tree.ports, s, RoutingPort(tree, s, d)).value;
      assert tree.ports[r].cpuDp == tree.ports[t].cpuDp;
    }
  }

  // ----- the path to the CPU port -----

  ghost predicate HasPort(tree: Tree, d: nat) {
    exists p :: p in tree.ports && p.ds == d
  }

  /** The switches from the targeted port's to the CPU port's, each once; a switch reaches every later one
      through the port on the way to the CPU's. */
  ghost predicate IsPath(tree: Tree, t: nat, path: seq<nat>)
    requires InTree(tree) && t < |tree.ports| && tree.ports[t].cpuDp.Some?
  {
    && path != [] && path[0] == tree.ports[t].ds && path[|path| - 1] == CpuOf(tree, t).ds
    && (forall j, k {:trigger path[j], path[k]} :: 0 <= j < k < |path| ==> path[j] != path[k])
    && (forall k {:trigger path[k]} :: 0 <= k < |path| ==> path[k] < |tree.numPorts| && HasPort(tree, path[k]))
    && (forall j, k {:trigger path[j], path[k]} :: 0 <= j < k < |path| ==>
          RoutingPort(tree, path[j], path[k]) == RoutingPort(tree, path[j], CpuOf(tree, t).ds))
  }

  /** The switches of the path are behind. */
  lemma PathIsBehind(tree: Tree, t: nat, path: seq<nat>, k: nat)
    requires Targeted(tree, t) && IsPath(tree, t, path) && k < |path|
    ensures Behind(tree, t, path[k])
  {
    assert tree.ports[t] in tree.ports;
    if k > 0 {
      assert path[0] != path[|path| - 1];
      assert RoutingPort(tree, path[0], path[k]) == RoutingPort(tree, path[0], CpuOf(tree, t).ds);
    }
  }

  /** A switch that is behind has one matching port: that on the way to the CPU port. */
  lemma BehindHasMatch(tree: Tree, t: nat, d: nat) returns (i: nat)
    requires Targeted(tree, t) && d < |tree.numPorts| && HasPort(tree, d) && Behind(tree, t, d)
    ensures i < |tree.ports| && tree.ports[i].ds == d && tree.ports[i].index == TowardsCpu(tree, t, d)
    ensures HostAddressMatch(tree, i, t)
    ensures forall j: nat {:trigger HostAddressMatch(tree, j, t)} ::
      j < |tree.ports| && tree.ports[j].ds == d && HostAddressMatch(tree, j, t) ==> j == i
  {
    assert tree.ports[t] in tree.ports;
    var p :| p in tree.ports && p.ds == d;
    var a: nat :| a < |tree.ports| && tree.ports[a] == p;
    var c := tree.ports[t].cpuDp.value;
    if d == tree.ports[c].ds {
      i := c;
    } else {
      RoutingPortIsDsa(tree, a, c);
      i := ToPort(tree.ports, d, RoutingPort(tree, d, tree.ports[c].ds)).value;
    }
    MatchIff(tree, t, i);
    OnlyMatch(tree, d, t, i);
  }

  /** No switch off the path is behind. */
  ghost predicate OnlyPathBehind(tree: Tree, t: nat, path: seq<nat>)
    requires InTree(tree) && t < |tree.ports| && tree.ports[t].cpuDp.Some?
  {
    forall p {:trigger p in tree.ports} :: p in tree.ports && p.ds !in path ==> !Behind(tree, t, p.ds)
  }

  /** A host address is written to one port of every switch on the path, the one on the way to the CPU
      port. */
  lemma PathMatches(tree: Tree, t: nat, path: seq<nat>, k: nat) returns (i: nat)
    requires Targeted(tree, t) && IsPath(tree, t, path) && k < |path|
    ensures i < |tree.ports| && tree.ports[i].ds == path[k] && tree.ports[i].index == TowardsCpu(tree, t, path[k])
    ensures HostAddressMatch(tree, i, t)
    ensures forall j: nat {:trigger HostAddressMatch(tree, j, t)} ::
      j < |tree.ports| && tree.ports[j].ds == path[k] && HostAddressMatch(tree, j, t) ==> j == i
  {
    PathIsBehind(tree, t, path, k);
    i := BehindHasMatch(tree, t, path[k]);
  }

  /** And to no other port if and only if no switch off the path is reached through the same port as the
      CPU's switch. */
  lemma MatchesArePathIff(tree: Tree, t: nat, path: seq<nat>)
    requires Targeted(tree, t) && IsPath(tree, t, path)
    ensures (forall i: nat {:trigger HostAddressMatch(tree, i, t)} ::
               i < |tree.ports| && HostAddressMatch(tree, i, t) ==> tree.ports[i].ds in path)
      <==> OnlyPathBehind(tree, t, path)
  {
    forall i: nat | i < |tree.ports| && HostAddressMatch(tree, i, t)
      ensures tree.ports[i] in tree.ports && Behind(tree, t, tree.ports[i].ds)
    {
      MatchIff(tree, t, i);
    }
    forall p | p in tree.ports && Behind(tree, t, p.ds)
      ensures exists i: nat {:trigger HostAddressMatch(tree, i, t)} ::
        i < |tree.ports| && HostAddressMatch(tree, i, t) && tree.ports[i].ds == p.ds
    {
      var i := BehindHasMatch(tree, t, p.ds);
    }
  }

  // ----- a switch behind the CPU's -----

  /** Three switches in a row with the CPU port in the middle one. Ports 0 and 1 are a user port and the
      link of switch 0, ports 2 to 4 a link, the CPU port and a link of switch 1, port 5 is the link of
      switch 2. */
  function Row(): Tree {
    Tree([Port(0, 0, User, Some(3), false, None), Port(0, 1, Dsa, Some(3), false, None),
          Port(1, 0, Dsa, Some(3), false, None), Port(1, 1, Cpu, None, false, None), Port(1, 2, Dsa, Some(3), false, None),
          Port(2, 0, Dsa, Some(3), false, None)],
         [Link(1, 2), Link(1, 5), Link(2, 1), Link(4, 5), Link(5, 4), Link(5, 1)],
         [2, 3, 1])
  }

  lemma RowInTree()
    ensures InTree(Row()) && UniqueIndices(Row().ports)
  {
  }

  /** dsa_routing_port from a position on, one link at a time. */
  lemma RouteStep(tree: Tree, ds: nat, device: nat, i: nat)
    requires InTree(tree) && ds < |tree.numPorts| && i < |tree.rtable| && tree.rtable[i] in tree.rtable
    ensures RoutingPort(tree, ds, device, i) ==
      var l := tree.rtable[i];
      if tree.ports[l.dp].ds == ds && tree.ports[l.linkDp].ds == device then tree.ports[l.dp].index
      else RoutingPort(tree, ds, device, i + 1)
  {
  }

  lemma RowRoutes()
    ensures InTree(Row())
    ensures RoutingPort(Row(), 0, 1) == RoutingPort(Row(), 0, 2) == 1
    ensures RoutingPort(Row(), 1, 0) == 0 && RoutingPort(Row(), 1, 2) == 2
    ensures RoutingPort(Row(), 2, 0) == RoutingPort(Row(), 2, 1) == 0
  {
    RowInTree();
    var tree := Row();
    assert forall k :: 0 <= k < 6 ==> tree.rtable[k] in tree.rtable;
    hide RoutingPort, InTree;
    RouteStep(tree, 0, 1, 0);
    RouteStep(tree, 0, 2, 0);
    RouteStep(tree, 0, 2, 1);
    forall k | 0 <= k < 3 {
      RouteStep(tree, 1, 0, k);
    }
    forall k | 0 <= k < 4 {
      RouteStep(tree, 1, 2, k);
    }
    forall k | 0 <= k < 5 {
      RouteStep(tree, 2, 1, k);
    }
    forall k | 0 <= k < 6 {
      RouteStep(tree, 2, 0, k);
    }
  }

  lemma ToPortFinds(ports: seq<Port>, k: nat)
    requires k < |ports|
    ensures ToPort(ports, ports[k].ds, ports[k].index).Some?
  {
  }

  lemma RowRouted()
    ensures Routed(Row())
  {
    hide RoutingPort, ToPort;
    RowRoutes();
    var tree := Row();
    forall i, j | 0 <= i < |tree.ports| && 0 <= j < |tree.ports| && tree.ports[i].ds != tree.ports[j].ds
      ensures tree.ports[i] in tree.ports && tree.ports[j] in tree.ports
      ensures ToPort(tree.ports, tree.ports[i].ds, RoutingPort(tree, tree.ports[i].ds, tree.ports[j].ds)).Some?
    {
      ToPortFinds(tree.ports, if tree.ports[i].ds == 0 then 1 else if tree.ports[i].ds == 2 then 5
                              else if tree.ports[j].ds == 0 then 2 else 4);
    }
    hide InTree;
  }

  lemma RowTargeted()
    ensures Targeted(Row(), 0)
  {
    RowInTree();
    RowRouted();
    hide Routed, InTree, UniqueIndices;
  }

  lemma RowPath()
    ensures InTree(Row()) && IsPath(Row(), 0, [0, 1])
  {
    hide RoutingPort;
    RowRoutes();
    var tree, path := Row(), [0, 1];
    assert tree.ports[0] in tree.ports && tree.ports[2] in tree.ports;
    assert HasPort(tree, 0) && HasPort(tree, 1);
    assert CpuOf(tree, 0).ds == 1;
    hide InTree, HasPort, CpuOf;
  }

  lemma RowBehind()
    ensures InTree(Row()) && Behind(Row(), 0, 2) && TowardsCpu(Row(), 0, 2) == 0
  {
    hide RoutingPort;
    RowRoutes();
    assert CpuOf(Row(), 0) == Port(1, 1, Cpu, None, false, None);
    hide InTree, CpuOf;
  }

  /** The address for port 0 is written on switch 2 as well, which is not on the path from switch 0 to
      switch 1. */
  lemma OffPathMatches()
    ensures Targeted(Row(), 0) && IsPath(Row(), 0, [0, 1]) && HostAddressMatch(Row(), 5, 0) && Row().ports[5].ds == 2
  {
    hide RoutingPort, InTree, Behind, TowardsCpu, IsPath;
    RowTargeted();
    RowPath();
    RowBehind();
    MatchIff(Row(), 0, 5);
  }
}
