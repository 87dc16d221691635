/** Host addresses: an address that the host wants to receive on a user port is written to the ports
    that lead from that port to its CPU port. */
module HostAddresses {
  import opened Entities
  import opened RefDb
  import opened Wrappers

  /** A port, with its switch and its CPU port given by position. */
  datatype Port = Port(ds: nat, index: nat, kind: PortType, cpuDp: Option<nat>, cpuPortInLag: bool, lag: Option<nat>)

  datatype Link = Link(dp: nat, linkDp: nat)

  /** `numPorts[ds]` is ds->num_ports; a switch's index in the tree is its position. */
  datatype Tree = Tree(ports: seq<Port>, rtable: seq<Link>, numPorts: seq<nat>)

  // ----- routing -----

  /** dsa_to_port */
  function ToPort(ports: seq<Port>, ds: nat, index: nat): (r: Option<nat>)
    ensures r.Some? ==> r.value < |ports| && ports[r.value].ds == ds && ports[r.value].index == index
    ensures r.None? ==> forall i {:trigger ports[i]} :: 0 <= i < |ports| ==> ports[i].ds != ds || ports[i].index != index
  {
    if ports == [] then None
    else if ports[0].ds == ds && ports[0].index == index then Some(0)
    else match ToPort(ports[1..], ds, index)
         case None => None
         case Some(i) => Some(i + 1)
  }

  predicate InTree(tree: Tree) {
    && (forall p {:trigger p in tree.ports} :: p in tree.ports ==>
          p.ds < |tree.numPorts| && (p.cpuDp.Some? ==> p.cpuDp.value < |tree.ports|))
    && (forall l {:trigger l in tree.rtable} :: l in tree.rtable ==> l.dp < |tree.ports| && l.linkDp < |tree.ports|)
  }

  /** dsa_routing_port, over the links from position i on. */
  function RoutingPort(tree: Tree, ds: nat, device: nat, i: nat := 0): nat
    requires InTree(tree) && ds < |tree.numPorts|
    decreases |tree.rtable| - i
  {
    if i >= |tree.rtable| then tree.numPorts[ds]
    else
      var l := tree.rtable[i];
      assert l in tree.rtable;
      if tree.ports[l.dp].ds == ds && tree.ports[l.linkDp].ds == device then tree.ports[l.dp].index
      else RoutingPort(tree, ds, device, i + 1)
  }

  /** Link k of the routing table is from switch ds to switch device. */
  ghost predicate Leads(tree: Tree, k: nat, ds: nat, device: nat)
    requires InTree(tree) && k < |tree.rtable|
  {
    assert tree.rtable[k] in tree.rtable;
    tree.ports[tree.rtable[k].dp].ds == ds && tree.ports[tree.rtable[k].linkDp].ds == device
  }

  /** The port of the first such link, or, if there is none, the number of ports. */
  lemma {:induction false} RoutingPortGives(tree: Tree, ds: nat, device: nat, i: nat)
    requires InTree(tree) && ds < |tree.numPorts| && i <= |tree.rtable|
    ensures (forall k: nat :: i <= k < |tree.rtable| ==> !Leads(tree, k, ds, device)) ==>
      RoutingPort(tree, ds, device, i) == tree.numPorts[ds]
    ensures forall k: nat {:trigger Leads(tree, k, ds, device)} ::
      i <= k < |tree.rtable| && Leads(tree, k, ds, device)
      && (forall j: nat {:trigger Leads(tree, j, ds, device)} :: i <= j < k ==> !Leads(tree, j, ds, device)) ==>
        tree.rtable[k] in tree.rtable && RoutingPort(tree, ds, device, i) == tree.ports[tree.rtable[k].dp].index
    decreases |tree.rtable| - i
  {
    if i == |tree.rtable| {
    } else {
      RoutingPortGives(tree, ds, device, i + 1);
      assert Leads(tree, i, ds, device) || !Leads(tree, i, ds, device);
    }
  }

  /** dsa_towards_port */
  function TowardsPort(tree: Tree, ds: nat, device: nat, port: nat): nat
    requires InTree(tree) && ds < |tree.numPorts|
  {
    if device == ds then port else RoutingPort(tree, ds, device)
  }

  /** Every switch has a route to every other: the port that dsa_routing_port returns exists. */
  predicate Routed(tree: Tree) {
    InTree(tree) &&
    forall i, j {:trigger tree.ports[i], tree.ports[j]} :: 0 <= i < |tree.ports| && 0 <= j < |tree.ports| ==>
      assert tree.ports[i] in tree.ports && tree.ports[j] in tree.ports;
      tree.ports[i].ds != tree.ports[j].ds ==>
        ToPort(tree.ports, tree.ports[i].ds, RoutingPort(tree, tree.ports[i].ds, tree.ports[j].ds)).Some?
  }

  /** dsa_is_upstream_port */
  predicate IsUpstreamPort(tree: Tree, ds: nat, port: nat)
    requires InTree(tree) && ds < |tree.numPorts| && ToPort(tree.ports, ds, port).Some?
  {
    var dp := tree.ports[ToPort(tree.ports, ds, port).value];
    assert dp in tree.ports;
    dp.kind != Unused &&
    port == if dp.cpuDp.None? then port
            else var cpu := tree.ports[dp.cpuDp.value]; TowardsPort(tree, ds, cpu.ds, cpu.index)
  }

  /** A port that is not in use is none; one without a CPU port leads to itself; any other is the port on the way
      to its CPU port or not. */
  lemma UpstreamPortIff(tree: Tree, ds: nat, port: nat)
    requires InTree(tree) && ds < |tree.numPorts| && ToPort(tree.ports, ds, port).Some?
    ensures var dp := tree.ports[ToPort(tree.ports, ds, port).value];
      && dp in tree.ports
      && (IsUpstreamPort(tree, ds, port) <==>
            && (dp.kind == Cpu || dp.kind == Dsa || dp.kind == User)
            && (dp.cpuDp.Some? ==>
                  var cpu := tree.ports[dp.cpuDp.value];
                  port == if cpu.ds == ds then cpu.index else RoutingPort(tree, ds, cpu.ds)))
  {
    assert tree.ports[ToPort(tree.ports, ds, port).value] in tree.ports;
  }

  /** dsa_port_host_address_match: port i is on the way from the targeted port t to its CPU port. */
  predicate HostAddressMatch(tree: Tree, i: nat, t: nat)
    requires Routed(tree) && i < |tree.ports| && t < |tree.ports| && tree.ports[t].cpuDp.Some?
  {
    var dp, target := tree.ports[i], tree.ports[t];
    assert dp in tree.ports && target in tree.ports;
    var cpu := tree.ports[target.cpuDp.value];
    && (dp.ds == target.ds || IsUpstreamPort(tree, target.ds, RoutingPort(tree, target.ds, dp.ds)))
    && dp.index == TowardsPort(tree, dp.ds, cpu.ds, cpu.index)
  }

  // ----- port indices are unique in each switch -----

  predicate UniqueIndices(ports: seq<Port>) {
    forall i, j {:trigger ports[i], ports[j]} :: 0 <= i < j < |ports| ==>
      ports[i].ds != ports[j].ds || ports[i].index != ports[j].index
  }

  /** dsa_port_touch: the port with this index, or a new one at the end of the list. */
  function PortTouch(ports: seq<Port>, ds: nat, index: nat, allocOk: bool): (seq<Port>, Option<nat>) {
    var found := ToPort(ports, ds, index);
    if found.Some? then (ports, found)
    else if !allocOk then (ports, None)
    else (ports + [Port(ds, index, Unused, None, false, None)], Some(|ports|))
  }

  function PortTouches(ports: seq<Port>, calls: seq<(nat, nat, bool)>): seq<Port>
    decreases |calls|
  {
    if calls == [] then ports
    else PortTouches(PortTouch(ports, calls[0].0, calls[0].1, calls[0].2).0, calls[1..])
  }

  /** What a touch gives: the port of the switch that has the index, or, if there is none and memory for one, a
      new port at the end of the list, of no kind yet; the ports there were stay as they are. */
  lemma TouchGives(ports: seq<Port>, ds: nat, index: nat, allocOk: bool)
    ensures var (ports', r) := PortTouch(ports, ds, index, allocOk);
      var known := exists i {:trigger ports[i]} :: 0 <= i < |ports| && ports[i].ds == ds && ports[i].index == index;
      && (r.Some? <==> known || allocOk)
      && (r.Some? ==> r.value < |ports'| && ports'[r.value].ds == ds && ports'[r.value].index == index)
      && ports' == if known || !allocOk then ports else ports + [Port(ds, index, Unused, None, false, None)]
  {
    hide ToPort;
  }

  /** However a tree's ports are touched, no switch gets two ports with one index. */
  lemma {:induction false} TouchedIndicesAreUnique(ports: seq<Port>, calls: seq<(nat, nat, bool)>)
    requires UniqueIndices(ports)
    ensures UniqueIndices(PortTouches(ports, calls))
    decreases |calls|
  {
    if calls == [] {
    } else {
      var next := PortTouch(ports, calls[0].0, calls[0].1, calls[0].2).0;
      assert forall i {:trigger next[i]} :: 0 <= i < |ports| ==> next[i] == ports[i];
      TouchedIndicesAreUnique(next, calls[1..]);
    }
  }

  // ----- host add and delete on one switch -----

  datatype ListKind = FdbList | MdbList

  /** The list an address is written to: a port's own, or, for an FDB entry, that of the LAG its CPU port
      is in. */
  datatype Slot = PortSlot(port: nat) | LagSlot(lag: nat)

  predicate ToLag(tree: Tree, kind: ListKind, i: nat, t: nat)
    requires i < |tree.ports| && t < |tree.ports|
  {
    kind == FdbList && tree.ports[i].kind == Cpu && tree.ports[t].cpuPortInLag
  }

  function SlotOf(tree: Tree, kind: ListKind, i: nat, t: nat): Slot
    requires i < |tree.ports| && t < |tree.ports|
  {
    if ToLag(tree, kind, i, t) && tree.ports[i].lag.Some? then LagSlot(tree.ports[i].lag.value) else PortSlot(i)
  }

  predicate Shared(tree: Tree, i: nat)
    requires i < |tree.ports|
  {
    tree.ports[i].kind == Cpu || tree.ports[i].kind == Dsa
  }

  function PortStep<K(==)>(shared: bool, db: Db<K>, op: Op<K>): (Db<K>, Error) {
    match op
    case Add(key, changed, allocOk, hwOk) => DoAdd(shared, db, key, changed, allocOk, hwOk)
    case Del(key, hwOk) => DoDel(shared, db, key, hwOk)
  }

  function StepAt<K(==)>(tree: Tree, kind: ListKind, lists: map<Slot, Db<K>>, i: nat, t: nat, op: Op<K>): (Db<K>, Error)
    requires i < |tree.ports| && t < |tree.ports| && SlotOf(tree, kind, i, t) in lists
  {
    PortStep(Shared(tree, i), lists[SlotOf(tree, kind, i, t)], op)
  }

  /** A port that is to use its LAG's list is in a LAG, and every list exists. */
  ghost predicate Hosts<K>(tree: Tree, kind: ListKind, lists: map<Slot, Db<K>>, t: nat) {
    && Routed(tree) && t < |tree.ports| && tree.ports[t].cpuDp.Some?
    && (forall i: nat {:trigger SlotOf(tree, kind, i, t)} :: i < |tree.ports| ==> SlotOf(tree, kind, i, t) in lists)
    && (forall i: nat {:trigger ToLag(tree, kind, i, t)} ::
          i < |tree.ports| && HostAddressMatch(tree, i, t) && ToLag(tree, kind, i, t) ==> tree.ports[i].lag.Some?)
  }

  /** dsa_switch_host_{fdb,mdb}_{add,del} on switch `ds`, over the ports from position i on. */
  ghost function HostEvent<K>(tree: Tree, kind: ListKind, lists: map<Slot, Db<K>>, ds: nat, t: nat, op: Op<K>, i: nat := 0)
    : (map<Slot, Db<K>>, Error)
    requires Hosts(tree, kind, lists, t)
    decreases |tree.ports| - i
  {
    if i >= |tree.ports| then (lists, Ok)
    else if tree.ports[i].ds == ds && HostAddressMatch(tree, i, t) then
      var (db, err) := StepAt(tree, kind, lists, i, t, op);
      var lists := lists[SlotOf(tree, kind, i, t) := db];
      if err != Ok then (lists, err) else HostEvent(tree, kind, lists, ds, t, op, i + 1)
    else HostEvent(tree, kind, lists, ds, t, op, i + 1)
  }

  /** Of the ports of one switch, at most one matches a host address event. */
  lemma AtMostOneMatch(tree: Tree, t: nat, i: nat, j: nat)
    requires Routed(tree) && UniqueIndices(tree.ports)
    requires i < |tree.ports| && j < |tree.ports| && t < |tree.ports| && tree.ports[t].cpuDp.Some?
    requires tree.ports[i].ds == tree.ports[j].ds && HostAddressMatch(tree, i, t) && HostAddressMatch(tree, j, t)
    ensures i == j
  {
  }

  /** So an event changes nothing beyond the port that matched. */
  lemma {:induction false} NoMatchNoChange<K>(tree: Tree, kind: ListKind, lists: map<Slot, Db<K>>, ds: nat, t: nat,
                                              op: Op<K>, i: nat)
    requires Hosts(tree, kind, lists, t)
    requires forall j: nat {:trigger HostAddressMatch(tree, j, t)} ::
      i <= j < |tree.ports| && tree.ports[j].ds == ds ==> !HostAddressMatch(tree, j, t)
    ensures HostEvent(tree, kind, lists, ds, t, op, i) == (lists, Ok)
    decreases |tree.ports| - i
  {
    if i >= |tree.ports| {
    } else {
      NoMatchNoChange(tree, kind, lists, ds, t, op, i + 1);
    }
  }

  /** Port m is then the one port of its switch that matches. */
  lemma OnlyMatch(tree: Tree, ds: nat, t: nat, m: nat)
    requires Routed(tree) && UniqueIndices(tree.ports) && t < |tree.ports| && tree.ports[t].cpuDp.Some?
    requires m < |tree.ports| && tree.ports[m].ds == ds && HostAddressMatch(tree, m, t)
    ensures forall j: nat {:trigger HostAddressMatch(tree, j, t)} ::
      j < |tree.ports| && tree.ports[j].ds == ds && HostAddressMatch(tree, j, t) ==> j == m
  {
    forall j: nat | j < |tree.ports| && tree.ports[j].ds == ds && HostAddressMatch(tree, j, t)
      ensures j == m
    {
      AtMostOneMatch(tree, t, j, m);
    }
  }

  lemma {:induction false} OnlyMatchSteps<K(!new)>(tree: Tree, kind: ListKind, lists: map<Slot, Db<K>>, ds: nat, t: nat,
                                                   op: Op<K>, m: nat, i: nat)
    requires Hosts(tree, kind, lists, t) && i <= m < |tree.ports|
    requires tree.ports[m].ds == ds && HostAddressMatch(tree, m, t)
    requires forall j: nat {:trigger HostAddressMatch(tree, j, t)} ::
      j < |tree.ports| && tree.ports[j].ds == ds && HostAddressMatch(tree, j, t) ==> j == m
    ensures var (db, err) := StepAt(tree, kind, lists, m, t, op);
      HostEvent(tree, kind, lists, ds, t, op, i) == (lists[SlotOf(tree, kind, m, t) := db], err)
    decreases |tree.ports| - i
  {
    hide HostAddressMatch, Routed, ToLag, SlotOf, StepAt;
    if i < m {
      OnlyMatchSteps(tree, kind, lists, ds, t, op, m, i + 1);
    } else {
      var (db, err) := StepAt(tree, kind, lists, m, t, op);
      NoMatchNoChange(tree, kind, lists[SlotOf(tree, kind, m, t) := db], ds, t, op, m + 1);
    }
  }

  lemma EventFrom<K(!new)>(tree: Tree, kind: ListKind, lists: map<Slot, Db<K>>, ds: nat, t: nat, op: Op<K>, m: nat)
    requires Hosts(tree, kind, lists, t) && UniqueIndices(tree.ports)
    requires m < |tree.ports| && tree.ports[m].ds == ds && HostAddressMatch(tree, m, t)
    ensures var (db, err) := StepAt(tree, kind, lists, m, t, op);
      HostEvent(tree, kind, lists, ds, t, op) == (lists[SlotOf(tree, kind, m, t) := db], err)
  {
    OnlyMatch(tree, ds, t, m);
    hide HostAddressMatch, HostEvent, StepAt;
    OnlyMatchSteps(tree, kind, lists, ds, t, op, m, 0);
  }

  /** Where an event goes. An FDB entry for which the CPU port matches, of a port whose CPU port stands for a
      LAG, goes to that LAG's list and nowhere else. Any other entry goes to the list of the matching port and
      nowhere else. These lists count, but for that of a user port. */
  lemma EventGoesTo<K(!new)>(tree: Tree, kind: ListKind, lists: map<Slot, Db<K>>, ds: nat, t: nat, op: Op<K>, m: nat)
    requires Hosts(tree, kind, lists, t) && UniqueIndices(tree.ports)
    requires m < |tree.ports| && tree.ports[m].ds == ds && HostAddressMatch(tree, m, t)
    ensures var forLag := kind == FdbList && tree.ports[m].kind == Cpu && tree.ports[t].cpuPortInLag;
      && (forLag ==> tree.ports[m].lag.Some?)
      && var s := if forLag then LagSlot(tree.ports[m].lag.value) else PortSlot(m);
         && s in lists
         && var counts := tree.ports[m].kind == Cpu || tree.ports[m].kind == Dsa;
            var (db, err) := if counts then Step(lists[s], op) else UserStep(lists[s], op);
            HostEvent(tree, kind, lists, ds, t, op) == (lists[s := db], err)
  {
    EventFrom(tree, kind, lists, ds, t, op, m);
    assert SlotOf(tree, kind, m, t) in lists && (ToLag(tree, kind, m, t) ==> tree.ports[m].lag.Some?);
    hide HostEvent, HostAddressMatch, Routed, DoAdd, DoDel;
  }

  /** The lists of LAGs and of CPU and DSA ports are valid. Those of user ports, which do not count, need
      not be. */
  ghost predicate ListsValid<K(!new)>(tree: Tree, lists: map<Slot, Db<K>>) {
    forall s {:trigger lists[s]} :: s in lists && (s.PortSlot? ==> s.port < |tree.ports| && Shared(tree, s.port)) ==>
      RefDb.Valid(lists[s])
  }

  /** A host add or delete on a switch is one step on the list of the one port that matches, or nothing
      at all; if it fails it changed nothing, and in any case counted lists stay valid. */
  lemma HostEventIsAllOrNothing<K(!new)>(tree: Tree, kind: ListKind, lists: map<Slot, Db<K>>, ds: nat, t: nat, op: Op<K>)
    requires Hosts(tree, kind, lists, t) && UniqueIndices(tree.ports)
    requires ListsValid(tree, lists)
    ensures var (lists', err) := HostEvent(tree, kind, lists, ds, t, op);
      && (err != Ok ==> lists' == lists)
      && ListsValid(tree, lists')
      && ((lists', err) == (lists, Ok) ||
          exists m: nat :: m < |tree.ports| && tree.ports[m].ds == ds && HostAddressMatch(tree, m, t)
            && lists' == lists[SlotOf(tree, kind, m, t) := StepAt(tree, kind, lists, m, t, op).0]
            && err == StepAt(tree, kind, lists, m, t, op).1)
  {
    if m: nat :| m < |tree.ports| && tree.ports[m].ds == ds && HostAddressMatch(tree, m, t) {
      EventFrom(tree, kind, lists, ds, t, op, m);
      hide HostAddressMatch, HostEvent, Hosts;
      var slot := SlotOf(tree, kind, m, t);
      PortStepKeepsValid(Shared(tree, m), lists[slot], op);
      hide RefDb.Valid, PortStep;
      FailedStepChangesNothing(Shared(tree, m), lists[slot], op);
      assert lists[slot := lists[slot]] == lists;
    } else {
      NoMatchNoChange(tree, kind, lists, ds, t, op, 0);
    }
  }

  lemma PortStepKeepsValid<K(!new)>(shared: bool, db: Db<K>, op: Op<K>)
    requires shared ==> RefDb.Valid(db)
    ensures shared ==> RefDb.Valid(PortStep(shared, db, op).0)
  {
    if shared {
      StepKeepsValid(db, op);
    }
  }

  lemma FailedStepChangesNothing<K(!new)>(shared: bool, db: Db<K>, op: Op<K>)
    requires shared ==> RefDb.Valid(db)
    ensures PortStep(shared, db, op).1 != Ok ==> PortStep(shared, db, op).0 == db
  {
  }

  // ----- a tree of one switch -----

  /** One switch, no CPU port in a LAG, every user port with a CPU port. */
  ghost predicate OneSwitch(tree: Tree) {
    && Routed(tree) && UniqueIndices(tree.ports)
    && forall p {:trigger p in tree.ports} :: p in tree.ports ==>
         && p.ds == 0 && !p.cpuPortInLag
         && (p.kind == User ==> p.cpuDp.Some?)
         && (p.cpuDp.Some? ==> tree.ports[p.cpuDp.value].kind == Cpu)
  }

  /** Every port has its list. */
  ghost predicate HasLists<K>(tree: Tree, lists: map<Slot, Db<K>>) {
    forall i: nat {:trigger PortSlot(i)} :: i < |tree.ports| ==> PortSlot(i) in lists
  }

  datatype HostCall<K> = HostCall(t: nat, op: Op<K>)

  ghost predicate FromUsers<K>(tree: Tree, calls: seq<HostCall<K>>) {
    forall i {:trigger calls[i]} :: 0 <= i < |calls| ==>
      calls[i].t < |tree.ports| && tree.ports[calls[i].t].kind == User
  }

  lemma OneSwitchEvent<K(!new)>(tree: Tree, kind: ListKind, lists: map<Slot, Db<K>>, t: nat, op: Op<K>)
    requires OneSwitch(tree) && HasLists(tree, lists) && t < |tree.ports| && tree.ports[t].kind == User
    ensures tree.ports[t] in tree.ports && tree.ports[t].cpuDp.Some? && Hosts(tree, kind, lists, t)
    ensures var c := tree.ports[t].cpuDp.value;
      var (db, err) := Step(lists[PortSlot(c)], op);
      && c < |tree.ports| && tree.ports[c].kind == Cpu
      && HostEvent(tree, kind, lists, 0, t, op) == (lists[PortSlot(c) := db], err)
  {
    assert tree.ports[t] in tree.ports;
    forall i: nat | i < |tree.ports|
      ensures tree.ports[i].ds == 0 && SlotOf(tree, kind, i, t) == PortSlot(i)
    {
      assert tree.ports[i] in tree.ports;
    }
    hide RoutingPort, IsUpstreamPort;
    EventFrom(tree, kind, lists, 0, t, op, tree.ports[t].cpuDp.value);
  }

  /** A run of host adds and deletes of user ports. */
  ghost function HostRun<K(!new)>(tree: Tree, kind: ListKind, lists: map<Slot, Db<K>>, calls: seq<HostCall<K>>)
    : (r: (map<Slot, Db<K>>, seq<Error>))
    requires OneSwitch(tree) && HasLists(tree, lists) && FromUsers(tree, calls)
    ensures HasLists(tree, r.0) && |r.1| == |calls|
    decreases |calls|
  {
    if calls == [] then (lists, [])
    else
      OneSwitchEvent(tree, kind, lists, calls[0].t, calls[0].op);
      var (next, err) := HostEvent(tree, kind, lists, 0, calls[0].t, calls[0].op);
      var (end, errs) := HostRun(tree, kind, next, calls[1..]);
      (end, [err] + errs)
  }

  /** Outstanding host adds of a key over all user ports whose CPU port is c. */
  function Outstanding<K(==)>(tree: Tree, calls: seq<HostCall<K>>, errs: seq<Error>, c: nat, key: K): int
    requires |errs| == |calls|
  {
    if calls == [] then 0
    else
      var call := calls[0];
      (if call.t < |tree.ports| && tree.ports[call.t].cpuDp == Some(c) then Balance([call.op], [errs[0]], key) else 0)
      + Outstanding(tree, calls[1..], errs[1..], c, key)
  }

  lemma BagStepBalance<K>(m: multiset<K>, op: Op<K>, key: K)
    ensures BagStep(m, op).0[key] == m[key] + Balance([op], [BagStep(m, op).1], key)
  {
  }

  lemma {:induction false} HostRunFrom<K(!new)>(tree: Tree, kind: ListKind, lists: map<Slot, Db<K>>,
                                                calls: seq<HostCall<K>>, c: nat, key: K, m: multiset<K>)
    requires OneSwitch(tree) && HasLists(tree, lists) && FromUsers(tree, calls) && c < |tree.ports|
    requires Represents(lists[PortSlot(c)], m)
    ensures var (end, errs) := HostRun(tree, kind, lists, calls);
      && RefDb.Valid(end[PortSlot(c)])
      && Count(end[PortSlot(c)].entries, key) == m[key] + Outstanding(tree, calls, errs, c, key)
    decreases |calls|
  {
    if calls == [] {
      assert m[key] == Count(lists[PortSlot(c)].entries, key);
    } else {
      var t, op := calls[0].t, calls[0].op;
      OneSwitchEvent(tree, kind, lists, t, op);
      var (next, err) := HostEvent(tree, kind, lists, 0, t, op);
      hide OneSwitch, HostEvent, Represents, Step, BagStep, Balance;
      if tree.ports[t].cpuDp == Some(c) {
        StepRefinesBag(lists[PortSlot(c)], m, op);
        BagStepBalance(m, op, key);
        HostRunFrom(tree, kind, next, calls[1..], c, key, BagStep(m, op).0);
      } else {
        HostRunFrom(tree, kind, next, calls[1..], c, key, m);
      }
    }
  }

  /** In a tree of one switch, starting from empty lists, a CPU port's count for a key is the number of
      outstanding host adds of that key over the user ports it serves, whatever failed on the way. */
  lemma CpuCountIsOutstanding<K(!new)>(tree: Tree, kind: ListKind, lists: map<Slot, Db<K>>, calls: seq<HostCall<K>>,
                                       c: nat, key: K)
    requires OneSwitch(tree) && HasLists(tree, lists) && FromUsers(tree, calls) && c < |tree.ports|
    requires lists[PortSlot(c)] == Db([], {})
    ensures var (end, errs) := HostRun(tree, kind, lists, calls);
      && RefDb.Valid(end[PortSlot(c)])
      && Count(end[PortSlot(c)].entries, key) == Outstanding(tree, calls, errs, c, key)
  {
    HostRunFrom(tree, kind, lists, calls, c, key, multiset{});
  }

  // ----- the loop in its own form -----

  class HostLists<K(==)> {
    var lists: map<Slot, Db<K>>

    constructor (lists: map<Slot, Db<K>>)
      ensures this.lists == lists
    {
      this.lists := lists;
    }

    /** dsa_switch_host_{fdb,mdb}_{add,del} */
    method HostCall(tree: Tree, kind: ListKind, ds: nat, t: nat, op: Op<K>) returns (err: Error)
      requires Hosts(tree, kind, lists, t)
      modifies this
      ensures (lists, err) == HostEvent(tree, kind, old(lists), ds, t, op)
    {
      err := Ok;
      for i := 0 to |tree.ports|
        invariant Hosts(tree, kind, lists, t) && err == Ok
        invariant HostEvent(tree, kind, old(lists), ds, t, op) == HostEvent(tree, kind, lists, ds, t, op, i)
      {
        if tree.ports[i].ds == ds && HostAddressMatch(tree, i, t) {
          var (db, e) := StepAt(tree, kind, lists, i, t, op);
          lists, err := lists[SlotOf(tree, kind, i, t) := db], e;
          if err != Ok {
            break;
          }
        }
      }
    }
  }
}
