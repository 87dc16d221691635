/** One MTU for the ports of a hardware bridge, set device by device and rolled back in reverse. */
module Mtu {
  import opened Wrappers

  const ETH_MAX_MTU := 65535

  class Device {
    var mtu: int

    constructor (mtu: int)
      ensures this.mtu == mtu
    {
      this.mtu := mtu;
    }
  }

  /** A device of the list, with the MTU to restore. */
  datatype HwPort = HwPort(dev: Device, oldMtu: int)

  /** What dsa_bridge_mtu_normalization looks at in a port; enforces is its switch's
      mtu_enforcement_ingress. */
  datatype Port = Port(user: Device, isUser: bool, enforces: bool, bridge: Option<nat>)

  ghost predicate Distinct(list: seq<HwPort>) {
    forall i, j {:trigger list[i], list[j]} :: 0 <= i < j < |list| ==> list[i].dev != list[j].dev
  }

  ghost function Devices(list: seq<HwPort>): set<Device> {
    set p | p in list :: p.dev
  }

  /** The ports whose MTU normalization for dp sets: user ports on its bridge, of enforcing switches. */
  predicate Included(dp: Port, other: Port) {
    other.isUser && dp.bridge != None && other.bridge == dp.bridge && other.enforces
  }

  lemma IncludedIff(dp: Port, p: Port)
    ensures Included(dp, p) <==>
      p.isUser && p.enforces && exists br {:trigger Some(br)} :: p.bridge == dp.bridge == Some(br)
  {
    assert dp.bridge != None ==> dp.bridge == Some(dp.bridge.value);
  }

  ghost function Users(ports: seq<Port>): set<Device> {
    set p | p in ports :: p.user
  }

  ghost function Members(dp: Port, ports: seq<Port>): set<Device> {
    set p | p in ports && Included(dp, p) :: p.user
  }

  ghost predicate AllAt(mtu: int, dp: Port, ports: seq<Port>)
    reads Users(ports)`mtu
  {
    forall p :: p in ports && Included(dp, p) ==> p.user.mtu == mtu
  }

  ghost predicate AllHave(list: seq<HwPort>, mtu: int)
    reads Devices(list)`mtu
  {
    forall i {:trigger list[i]} :: 0 <= i < |list| ==> list[i].dev.mtu == mtu
  }

  ghost predicate AllOld(list: seq<HwPort>)
    reads Devices(list)`mtu
  {
    forall i {:trigger list[i]} :: 0 <= i < |list| ==> list[i].dev.mtu == list[i].oldMtu
  }

  /** Normalization gets as far as to set MTUs: on an enforcing switch, for a port on a bridge, if there is
      memory for the list. */
  ghost predicate Normalizes(dp: Port, ports: seq<Port>, allocOk: nat -> bool) {
    && dp.enforces && dp.bridge != None
    && forall i: nat {:trigger allocOk(i)} :: i < |ports| && Included(dp, ports[i]) ==> allocOk(i)
  }

  /** The list for the first n ports: in reverse order. */
  ghost function Listed(dp: Port, ports: seq<Port>, n: nat): seq<HwPort>
    requires n <= |ports|
    reads Users(ports)`mtu
  {
    if n == 0 then []
    else if Included(dp, ports[n - 1]) then [HwPort(ports[n - 1].user, ports[n - 1].user.mtu)] + Listed(dp, ports, n - 1)
    else Listed(dp, ports, n - 1)
  }

  lemma {:induction false} ListedSpec(dp: Port, ports: seq<Port>, n: nat)
    requires n <= |ports|
    requires forall i, j {:trigger ports[i], ports[j]} :: 0 <= i < j < |ports| ==> ports[i].user != ports[j].user
    ensures forall k :: 0 <= k < n && Included(dp, ports[k]) ==>
      HwPort(ports[k].user, ports[k].user.mtu) in Listed(dp, ports, n)
    ensures forall h :: h in Listed(dp, ports, n) ==>
      exists k :: 0 <= k < n && Included(dp, ports[k]) && h == HwPort(ports[k].user, ports[k].user.mtu)
    ensures Distinct(Listed(dp, ports, n))
  {
    if n == 0 {
    } else {
      ListedSpec(dp, ports, n - 1);
      var rest := Listed(dp, ports, n - 1);
      forall j | 0 <= j < |rest|
        ensures rest[j].dev != ports[n - 1].user
      {
        assert rest[j] in rest;
      }
    }
  }

  /** Ports later in the tree come first: an included port is listed right before all the earlier ones. */
  lemma {:induction false} ListedLaterFirst(dp: Port, ports: seq<Port>, n: nat, k: nat)
    requires k < n <= |ports| && Included(dp, ports[k])
    ensures var list, earlier := Listed(dp, ports, n), Listed(dp, ports, k);
      && |list| > |earlier| && list[|list| - |earlier|..] == earlier
      && list[|list| - |earlier| - 1] == HwPort(ports[k].user, ports[k].user.mtu)
  {
    if n == k + 1 {
    } else {
      ListedLaterFirst(dp, ports, n - 1, k);
    }
  }

  /** The list has the devices of the included ports. */
  lemma ListedDevices(dp: Port, ports: seq<Port>)
    requires forall i, j {:trigger ports[i], ports[j]} :: 0 <= i < j < |ports| ==> ports[i].user != ports[j].user
    ensures var list := Listed(dp, ports, |ports|);
      Devices(list) == Members(dp, ports) && AllOld(list) && Distinct(list)
  {
    ListedSpec(dp, ports, |ports|);
    var list := Listed(dp, ports, |ports|);
    hide Listed, Included;
    forall h | h in list
      ensures h.dev in Members(dp, ports) && h.dev.mtu == h.oldMtu
    {
      var k :| 0 <= k < |ports| && Included(dp, ports[k]) && h == HwPort(ports[k].user, ports[k].user.mtu);
      assert ports[k] in ports;
    }
    forall p | p in ports && Included(dp, p)
      ensures p.user in Devices(list)
    {
      assert HwPort(p.user, p.user.mtu) in list;
    }
    assert forall i {:trigger list[i]} :: 0 <= i < |list| ==> list[i] in list;
  }

  lemma OnlyIncluded(dp: Port, ports: seq<Port>)
    requires forall i, j {:trigger ports[i], ports[j]} :: 0 <= i < j < |ports| ==> ports[i].user != ports[j].user
    ensures forall p {:trigger p.user in Members(dp, ports)} :: p in ports ==>
      (p.user in Members(dp, ports) <==> p.isUser && p.enforces && dp.bridge != None && p.bridge == dp.bridge)
  {
  }

  /** The smallest MTU among the first n ports, or ETH_MAX_MTU. */
  ghost function Least(dp: Port, ports: seq<Port>, n: nat): int
    requires n <= |ports|
    reads Users(ports)`mtu
  {
    if n == 0 then ETH_MAX_MTU
    else if Included(dp, ports[n - 1]) && Least(dp, ports, n - 1) > ports[n - 1].user.mtu then ports[n - 1].user.mtu
    else Least(dp, ports, n - 1)
  }

  lemma {:induction false} LeastSpec(dp: Port, ports: seq<Port>, n: nat)
    requires n <= |ports|
    ensures Least(dp, ports, n) <= 65535
    ensures forall k :: 0 <= k < n && Included(dp, ports[k]) ==> Least(dp, ports, n) <= ports[k].user.mtu
    ensures Least(dp, ports, n) < 65535 ==>
      exists k :: 0 <= k < n && Included(dp, ports[k]) && Least(dp, ports, n) == ports[k].user.mtu
  {
    if n == 0 {
    } else {
      LeastSpec(dp, ports, n - 1);
    }
  }

  ghost function Mtus(list: seq<HwPort>): seq<int>
    reads Devices(list)
  {
    seq(|list|, i requires 0 <= i < |list| reads Devices(list) => list[i].dev.mtu)
  }

  /** The call that gives device i back its MTU, unless it has it. */
  ghost function Restore(list: seq<HwPort>, mtus: seq<int>, i: nat): seq<(Device, int)>
    requires i < |list| == |mtus|
  {
    if mtus[i] != list[i].oldMtu then [(list[i].dev, list[i].oldMtu)] else []
  }

  /** The calls for the first n devices: from the last to the first. */
  ghost function Restores(list: seq<HwPort>, mtus: seq<int>, n: nat): seq<(Device, int)>
    requires n <= |list| == |mtus|
  {
    if n == 0 then [] else Restore(list, mtus, n - 1) + Restores(list, mtus, n - 1)
  }

  /** One turn of the rollback's loop moves one call from those to come to those made. */
  lemma RestoresTurn(log: seq<(Device, int)>, list: seq<HwPort>, mtus: seq<int>, n: nat)
    requires n < |list| == |mtus|
    ensures log + Restores(list, mtus, n + 1) == log + Restore(list, mtus, n) + Restores(list, mtus, n)
  {
    hide Restore;
  }

  lemma RestoresNone(list: seq<HwPort>, mtus: seq<int>)
    requires |list| == |mtus|
    ensures Restores(list, mtus, 0) == []
  {
  }

  /** The calls that give the first n devices an MTU, each unless it has it: from the first to the last. */
  ghost function Sets(list: seq<HwPort>, mtus: seq<int>, mtu: int, n: nat): seq<(Device, int)>
    requires n <= |list| == |mtus|
  {
    if n == 0 then [] else Sets(list, mtus, mtu, n - 1) + if mtus[n - 1] != mtu then [(list[n - 1].dev, mtu)] else []
  }

  lemma SetsNone(list: seq<HwPort>, mtus: seq<int>, mtu: int)
    requires |list| == |mtus|
    ensures Sets(list, mtus, mtu, 0) == []
  {
  }

  lemma SetsTurn(log: seq<(Device, int)>, list: seq<HwPort>, mtus: seq<int>, mtu: int, i: nat)
    requires i < |list| == |mtus|
    ensures log + Sets(list, mtus, mtu, i + 1)
      == if mtus[i] != mtu then log + Sets(list, mtus, mtu, i) + [(list[i].dev, mtu)] else log + Sets(list, mtus, mtu, i)
    ensures |Sets(list, mtus, mtu, i + 1)| == |Sets(list, mtus, mtu, i)| + if mtus[i] != mtu then 1 else 0
  {
  }

  lemma RestoreSame(list: seq<HwPort>, a: seq<int>, b: seq<int>, i: nat)
    requires i < |list| == |a| == |b| && a[i] == b[i]
    ensures Restore(list, a, i) == Restore(list, b, i)
  {
  }

  /** Restores depends on the MTUs of the first n devices only. */
  lemma {:induction false} RestoresSame(list: seq<HwPort>, a: seq<int>, b: seq<int>, n: nat)
    requires n <= |list| == |a| == |b|
    requires forall i :: 0 <= i < n ==> a[i] == b[i]
    ensures Restores(list, a, n) == Restores(list, b, n)
  {
    hide Restore;
    if n == 0 {
    } else {
      RestoresSame(list, a, b, n - 1);
      RestoreSame(list, a, b, n - 1);
    }
  }

  /** If all n devices lack their MTU, the k-th call is for the k-th device from the end. */
  lemma {:induction false} RestoresReversed(list: seq<HwPort>, mtus: seq<int>, n: nat, k: nat)
    requires k < n <= |list| == |mtus|
    requires forall i :: 0 <= i < n ==> mtus[i] != list[i].oldMtu
    ensures |Restores(list, mtus, n)| == n
    ensures Restores(list, mtus, n)[k] == (list[n - 1 - k].dev, list[n - 1 - k].oldMtu)
  {
    if n == 1 {
    } else {
      RestoresReversed(list, mtus, n - 1, if k == 0 then 0 else k - 1);
    }
  }

  /** The devices that are asked to take their MTU are those that lack it. */
  lemma {:induction false} RestoresAre(list: seq<HwPort>, mtus: seq<int>, n: nat)
    requires n <= |list| == |mtus|
    ensures forall d, m :: (d, m) in Restores(list, mtus, n) <==>
      exists i :: 0 <= i < n && mtus[i] != list[i].oldMtu && d == list[i].dev && m == list[i].oldMtu
  {
    if n == 0 {
    } else {
      RestoresAre(list, mtus, n - 1);
    }
  }

  class Kernel {
    var calls: nat
    /** The devices and MTUs of all calls. */
    ghost var log: seq<(Device, int)>
    /** Whether the call of this number of dev_set_mtu, for this device and MTU, succeeds. */
    const accepts: (nat, Device, int) -> bool

    constructor (accepts: (nat, Device, int) -> bool)
      ensures this.accepts == accepts && calls == 0 && log == []
    {
      this.accepts, calls, log := accepts, 0, [];
    }

    /** dev_set_mtu */
    method DevSetMtu(dev: Device, mtu: int) returns (ok: bool)
      modifies this`calls, this`log, dev`mtu
      ensures calls == old(calls) + 1 && (ok <==> accepts(old(calls), dev, mtu))
      ensures dev.mtu == (if ok then mtu else old(dev.mtu)) && log == old(log) + [(dev, mtu)]
    {
      ok := accepts(calls, dev, mtu);
      log := log + [(dev, mtu)];
      calls := calls + 1;
      if ok {
        dev.mtu := mtu;
      }
    }

    /** Some call from a to b refused to give the device back its MTU. */
    ghost predicate Refused(p: HwPort, a: nat, b: nat) {
      exists c {:trigger accepts(c, p.dev, p.oldMtu)} :: a <= c < b && !accepts(c, p.dev, p.oldMtu)
    }

    /** The rollback of dsa_hw_port_list_set_mtu, from the port before the one that failed back to the
        first. */
    method Rollback(list: seq<HwPort>, failed: nat)
      requires Distinct(list) && failed <= |list|
      modifies this`calls, this`log, Devices(list[..failed])`mtu
      ensures log == old(log) + Restores(list, old(Mtus(list)), failed)
      ensures calls - old(calls) == |log| - |old(log)| >= 0
      ensures forall i {:trigger list[i]} :: 0 <= i < failed ==>
        list[i].dev.mtu == list[i].oldMtu
        || (list[i].dev.mtu == old(list[i].dev.mtu) && Refused(list[i], old(calls), calls))
    {
      hide Restores;
      ghost var mtus := Mtus(list);
      RestoresNone(list, mtus);
      var k := failed;
      while k > 0
        invariant 0 <= k <= failed && calls - old(calls) == |log| - |old(log)| >= 0
        invariant log + Restores(list, mtus, k) == old(log) + Restores(list, mtus, failed)
        invariant forall i {:trigger list[i]} :: 0 <= i < k ==> list[i].dev.mtu == mtus[i]
        invariant forall i {:trigger list[i]} :: k <= i < failed ==>
          list[i].dev.mtu == list[i].oldMtu
          || (list[i].dev.mtu == mtus[i] && Refused(list[i], old(calls), calls))
      {
        k := k - 1;
        var p := list[k];
        assert p in list[..failed];
        RestoresTurn(log, list, mtus, k);
        if p.dev.mtu != p.oldMtu {
          var ok := DevSetMtu(p.dev, p.oldMtu);
        } else {
          assert log + [] == log;
        }
      }
    }

    /** Device i has the MTU already, or takes it in its turn of a run of calls that starts with number c. */
    ghost predicate Takes(list: seq<HwPort>, mtus: seq<int>, mtu: int, i: nat, c: nat)
      requires i < |list| == |mtus|
    {
      mtus[i] == mtu || accepts(c + |Sets(list, mtus, mtu, i)|, list[i].dev, mtu)
    }

    /** The loop of dsa_hw_port_list_set_mtu: the devices get the MTU in turn, up to the first that refuses it. */
    method SetInTurn(list: seq<HwPort>, mtu: int) returns (failed: nat)
      requires Distinct(list)
      modifies this`calls, this`log, Devices(list)`mtu
      ensures calls - old(calls) == |log| - |old(log)| >= 0 && failed <= |list|
      ensures forall i :: 0 <= i < failed ==> Takes(list, old(Mtus(list)), mtu, i, old(calls))
      ensures failed < |list| ==>
        && !Takes(list, old(Mtus(list)), mtu, failed, old(calls))
        && calls > old(calls) && !accepts(calls - 1, list[failed].dev, mtu)
      ensures log == old(log) + Sets(list, old(Mtus(list)), mtu, failed)
                     + if failed < |list| then [(list[failed].dev, mtu)] else []
      ensures forall i {:trigger list[i]} :: 0 <= i < |list| ==>
        list[i].dev.mtu == if i < failed then mtu else old(list[i].dev.mtu)
    {
      hide Sets;
      ghost var mtus := Mtus(list);
      SetsNone(list, mtus, mtu);
      for i := 0 to |list|
        invariant log == old(log) + Sets(list, mtus, mtu, i) && calls == old(calls) + |Sets(list, mtus, mtu, i)|
        invariant forall j :: 0 <= j < i ==> Takes(list, mtus, mtu, j, old(calls))
        invariant forall j {:trigger list[j]} :: 0 <= j < |list| ==> list[j].dev.mtu == if j < i then mtu else mtus[j]
      {
        SetsTurn(old(log), list, mtus, mtu, i);
        if list[i].dev.mtu != mtu {
          var ok := DevSetMtu(list[i].dev, mtu);
          if !ok {
            return i;
          }
        }
      }
      return |list|;
    }

    /** dsa_hw_port_list_set_mtu: every device of the list gets the MTU, or, from the first that refuses
        it on, none does, and those before are given back theirs unless they refuse that. Exactly the devices
        that lack the MTU are asked to take it, in order, up to that one. */
    method ListSetMtu(list: seq<HwPort>, mtu: int) returns (ok: bool, ghost failed: nat)
      requires Distinct(list)
      modifies this`calls, this`log, Devices(list)`mtu
      ensures calls - old(calls) == |log| - |old(log)| >= 0 && failed <= |list|
      ensures ok <==> failed == |list|
      ensures forall i :: 0 <= i < failed ==> Takes(list, old(Mtus(list)), mtu, i, old(calls))
      ensures !ok ==> !Takes(list, old(Mtus(list)), mtu, failed, old(calls))
      ensures !ok ==> exists c :: old(calls) <= c < calls && !accepts(c, list[failed].dev, mtu)
      ensures ok ==> log == old(log) + Sets(list, old(Mtus(list)), mtu, |list|)
      ensures !ok ==> log == old(log) + Sets(list, old(Mtus(list)), mtu, failed) + [(list[failed].dev, mtu)]
                             + Restores(list, seq(|list|, _ => mtu), failed)
      ensures ok ==> forall i {:trigger list[i]} :: 0 <= i < |list| ==> list[i].dev.mtu == mtu
      ensures !ok ==> forall i {:trigger list[i]} :: failed <= i < |list| ==> list[i].dev.mtu == old(list[i].dev.mtu)
      ensures !ok ==> forall i {:trigger list[i]} :: 0 <= i < failed ==>
        list[i].dev.mtu == list[i].oldMtu || (list[i].dev.mtu == mtu && Refused(list[i], old(calls), calls))
    {
      hide Sets, Restores, Kernel.Takes;
      var n := SetInTurn(list, mtu);
      ok, failed := n == |list|, n;
      if !ok {
        RestoresSame(list, Mtus(list), seq(|list|, _ => mtu), n);
        forall j | n <= j < |list|
          ensures list[j].dev !in Devices(list[..n])
        {
        }
        Rollback(list, n);
      }
    }

    /** dsa_bridge_mtu_normalization: the search for the ports on the bridge of dp, each put at the front of
        the list, and for their smallest MTU; None if an allocation fails. */
    method Collect(dp: Port, ports: seq<Port>, allocOk: nat -> bool) returns (list: Option<seq<HwPort>>, minMtu: int)
      ensures list == None || list == Some(old(Listed(dp, ports, |ports|)))
      ensures list != None ==> minMtu == old(Least(dp, ports, |ports|))
      ensures list == None <==>
        exists i: nat {:trigger allocOk(i)} :: i < |ports| && Included(dp, ports[i]) && !allocOk(i)
    {
      minMtu := ETH_MAX_MTU;
      list := Some([]);
      for i := 0 to |ports|
        invariant list == Some(old(Listed(dp, ports, i))) && minMtu == old(Least(dp, ports, i))
        invariant forall j: nat {:trigger allocOk(j)} :: j < i && Included(dp, ports[j]) ==> allocOk(j)
      {
        var other := ports[i];
        if Included(dp, other) {
          if minMtu > other.user.mtu {
            minMtu := other.user.mtu;
          }
          if !allocOk(i) {
            return None, minMtu;
          }
          list := Some([HwPort(other.user, other.user.mtu)] + list.value);
        }
      }
    }

    /** No call refuses a device of the list this MTU; or some device that lacks it is always refused it; or one
        of the calls from a to b refused it to some device. */
    ghost predicate Welcome(list: seq<HwPort>, mtu: int) {
      forall c: nat, i {:trigger accepts(c, list[i].dev, mtu)} :: 0 <= i < |list| ==> accepts(c, list[i].dev, mtu)
    }

    ghost predicate Unwelcome(list: seq<HwPort>, mtu: int) {
      exists i {:trigger list[i]} :: 0 <= i < |list| && list[i].oldMtu != mtu
        && forall c: nat {:trigger accepts(c, list[i].dev, mtu)} :: !accepts(c, list[i].dev, mtu)
    }

    ghost predicate SomeRefused(list: seq<HwPort>, mtu: int, a: nat, b: nat) {
      exists c: nat, i {:trigger accepts(c, list[i].dev, mtu)} ::
        a <= c < b && 0 <= i < |list| && !accepts(c, list[i].dev, mtu)
    }

    /** No call refuses a device the MTU that it had. */
    ghost predicate OldWelcome(list: seq<HwPort>) {
      forall c: nat, i {:trigger accepts(c, list[i].dev, list[i].oldMtu)} ::
        0 <= i < |list| ==> accepts(c, list[i].dev, list[i].oldMtu)
    }

    /** The same of the included ports. */
    ghost predicate TakenByAll(dp: Port, ports: seq<Port>, mtu: int) {
      forall c: nat, p {:trigger accepts(c, p.user, mtu)} :: p in ports && Included(dp, p) ==> accepts(c, p.user, mtu)
    }

    ghost predicate NeverTaken(dp: Port, ports: seq<Port>, mtu: int)
      reads Users(ports)`mtu
    {
      exists p {:trigger Included(dp, p)} :: p in ports && Included(dp, p) && p.user.mtu != mtu
        && forall c: nat {:trigger accepts(c, p.user, mtu)} :: !accepts(c, p.user, mtu)
    }

    ghost predicate RefusedOne(dp: Port, ports: seq<Port>, mtu: int, a: nat, b: nat) {
      exists c: nat, p {:trigger accepts(c, p.user, mtu)} ::
        a <= c < b && p in ports && Included(dp, p) && !accepts(c, p.user, mtu)
    }

    ghost predicate OldTaken(dp: Port, ports: seq<Port>)
      reads Users(ports)`mtu
    {
      forall c: nat, p {:trigger accepts(c, p.user, p.user.mtu)} ::
        p in ports && Included(dp, p) ==> accepts(c, p.user, p.user.mtu)
    }

    /** A device of the list is that of an included port, and the other way round. */
    static lemma PortOf(dp: Port, ports: seq<Port>, list: seq<HwPort>, i: nat) returns (p: Port)
      requires Devices(list) == Members(dp, ports) && i < |list|
      ensures p in ports && Included(dp, p) && p.user == list[i].dev
    {
      assert list[i].dev in Members(dp, ports);
      p :| p in ports && Included(dp, p) && p.user == list[i].dev;
    }

    static lemma PlaceOf(dp: Port, ports: seq<Port>, list: seq<HwPort>, p: Port) returns (i: nat)
      requires Devices(list) == Members(dp, ports) && p in ports && Included(dp, p)
      ensures i < |list| && list[i].dev == p.user
    {
      assert p.user in Devices(list);
      var h :| h in list && h.dev == p.user;
      i :| i < |list| && list[i] == h;
    }

    lemma OfList(dp: Port, ports: seq<Port>, list: seq<HwPort>, mtu: int, a: nat, b: nat)
      requires Devices(list) == Members(dp, ports)
      ensures TakenByAll(dp, ports, mtu) ==> Welcome(list, mtu)
      ensures AllHave(list, mtu) ==> AllAt(mtu, dp, ports)
      ensures SomeRefused(list, mtu, a, b) ==> RefusedOne(dp, ports, mtu, a, b)
    {
      forall i: nat | i < |list|
        ensures exists p {:trigger Included(dp, p)} :: p in ports && Included(dp, p) && p.user == list[i].dev
      {
        var p := PortOf(dp, ports, list, i);
      }
      forall p | p in ports && Included(dp, p)
        ensures exists i: nat {:trigger list[i]} :: i < |list| && list[i].dev == p.user
      {
        var i := PlaceOf(dp, ports, list, p);
      }
      hide Included;
    }

    lemma OfOldList(dp: Port, ports: seq<Port>, list: seq<HwPort>, mtu: int)
      requires Devices(list) == Members(dp, ports) && AllOld(list)
      ensures NeverTaken(dp, ports, mtu) ==> Unwelcome(list, mtu)
      ensures OldTaken(dp, ports) ==> OldWelcome(list)
    {
      if p :| p in ports && Included(dp, p) && p.user.mtu != mtu
              && forall c: nat {:trigger accepts(c, p.user, mtu)} :: !accepts(c, p.user, mtu) {
        var i := PlaceOf(dp, ports, list, p);
      }
      if OldTaken(dp, ports) {
        forall c: nat, i: nat | i < |list|
          ensures accepts(c, list[i].dev, list[i].oldMtu)
        {
          var p := PortOf(dp, ports, list, i);
        }
      }
    }

    /** The last part of dsa_bridge_mtu_normalization: one MTU for the list, or else another. The first is set
        unless a device refuses it, and then the second unless a device refuses that too. */
    method SetOneOrOther(list: seq<HwPort>, first: int, second: int)
      requires Distinct(list) && AllOld(list)
      modifies this`calls, this`log, Devices(list)`mtu
      ensures calls >= old(calls)
      ensures OldWelcome(list) ==>
        AllHave(list, first) || AllHave(list, second) || forall d :: d in Devices(list) ==> d.mtu == old(d.mtu)
      ensures forall d :: d in Devices(list) ==> d.mtu in {old(d.mtu), first, second}
      ensures AllHave(list, first) || SomeRefused(list, first, old(calls), calls)
      ensures AllHave(list, first) || AllHave(list, second) || SomeRefused(list, second, old(calls), calls)
      ensures Welcome(list, first) ==> AllHave(list, first)
      ensures Unwelcome(list, first) && Welcome(list, second) && OldWelcome(list) ==> AllHave(list, second)
    {
      ghost var mtus := Mtus(list);
      hide Sets, Restores;
      var ok, failed := ListSetMtu(list, first);
      if ok {
        assert forall i {:trigger list[i]} :: 0 <= i < |list| ==> Takes(list, mtus, first, i, old(calls));
        return;
      }
      ok, failed := ListSetMtu(list, second);
    }

    /** dsa_bridge_mtu_normalization, over the ports of all trees. If the list can be allocated, every device on
        the bridge gets the MTU of dp unless a device refuses it, and then their minimum unless a device refuses
        that too. Where devices accept their old MTU back, they all end at the first, or all at the second, or
        all where they were; and in any case each of them at one of these three. No other device changes. */
    method Normalize(dp: Port, ports: seq<Port>, allocOk: nat -> bool)
      requires forall i, j {:trigger ports[i], ports[j]} :: 0 <= i < j < |ports| ==> ports[i].user != ports[j].user
      modifies this`calls, this`log, Members(dp, ports)`mtu
      ensures !Normalizes(dp, ports, allocOk) ==>
        calls == old(calls) && forall p :: p in ports ==> p.user.mtu == old(p.user.mtu)
      ensures forall p :: p in ports && !(p.isUser && p.enforces && dp.bridge != None && p.bridge == dp.bridge) ==>
        p.user.mtu == old(p.user.mtu)
      ensures forall p :: p in ports ==>
        p.user.mtu in {old(p.user.mtu), old(dp.user.mtu), old(Least(dp, ports, |ports|))}
      ensures var first, second := old(dp.user.mtu), old(Least(dp, ports, |ports|));
        Normalizes(dp, ports, allocOk) ==>
          && (AllAt(first, dp, ports) || RefusedOne(dp, ports, first, old(calls), calls))
          && (AllAt(first, dp, ports) || AllAt(second, dp, ports) || RefusedOne(dp, ports, second, old(calls), calls))
          && (TakenByAll(dp, ports, first) ==> AllAt(first, dp, ports))
          && (old(OldTaken(dp, ports)) ==>
                || AllAt(first, dp, ports) || AllAt(second, dp, ports)
                || forall p :: p in ports ==> p.user.mtu == old(p.user.mtu))
          && (old(OldTaken(dp, ports)) && old(NeverTaken(dp, ports, first)) && TakenByAll(dp, ports, second) ==>
                AllAt(second, dp, ports))
    {
      if !dp.enforces {
        return;
      }
      if dp.bridge == None {
        return;
      }
      ListedDevices(dp, ports);
      OnlyIncluded(dp, ports);
      hide Listed, Least, Included, AllAt, AllHave, AllOld, Kernel.Welcome, Kernel.Unwelcome, Kernel.SomeRefused,
           Kernel.RefusedOne, Kernel.TakenByAll, Kernel.NeverTaken, Kernel.OldTaken, Kernel.OldWelcome;
      var list, minMtu := Collect(dp, ports, allocOk);
      if list == None {
        return;
      }
      OfOldList(dp, ports, list.value, dp.user.mtu);
      ghost var first, second := dp.user.mtu, minMtu;
      SetOneOrOther(list.value, dp.user.mtu, minMtu);
      OfList(dp, ports, list.value, first, old(calls), calls);
      OfList(dp, ports, list.value, second, old(calls), calls);
    }
  }
}
