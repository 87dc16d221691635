/** Bridge and LAG bookkeeping in the driver's own form: structures shared by the ports through
    pointers and counted references, a bitmap, and an array. The views of Bridges and Lags, whose
    properties hold over every run, are what these structures are proved to represent. */
module PortDriver {
  import opened Entities
  import opened Wrappers
  import Bridges
  import Lags

  class Bridge {
    const dev: Dev
    const num: nat
    var txFwdOffload: bool
    var refcount: nat

    constructor (dev: Dev, num: nat)
      ensures this.dev == dev && this.num == num && !txFwdOffload && refcount == 1
    {
      this.dev, this.num, txFwdOffload, refcount := dev, num, false, 1;
    }
  }

  class Lag {
    const dev: Dev
    var id: nat
    var refcount: nat

    constructor (dev: Dev)
      ensures this.dev == dev && id == 0 && refcount == 1
    {
      this.dev, id, refcount := dev, 0, 1;
    }
  }

  class Port {
    const maxNumBridges: nat
    var bridge: Bridge?
    var lag: Lag?
    var lagTxEnabled: bool

    constructor (maxNumBridges: nat)
      ensures this.maxNumBridges == maxNumBridges && bridge == null && lag == null && !lagTxEnabled
    {
      this.maxNumBridges := maxNumBridges;
      bridge, lag, lagTxEnabled := null, null, false;
    }
  }

  /** The number of ports on a device. */
  ghost function PortsOn(on: seq<Option<Dev>>, d: Dev): nat {
    multiset(on)[Some(d)]
  }

  lemma PortsOnAfterFill(on: seq<Option<Dev>>, p: nat, dev: Dev)
    requires p < |on| && on[p] == None
    ensures forall d: Dev {:trigger PortsOn(on[p := Some(dev)], d)} ::
      PortsOn(on[p := Some(dev)], d) == PortsOn(on, d) + if d == dev then 1 else 0
    ensures Some(dev) !in on ==> PortsOn(on, dev) == 0
  {
  }

  lemma PortsOnAfterClear(on: seq<Option<Dev>>, p: nat)
    requires p < |on| && on[p] != None
    ensures forall d: Dev {:trigger PortsOn(on[p := None], d)} ::
      PortsOn(on, d) == PortsOn(on[p := None], d) + if Some(d) == on[p] then 1 else 0
    ensures PortsOn(on[p := None], on[p].value) == 0 <==> on[p] !in on[p := None]
  {
  }

  /** What the steps of a bridge join answer: MST is on but not supported, the allocation succeeds, the
      switches accept the notification and set tx_fwd_offload, the bridge offloads the port, and the
      attributes are synchronised. */
  datatype Answers = Answers(mstRefused: bool, allocOk: bool, notifyOk: bool, txFwdOffload: bool,
                             offloadOk: bool, syncOk: bool)

  /** The result of dsa_port_bridge_join. */
  function BridgeJoinResult(v: Bridges.View, p: nat, br: Dev, max: nat, a: Answers): Bridges.Error
    requires p < |v.on|
  {
    var e := Bridges.Create(v, p, br, max, a.allocOk).1;
    if a.mstRefused then Bridges.NotSupported
    else if e != Bridges.Ok then e
    else OffloadResult(a)
  }

  /** The result of the steps after dsa_port_bridge_create. */
  function OffloadResult(a: Answers): Bridges.Error {
    if !a.notifyOk then Bridges.Refused(Bridges.Notifier)
    else if !a.offloadOk then Bridges.Refused(Bridges.Offload)
    else if !a.syncOk then Bridges.Refused(Bridges.SyncAttrs)
    else Bridges.Ok
  }

  /** The result of the part of dsa_port_lag_join after dsa_port_lag_create. */
  function JoinResult(v: Bridges.View, p: nat, max: nat, notifyOk: bool, master: Option<Dev>, a: Answers): Bridges.Error
    requires p < |v.on|
  {
    if !notifyOk then Bridges.Refused(Bridges.LagNotifier)
    else match master
      case None => Bridges.Ok
      case Some(br) => BridgeJoinResult(v, p, br, max, a)
  }

  /** The bridge has its structure already, or there are memory and a number for it. */
  ghost predicate CanHave(v: Bridges.View, br: Dev, max: nat, allocOk: bool) {
    br in v.num || (allocOk && (max == 0 || Bridges.FreeBelow(v, max)))
  }

  /** A bridge join succeeds if and only if each of its steps does, and otherwise its error is that of the
      first step that fails. */
  ghost predicate JoinError(err: Bridges.Error, v: Bridges.View, br: Dev, max: nat, a: Answers) {
    var created := !a.mstRefused && CanHave(v, br, max, a.allocOk);
    && (err == Bridges.Ok <==> created && a.notifyOk && a.offloadOk && a.syncOk)
    && (err == Bridges.NoMemory <==> !a.mstRefused && br !in v.num && !a.allocOk)
    && (err == Bridges.NotSupported <==>
          a.mstRefused || (br !in v.num && a.allocOk && max != 0 && !Bridges.FreeBelow(v, max)))
    && (err == Bridges.Refused(Bridges.Notifier) <==> created && !a.notifyOk)
    && (err == Bridges.Refused(Bridges.Offload) <==> created && a.notifyOk && !a.offloadOk)
    && (err == Bridges.Refused(Bridges.SyncAttrs) <==> created && a.notifyOk && a.offloadOk && !a.syncOk)
  }

  lemma JoinErrorIs(v: Bridges.View, p: nat, br: Dev, max: nat, a: Answers)
    requires Bridges.Inv(v) && p < |v.on|
    ensures JoinError(BridgeJoinResult(v, p, br, max, a), v, br, max, a)
  {
    Bridges.JoinGives(v, p, br, max, a.allocOk);
    hide Bridges.Create, Bridges.Held, Bridges.Inv;
  }

  lemma JoinResultIs(v: Bridges.View, p: nat, max: nat, notifyOk: bool, master: Option<Dev>, a: Answers)
    requires Bridges.Inv(v) && p < |v.on|
    ensures var err := JoinResult(v, p, max, notifyOk, master, a);
      && (err == Bridges.Ok <==>
            notifyOk && (master == None || (!a.mstRefused && CanHave(v, master.value, max, a.allocOk)
                                            && a.notifyOk && a.offloadOk && a.syncOk)))
      && (!notifyOk ==> err == Bridges.Refused(Bridges.LagNotifier))
      && (notifyOk && master != None ==> JoinError(err, v, master.value, max, a))
  {
    if master != None {
      JoinErrorIs(v, p, master.value, max, a);
    }
    hide BridgeJoinResult, Bridges.Inv, Bridges.FreeBelow;
  }

  /** A new LAG is in the first place of the array that was free, with the id after it; or, if none was,
      nowhere, with id 0. */
  ghost predicate FirstFreeTaken(was: seq<Lag?>, now: seq<Lag?>, l: Lag, id: nat) {
    && (id != 0 <==> null in was)
    && (id == 0 ==> now == was)
    && (id != 0 ==> id <= |was| && was[id - 1] == null && null !in was[..id - 1] && now == was[id - 1 := l])
  }

  /** If that part gets as far as to number a bridge, the number fits the bitmap's word. */
  ghost predicate JoinFits(v: Bridges.View, max: nat, notifyOk: bool, master: Option<Dev>, a: Answers) {
    notifyOk && master != None && !a.mstRefused ==> !Bridges.Overflows(v, master.value, max, a.allocOk)
  }

  class SwitchTree {
    const ports: seq<Port>
    const lags: array<Lag?>
    var fwdOffloadingBridges: set<nat>
    ghost var bridges: Bridges.View
    ghost var bridgeOf: map<Dev, Bridge>
    ghost var lagView: Lags.View
    ghost var lagOf: map<Dev, Lag>

    /** A tree whose ports are on no bridge and in no LAG yet. */
    constructor (ports: seq<Port>, lagsLen: nat)
      requires forall i, j {:trigger ports[i], ports[j]} :: 0 <= i < j < |ports| ==> ports[i] != ports[j]
      requires forall i {:trigger ports[i]} :: 0 <= i < |ports| ==>
        ports[i].bridge == null && ports[i].lag == null && !ports[i].lagTxEnabled
      ensures this.ports == ports && lags.Length == lagsLen && fresh(lags)
      ensures BridgesValid() && LagsValid()
      ensures bridges == Bridges.View(seq(|ports|, _ => None), map[])
      ensures lagView == Lags.View(seq(|ports|, _ => None), map[], seq(lagsLen, _ => None))
    {
      hide Bridges.Inv, Lags.Inv, SwitchTree.BitmapIs, PortsOn;
      NothingJoined(|ports|, lagsLen);
      this.ports := ports;
      lags := new Lag?[lagsLen](_ => null);
      fwdOffloadingBridges := {};
      bridges, bridgeOf := Bridges.View(seq(|ports|, _ => None), map[]), map[];
      lagView, lagOf := Lags.View(seq(|ports|, _ => None), map[], seq(lagsLen, _ => None)), map[];
    }

    static lemma NothingJoined(ports: nat, lagsLen: nat)
      ensures Bridges.Inv(Bridges.View(seq(ports, _ => None), map[])) && BitmapIs({}, map[])
      ensures Lags.Inv(Lags.View(seq(ports, _ => None), map[], seq(lagsLen, _ => None)))
    {
    }

    ghost predicate PortsDistinct() {
      forall i, j {:trigger ports[i], ports[j]} :: 0 <= i < j < |ports| ==> ports[i] != ports[j]
    }

    /** Each live device has one structure, with the view's number; its refcount is the number of ports
        on the device, and those are the ports pointing to it. */
    ghost predicate BridgesShared()
      reads this`bridges, this`bridgeOf, ports`bridge, bridgeOf.Values`refcount
    {
      && PortsDistinct() && |bridges.on| == |ports|
      && bridgeOf.Keys == bridges.num.Keys
      && (forall d {:trigger bridgeOf[d]} :: d in bridgeOf ==>
            var b := bridgeOf[d];
            b.dev == d && b.num == bridges.num[d] && b.refcount == PortsOn(bridges.on, d))
      && (forall i {:trigger ports[i]} {:trigger bridges.on[i]} :: 0 <= i < |ports| ==>
            var d := bridges.on[i];
            && (d == None ==> ports[i].bridge == null)
            && (d != None ==> d.value in bridgeOf && ports[i].bridge == bridgeOf[d.value]))
    }

    static ghost predicate BitmapIs(bits: set<nat>, num: map<Dev, nat>) {
      bits == Bridges.BitsOf(num)
    }

    /** And the bitmap is the set of live numbers. */
    ghost predicate BridgesValid()
      reads this`bridges, this`bridgeOf, this`fwdOffloadingBridges, ports`bridge, bridgeOf.Values`refcount
    {
      BridgesShared() && Bridges.Inv(bridges) && BitmapIs(fwdOffloadingBridges, bridges.num)
    }

    lemma BridgesValidParts()
      requires BridgesValid()
      ensures BridgesShared() && BitmapIs(fwdOffloadingBridges, bridges.num) && Bridges.Inv(bridges)
      ensures |bridges.on| == |ports| && bridgeOf.Keys == bridges.num.Keys
      ensures forall d {:trigger bridgeOf[d]} :: d in bridgeOf ==> bridgeOf[d].dev == d
    {
    }

    lemma BridgesValidFromParts()
      requires BridgesShared() && BitmapIs(fwdOffloadingBridges, bridges.num) && Bridges.Inv(bridges)
      ensures BridgesValid()
    {
    }

    /** What a port points to, and the bitmap, are what the view says. */
    lemma BridgeOfPort(dp: Port, p: nat)
      requires BridgesValid() && p < |ports| && ports[p] == dp
      ensures |bridges.on| == |ports| && fwdOffloadingBridges == Bridges.BitsOf(bridges.num)
      ensures bridges.on[p] == None ==> dp.bridge == null
      ensures bridges.on[p] != None ==>
        var d := bridges.on[p].value;
        d in bridges.num && dp.bridge != null && dp.bridge.dev == d && dp.bridge.num == bridges.num[d]
    {
    }

    /** The structure of a device, if it has one. */
    ghost function StructOf(br: Dev): set<Bridge>
      reads this`bridgeOf
    {
      if br in bridgeOf then {bridgeOf[br]} else {}
    }

    /** The offload flag of a live bridge. */
    ghost function FlagOf(br: Dev): Option<bool>
      reads this`bridgeOf, StructOf(br)`txFwdOffload
    {
      if br in bridgeOf then Some(bridgeOf[br].txFwdOffload) else None
    }

    ghost function JoinFrame(master: Option<Dev>): set<Bridge>
      reads this`bridgeOf
    {
      match master
      case None => {}
      case Some(br) => StructOf(br)
    }

    /** dsa_tree_bridge_find */
    method BridgeFind(br: Dev) returns (b: Bridge?)
      requires BridgesValid()
      ensures b == if br in bridgeOf then bridgeOf[br] else null
    {
      hide PortsOn, SwitchTree.BitmapIs;
      for i := 0 to |ports|
        invariant Some(br) !in bridges.on[..i]
      {
        if ports[i].bridge != null && ports[i].bridge.dev == br {
          return ports[i].bridge;
        }
      }
      assert bridges.on[..|ports|] == bridges.on;
      return null;
    }

    /** dsa_bridge_num_get */
    method NumGet(br: Dev, max: nat) returns (num: nat)
      requires BridgesValid()
      modifies this`fwdOffloadingBridges
      ensures num == Bridges.NumGetFor(bridges, br, max)
      ensures fwdOffloadingBridges == old(fwdOffloadingBridges) + if num == 0 then {} else {num}
    {
      var found := BridgeFind(br);
      num := 0;
      if found != null {
        num := found.num;
      }
      if max == 0 {
        return 0;
      }
      if num == 0 {
        num := Bridges.NextZeroBit(fwdOffloadingBridges, 1);
        if num >= max {
          return 0;
        }
        fwdOffloadingBridges := fwdOffloadingBridges + {num};
      } else {
        assert br in bridges.num && bridges.num[br] in Bridges.BitsOf(bridges.num);
      }
    }

    /** A port starts to share the structure of a live device. */
    method ShareBridge(dp: Port, ghost p: nat, b: Bridge)
      requires BridgesShared() && p < |ports| && ports[p] == dp && bridges.on[p] == None
      requires b.dev in bridgeOf && bridgeOf[b.dev] == b
      modifies this`bridges, dp`bridge, b`refcount
      ensures BridgesShared() && bridges == old(bridges).(on := old(bridges).on[p := Some(b.dev)])
      ensures unchanged(this`fwdOffloadingBridges) && unchanged(this`bridgeOf) && dp.bridge == b
    {
      hide PortsOn;
      PortsOnAfterFill(bridges.on, p, b.dev);
      b.refcount := b.refcount + 1;
      dp.bridge := b;
      bridges := bridges.(on := bridges.on[p := Some(b.dev)]);
      assert bridges.on[p] == Some(b.dev) && ports[p].bridge == bridgeOf[b.dev];
    }

    /** A port gets the new structure of a device that no port was on. */
    method InstallBridge(dp: Port, ghost p: nat, b: Bridge)
      requires BridgesShared() && p < |ports| && ports[p] == dp && bridges.on[p] == None
      requires b !in bridgeOf.Values && b.dev !in bridgeOf && Some(b.dev) !in bridges.on && b.refcount == 1
      modifies this`bridges, this`bridgeOf, dp`bridge
      ensures BridgesShared() && bridgeOf == old(bridgeOf)[b.dev := b] && dp.bridge == b
      ensures bridges == Bridges.View(old(bridges).on[p := Some(b.dev)], old(bridges).num[b.dev := b.num])
    {
      hide PortsOn;
      PortsOnAfterFill(bridges.on, p, b.dev);
      dp.bridge := b;
      bridges := Bridges.View(bridges.on[p := Some(b.dev)], bridges.num[b.dev := b.num]);
      bridgeOf := bridgeOf[b.dev := b];
      assert bridges.on[p] == Some(b.dev) && ports[p].bridge == bridgeOf[b.dev];
    }

    /** The part of dsa_port_bridge_create for a device that no port is on. */
    method BridgeAlloc(dp: Port, ghost p: nat, br: Dev, allocOk: bool) returns (err: Bridges.Error)
      requires BridgesValid() && p < |ports| && ports[p] == dp && bridges.on[p] == None && br !in bridges.num
      modifies this`bridges, this`bridgeOf, this`fwdOffloadingBridges, dp`bridge
      ensures BridgesShared() && BitmapIs(fwdOffloadingBridges, bridges.num)
      ensures (bridges, err) == Bridges.Create(old(bridges), p, br, dp.maxNumBridges, allocOk)
      ensures err == Bridges.Ok ==> br in bridgeOf && fresh(bridgeOf[br]) && dp.bridge == bridgeOf[br]
      ensures err == Bridges.Ok ==> bridgeOf == old(bridgeOf)[br := bridgeOf[br]]
      ensures err != Bridges.Ok ==> bridgeOf == old(bridgeOf)
    {
      assert Some(br) !in bridges.on;
      hide Bridges.Inv;
      if !allocOk {
        return Bridges.NoMemory;
      }
      var num := NumGet(br, dp.maxNumBridges);
      if dp.maxNumBridges != 0 && num == 0 {
        return Bridges.NotSupported;
      }
      Bridges.BitsAfterAdd(bridges, br, num);
      hide Bridges.BitsOf;
      var b := new Bridge(br, num);
      InstallBridge(dp, p, b);
      return Bridges.Ok;
    }

    /** dsa_port_bridge_create; p is the port's position. */
    method BridgeCreate(dp: Port, ghost p: nat, br: Dev, allocOk: bool) returns (err: Bridges.Error)
      requires BridgesValid() && p < |ports| && ports[p] == dp && bridges.on[p] == None
      requires !Bridges.Overflows(bridges, br, dp.maxNumBridges, allocOk)
      modifies this`bridges, this`bridgeOf, this`fwdOffloadingBridges, dp`bridge, StructOf(br)`refcount
      ensures BridgesValid()
      ensures (bridges, err) == Bridges.Create(old(bridges), p, br, dp.maxNumBridges, allocOk)
      ensures err == Bridges.Ok ==> br in bridgeOf && dp.bridge == bridgeOf[br] && bridges.on[p] == Some(br)
      ensures br in old(bridges).num || err != Bridges.Ok ==> bridgeOf == old(bridgeOf)
      ensures br !in old(bridges).num && err == Bridges.Ok ==>
        fresh(bridgeOf[br]) && bridgeOf - {br} == old(bridgeOf)
    {
      hide SwitchTree.BridgesValid, SwitchTree.BridgesShared, SwitchTree.BitmapIs, Bridges.Inv, Bridges.NumGet,
           Bridges.Overflows;
      BridgesValidParts();
      Bridges.CreateKeepsInv(bridges, p, br, dp.maxNumBridges, allocOk);
      var b := BridgeFind(br);
      if b != null {
        ShareBridge(dp, p, b);
        err := Bridges.Ok;
      } else {
        err := BridgeAlloc(dp, p, br, allocOk);
      }
      BridgesValidFromParts();
    }

    /** The port lets go of its structure: the first part of dsa_port_bridge_destroy. */
    method DetachBridge(dp: Port, ghost p: nat) returns (b: Bridge)
      requires BridgesShared() && p < |ports| && ports[p] == dp && bridges.on[p] != None
      modifies this`bridges, dp`bridge, dp.bridge`refcount
      ensures BridgesShared() && bridges == old(bridges).(on := old(bridges).on[p := None])
      ensures unchanged(this`fwdOffloadingBridges) && unchanged(this`bridgeOf)
      ensures Some(b.dev) == old(bridges).on[p] && b.dev in bridgeOf && bridgeOf[b.dev] == b
      ensures b.dev in bridges.num && b.num == bridges.num[b.dev] && (b.refcount == 0 <==> Some(b.dev) !in bridges.on)
    {
      hide PortsOn;
      b := dp.bridge;
      assert b == bridgeOf[bridges.on[p].value] && Some(b.dev) == bridges.on[p];
      PortsOnAfterClear(bridges.on, p);
      dp.bridge := null;
      b.refcount := b.refcount - 1;
      bridges := bridges.(on := bridges.on[p := None]);
      assert bridges.on[p] == None && ports[p].bridge == null;
    }

    /** A structure that no port points to goes, and its number with it. */
    method DropBridge(b: Bridge)
      requires BridgesShared() && b.dev in bridgeOf && bridgeOf[b.dev] == b && Some(b.dev) !in bridges.on
      requires BitmapIs(fwdOffloadingBridges, bridges.num)
      requires Bridges.BitsOf(bridges.num - {b.dev}) == fwdOffloadingBridges - {b.num}
      modifies this`bridges, this`bridgeOf, this`fwdOffloadingBridges
      ensures BridgesShared() && BitmapIs(fwdOffloadingBridges, bridges.num)
      ensures bridges == Bridges.View(old(bridges).on, old(bridges).num - {b.dev})
      ensures bridgeOf == old(bridgeOf) - {b.dev}
    {
      assert b.num == 0 ==> b.num !in fwdOffloadingBridges;
      if b.num != 0 {
        fwdOffloadingBridges := fwdOffloadingBridges - {b.num};
      }
      bridges := bridges.(num := bridges.num - {b.dev});
      bridgeOf := bridgeOf - {b.dev};
    }

    /** dsa_port_bridge_destroy */
    method BridgeDestroy(dp: Port, ghost p: nat)
      requires BridgesValid() && p < |ports| && ports[p] == dp && bridges.on[p] != None
      modifies this`bridges, this`bridgeOf, this`fwdOffloadingBridges, dp`bridge, dp.bridge`refcount
      ensures BridgesValid() && bridges == Bridges.Destroy(old(bridges), p)
      ensures bridgeOf == if old(bridges).on[p].value in bridges.num then old(bridgeOf)
                          else old(bridgeOf) - {old(bridges).on[p].value}
    {
      Bridges.DestroyKeepsInv(bridges, p);
      Bridges.BitsAfterDestroy(bridges, p);
      hide Bridges.Inv, SwitchTree.BridgesShared, Bridges.BitsOf;
      var b := DetachBridge(dp, p);
      if b.refcount != 0 {
        return;
      }
      DropBridge(b);
    }

    method Flag(br: Dev) returns (flag: Option<bool>)
      requires BridgesValid()
      ensures flag == FlagOf(br)
    {
      var b := BridgeFind(br);
      flag := if b == null then None else Some(b.txFwdOffload);
    }

    /** The steps of dsa_port_bridge_join after dsa_port_bridge_create, with its rollback. */
    method OffloadBridge(dp: Port, ghost p: nat, a: Answers) returns (err: Bridges.Error)
      requires BridgesValid() && p < |ports| && ports[p] == dp && bridges.on[p] != None && dp.bridge != null
      modifies this`bridges, this`bridgeOf, this`fwdOffloadingBridges, dp`bridge
      modifies dp.bridge`refcount, dp.bridge`txFwdOffload
      ensures BridgesValid()
      ensures old(dp.bridge).txFwdOffload == if a.notifyOk then a.txFwdOffload else old(dp.bridge.txFwdOffload)
      ensures err == OffloadResult(a)
      ensures err == Bridges.Ok ==> unchanged(this`bridges) && unchanged(this`bridgeOf)
      ensures err != Bridges.Ok ==> bridges == Bridges.Destroy(old(bridges), p)
      ensures err != Bridges.Ok ==>
        bridgeOf == if old(bridges).on[p].value in bridges.num then old(bridgeOf)
                    else old(bridgeOf) - {old(bridges).on[p].value}
    {
      hide SwitchTree.BridgesValid, Bridges.Destroy;
      if !a.notifyOk {
        err := Bridges.Refused(Bridges.Notifier);
      } else {
        dp.bridge.txFwdOffload := a.txFwdOffload;
        if !a.offloadOk {
          err := Bridges.Refused(Bridges.Offload);
        } else if !a.syncOk {
          err := Bridges.Refused(Bridges.SyncAttrs);
        } else {
          return Bridges.Ok;
        }
      }
      BridgeDestroy(dp, p);
    }

    /** dsa_port_bridge_join: on failure at any step the view, the structures, their counts, the pointers
        and the bitmap are what they were. Only the offload flag of a bridge that other ports are on is
        not put back: it keeps the value that the notifier gave. A join whose number overflows the bitmap's
        word writes outside it. */
    method BridgeJoin(dp: Port, ghost p: nat, br: Dev, a: Answers) returns (err: Bridges.Error)
      requires BridgesValid() && p < |ports| && ports[p] == dp && bridges.on[p] == None
      requires a.mstRefused || !Bridges.Overflows(bridges, br, dp.maxNumBridges, a.allocOk)
      modifies this`bridges, this`bridgeOf, this`fwdOffloadingBridges, dp`bridge
      modifies StructOf(br)`refcount, StructOf(br)`txFwdOffload
      ensures BridgesValid()
      ensures err == BridgeJoinResult(old(bridges), p, br, dp.maxNumBridges, a)
      ensures err == Bridges.Ok <==>
        && !a.mstRefused
        && (br in old(bridges).num
            || (a.allocOk && (dp.maxNumBridges == 0 || Bridges.FreeBelow(old(bridges), dp.maxNumBridges))))
        && a.notifyOk && a.offloadOk && a.syncOk
      ensures JoinError(err, old(bridges), br, dp.maxNumBridges, a)
      ensures err == Bridges.Ok ==>
        bridges.on == old(bridges).on[p := Some(br)] && dp.bridge != null && dp.bridge.dev == br
      ensures err == Bridges.Ok && br !in old(bridges).num ==>
        if dp.maxNumBridges == 0 then dp.bridge.num == 0
        else 1 <= dp.bridge.num < dp.maxNumBridges && !Bridges.Held(old(bridges), dp.bridge.num)
             && forall k: nat {:trigger Bridges.Held(old(bridges), k)} ::
                  1 <= k < dp.bridge.num ==> Bridges.Held(old(bridges), k)
      ensures err != Bridges.Ok ==> dp.bridge == null && fwdOffloadingBridges == old(fwdOffloadingBridges)
      ensures err == Bridges.Ok ==>
        bridges == Bridges.Create(old(bridges), p, br, dp.maxNumBridges, a.allocOk).0
      ensures err != Bridges.Ok ==> bridges == old(bridges) && bridgeOf == old(bridgeOf)
      ensures br in bridgeOf && br !in old(bridgeOf) ==> fresh(bridgeOf[br])
      ensures FlagOf(br) == if br in bridgeOf && !a.mstRefused && a.notifyOk then Some(a.txFwdOffload) else old(FlagOf(br))
    {
      hide SwitchTree.BridgesValid, SwitchTree.BridgesShared, SwitchTree.BitmapIs,
           Bridges.Create, Bridges.Destroy, Bridges.Inv, Bridges.Overflows, Bridges.FreeBelow, Bridges.Held;
      BridgesValidParts();
      Bridges.DestroyUndoesCreate(bridges, p, br, dp.maxNumBridges, a.allocOk);
      Bridges.JoinGives(bridges, p, br, dp.maxNumBridges, a.allocOk);
      JoinErrorIs(bridges, p, br, dp.maxNumBridges, a);
      BridgeOfPort(dp, p);
      assert br in bridges.num <==> br in bridgeOf;
      if a.mstRefused {
        return Bridges.NotSupported;
      }
      err := BridgeCreate(dp, p, br, a.allocOk);
      if err != Bridges.Ok {
        BridgeOfPort(dp, p);
        return;
      }
      assert if br in old(bridgeOf) then dp.bridge == old(bridgeOf[br]) else fresh(dp.bridge);
      err := OffloadBridge(dp, p, a);
      BridgeOfPort(dp, p);
    }

    /** dsa_port_bridge_leave: a port that was never offloaded has nothing to undo; whether the switches
        accept the notification changes nothing here. */
    method BridgeLeave(dp: Port, ghost p: nat)
      requires BridgesValid() && p < |ports| && ports[p] == dp
      modifies this`bridges, this`bridgeOf, this`fwdOffloadingBridges, dp`bridge
      modifies (if dp.bridge == null then {} else {dp.bridge})`refcount
      ensures BridgesValid()
      ensures bridges == if old(bridges).on[p] == None then old(bridges) else Bridges.Destroy(old(bridges), p)
    {
      hide Bridges.Destroy, Bridges.Inv, SwitchTree.BitmapIs;
      assert dp.bridge == null <==> bridges.on[p] == None;
      hide SwitchTree.BridgesShared, SwitchTree.BridgesValid;
      if dp.bridge != null {
        BridgeDestroy(dp, p);
      }
    }

    // ----- LAGs -----

    /** Each live LAG device has one structure, with the view's id; its refcount is the number of ports
        in the LAG. */
    ghost predicate LagStructs()
      reads this`lagView, this`lagOf, lagOf.Values
    {
      && lagOf.Keys == lagView.id.Keys
      && (forall d {:trigger lagOf[d]} :: d in lagOf ==>
            lagOf[d].dev == d && lagOf[d].id == lagView.id[d] && lagOf[d].refcount == PortsOn(lagView.on, d))
    }

    /** The ports in a LAG are those that point to its structure. A port in no LAG does not transmit for
        one. */
    ghost predicate LagPorts()
      reads this`lagView, this`lagOf, ports`lag, ports`lagTxEnabled
    {
      && PortsDistinct() && |lagView.on| == |ports|
      && (forall i {:trigger ports[i]} {:trigger lagView.on[i]} :: 0 <= i < |ports| ==>
            var d := lagView.on[i];
            && (d == None ==> ports[i].lag == null && !ports[i].lagTxEnabled)
            && (d != None ==> d.value in lagOf && ports[i].lag == lagOf[d.value]))
    }

    /** The lags array holds the structures that the view's slots name. */
    static ghost predicate SlotsHold(slots: seq<Option<Dev>>, lagOf: map<Dev, Lag>, lags: seq<Lag?>) {
      && |slots| == |lags|
      && (forall i {:trigger lags[i]} {:trigger slots[i]} :: 0 <= i < |lags| ==>
            && (slots[i] == None ==> lags[i] == null)
            && (slots[i] != None ==> slots[i].value in lagOf && lags[i] == lagOf[slots[i].value]))
    }

    ghost predicate LagSlots()
      reads this`lagView, this`lagOf, lags
    {
      SlotsHold(lagView.slots, lagOf, lags[..])
    }

    static lemma SlotsAfterMap(slots: seq<Option<Dev>>, lagOf: map<Dev, Lag>, lags: seq<Lag?>, i: nat, l: Lag)
      requires SlotsHold(slots, lagOf, lags) && l.dev !in lagOf && i <= |lags|
      ensures if i < |lags| then SlotsHold(slots[i := Some(l.dev)], lagOf[l.dev := l], lags[i := l])
              else SlotsHold(slots, lagOf[l.dev := l], lags)
    {
    }

    ghost predicate LagsShared()
      reads this`lagView, this`lagOf, ports`lag, ports`lagTxEnabled, lagOf.Values, lags
    {
      LagStructs() && LagPorts() && LagSlots()
    }

    ghost predicate LagsValid()
      reads this`lagView, this`lagOf, ports`lag, ports`lagTxEnabled, lagOf.Values, lags
    {
      LagsShared() && Lags.Inv(lagView)
    }

    lemma LagsValidParts()
      requires LagsValid()
      ensures LagsShared() && Lags.Inv(lagView)
      ensures |lagView.on| == |ports| && lagOf.Keys == lagView.id.Keys
      ensures forall d {:trigger lagOf[d]} :: d in lagOf ==> lagOf[d].dev == d
    {
    }

    lemma LagsValidFromParts()
      requires LagsShared() && Lags.Inv(lagView)
      ensures LagsValid()
    {
    }

    lemma NoPortOn(dev: Dev)
      requires LagsValid() && dev !in lagOf
      ensures Some(dev) !in lagView.on && forall l :: l in lagOf.Values ==> l.dev != dev
    {
    }

    ghost function LagStructOf(dev: Dev): set<Lag>
      reads this`lagOf
    {
      if dev in lagOf then {lagOf[dev]} else {}
    }

    static lemma SlotsAfterUnmap(slots: seq<Option<Dev>>, lagOf: map<Dev, Lag>, lags: seq<Lag?>, i: nat, dev: Dev)
      requires SlotsHold(slots, lagOf, lags) && i <= |lags|
      requires forall k {:trigger slots[k]} :: 0 <= k < |slots| && slots[k] == Some(dev) ==> k == i
      ensures if i < |lags| then SlotsHold(slots[i := None], lagOf - {dev}, lags[i := null])
              else SlotsHold(slots, lagOf - {dev}, lags)
    {
    }

    lemma NullIffNone(dp: Port, p: nat)
      requires BridgesValid() && LagsValid() && p < |ports| && ports[p] == dp
      ensures Bridges.Inv(bridges) && Lags.Inv(lagView) && |bridges.on| == |lagView.on| == |ports|
      ensures (dp.bridge == null <==> bridges.on[p] == None) && (dp.lag == null <==> lagView.on[p] == None)
    {
    }

    /** dsa_tree_lag_find */
    method LagFind(dev: Dev) returns (l: Lag?)
      requires LagsValid()
      ensures l == if dev in lagOf then lagOf[dev] else null
    {
      hide PortsOn, SwitchTree.SlotsHold;
      for i := 0 to |ports|
        invariant Some(dev) !in lagView.on[..i]
      {
        if ports[i].lag != null && ports[i].lag.dev == dev {
          return ports[i].lag;
        }
      }
      assert lagView.on[..|ports|] == lagView.on;
      return null;
    }

    /** dsa_lag_map: the first free slot, if there is one, and the id after its index. */
    method LagMap(lag: Lag)
      modifies lags, lag`id
      ensures var i := Lags.FirstSlot(old(lags[..]), null);
        if i < lags.Length then lags[..] == old(lags[..])[i := lag] && lag.id == i + 1
        else lags[..] == old(lags[..]) && lag.id == old(lag.id)
    {
      for id := 1 to lags.Length + 1
        invariant lags[..] == old(lags[..]) && lag.id == old(lag.id)
        invariant Lags.FirstSlot(lags[..], null) == Lags.FirstSlot(lags[..], null, id - 1)
      {
        if lags[id - 1] == null {
          lags[id - 1] := lag;
          lag.id := id;
          return;
        }
      }
    }

    /** dsa_lag_unmap: the LAG's slot, if it has one, is free again. */
    method LagUnmap(lag: Lag)
      modifies lags, lag`id
      ensures var i := Lags.FirstSlot(old(lags[..]), lag);
        if i < lags.Length then lags[..] == old(lags[..])[i := null] && lag.id == 0
        else lags[..] == old(lags[..]) && lag.id == old(lag.id)
    {
      for id := 1 to lags.Length + 1
        invariant lags[..] == old(lags[..]) && lag.id == old(lag.id)
        invariant Lags.FirstSlot(lags[..], lag) == Lags.FirstSlot(lags[..], lag, id - 1)
      {
        if lags[id - 1] != null {
          if lags[id - 1] == lag {
            lags[id - 1] := null;
            lag.id := 0;
            return;
          }
        }
      }
    }

    /** What a port points to, and the free places of the array, are what the view says. */
    lemma LagOfPort(dp: Port, p: nat)
      requires LagsValid() && p < |ports| && ports[p] == dp
      ensures |lagView.on| == |ports| && SlotsHold(lagView.slots, lagOf, lags[..])
      ensures lagView.on[p] == None ==> dp.lag == null
      ensures lagView.on[p] != None ==>
        var d := lagView.on[p].value;
        d in lagView.id && d in lagOf && dp.lag == lagOf[d] && dp.lag.dev == d && dp.lag.id == lagView.id[d]
    {
    }

    static lemma SameArray(slots: seq<Option<Dev>>, lagOf: map<Dev, Lag>, a: seq<Lag?>, b: seq<Lag?>)
      requires SlotsHold(slots, lagOf, a) && SlotsHold(slots, lagOf, b)
      ensures a == b
    {
      assert forall i {:trigger a[i]} :: 0 <= i < |a| ==> slots[i] == None || slots[i] != None;
    }

    static lemma NullsAreNones(slots: seq<Option<Dev>>, lagOf: map<Dev, Lag>, a: seq<Lag?>, n: nat)
      requires SlotsHold(slots, lagOf, a) && n <= |a|
      ensures null in a[..n] <==> None in slots[..n]
      ensures forall i {:trigger a[i]} :: 0 <= i < |a| ==> (a[i] == null <==> slots[i] == None)
    {
      assert forall i {:trigger a[i]} :: 0 <= i < |a| ==> (a[i] == null <==> slots[i] == None);
      assert null in a[..n] ==> exists i :: 0 <= i < n && a[..n][i] == null && slots[..n][i] == None;
      assert None in slots[..n] ==> exists i :: 0 <= i < n && slots[..n][i] == None && a[i] == null;
    }

    /** Two arrays that hold what a LAG's join changes in the slots. */
    static lemma ArrayAfterJoin(slots: seq<Option<Dev>>, slots': seq<Option<Dev>>, lagOf: map<Dev, Lag>,
                                was: seq<Lag?>, now: seq<Lag?>, l: Lag, id: nat)
      requires SlotsHold(slots, lagOf, was) && l.dev !in lagOf && SlotsHold(slots', lagOf[l.dev := l], now)
      requires id != 0 <==> None in slots
      requires id == 0 ==> slots' == slots
      requires id != 0 ==> id <= |slots| && slots[id - 1] == None && None !in slots[..id - 1]
                           && slots' == slots[id - 1 := Some(l.dev)]
      ensures FirstFreeTaken(was, now, l, id)
    {
      assert was[..|was|] == was && slots[..|was|] == slots;
      NullsAreNones(slots, lagOf, was, |was|);
      if id != 0 {
        NullsAreNones(slots, lagOf, was, id - 1);
        SlotsAfterMap(slots, lagOf, was, id - 1, l);
        SameArray(slots', lagOf[l.dev := l], now, was[id - 1 := l]);
      } else {
        SlotsAfterMap(slots, lagOf, was, |was|, l);
        SameArray(slots', lagOf[l.dev := l], now, was);
      }
    }

    /** The array is searched as the view is. */
    lemma SlotsAgree()
      requires LagsShared()
      ensures Lags.FirstSlot(lags[..], null) == Lags.FirstSlot(lagView.slots, None)
      ensures forall d {:trigger lagOf[d]} :: d in lagOf ==>
        Lags.FirstSlot(lags[..], lagOf[d]) == Lags.FirstSlot(lagView.slots, Some(d))
    {
    }

    /** A port starts to share the structure of a live LAG. */
    method ShareLag(dp: Port, ghost p: nat, l: Lag)
      requires LagStructs() && LagPorts() && p < |ports| && ports[p] == dp && lagView.on[p] == None
      requires l.dev in lagOf && lagOf[l.dev] == l
      modifies this`lagView, dp`lag, l`refcount
      ensures LagStructs() && LagPorts() && lagView == old(lagView).(on := old(lagView).on[p := Some(l.dev)])
      ensures unchanged(this`lagOf) && unchanged(lags) && dp.lag == l
    {
      hide PortsOn;
      PortsOnAfterFill(lagView.on, p, l.dev);
      l.refcount := l.refcount + 1;
      dp.lag := l;
      lagView := lagView.(on := lagView.on[p := Some(l.dev)]);
      assert lagView.on[p] == Some(l.dev) && ports[p].lag == lagOf[l.dev];
    }

    /** dsa_lag_map for a structure that is not in the array yet, as the view sees it. */
    method MapNewLag(l: Lag) returns (ghost slots: seq<Option<Dev>>)
      requires LagsShared() && l.dev !in lagOf && l !in lagOf.Values && l.id == 0
      modifies lags, l`id
      ensures var i := Lags.FirstSlot(lagView.slots, None);
        && slots == (if i < |lagView.slots| then lagView.slots[i := Some(l.dev)] else lagView.slots)
        && l.id == if i < |lagView.slots| then i + 1 else 0
      ensures SlotsHold(slots, lagOf[l.dev := l], lags[..])
      ensures LagStructs() && LagPorts()
    {
      SlotsAgree();
      ghost var i := Lags.FirstSlot(lagView.slots, None);
      SlotsAfterMap(lagView.slots, lagOf, lags[..], i, l);
      assert |lagView.slots| == lags.Length;
      hide SwitchTree.SlotsHold, SwitchTree.LagStructs, SwitchTree.LagPorts;
      slots := if i < lags.Length then lagView.slots[i := Some(l.dev)] else lagView.slots;
      LagMap(l);
    }

    /** The last part of dsa_port_lag_create: the port points to the new structure of a LAG that no port
        was in. */
    method InstallLag(dp: Port, ghost p: nat, l: Lag, ghost slots: seq<Option<Dev>>)
      requires LagStructs() && LagPorts() && SlotsHold(slots, lagOf[l.dev := l], lags[..])
      requires p < |ports| && ports[p] == dp && lagView.on[p] == None
      requires l !in lagOf.Values && l.dev !in lagOf && Some(l.dev) !in lagView.on && l.refcount == 1
      modifies this`lagView, this`lagOf, dp`lag
      ensures LagsShared() && lagOf == old(lagOf)[l.dev := l] && dp.lag == l
      ensures lagView == Lags.View(old(lagView).on[p := Some(l.dev)], old(lagView).id[l.dev := l.id], slots)
    {
      hide PortsOn;
      PortsOnAfterFill(lagView.on, p, l.dev);
      dp.lag := l;
      lagView := Lags.View(lagView.on[p := Some(l.dev)], lagView.id[l.dev := l.id], slots);
      lagOf := lagOf[l.dev := l];
      assert lagView.on[p] == Some(l.dev) && ports[p].lag == lagOf[l.dev];
    }

    /** dsa_port_lag_create; p is the port's position. */
    method LagCreate(dp: Port, ghost p: nat, dev: Dev, allocOk: bool) returns (ok: bool)
      requires LagsValid() && p < |ports| && ports[p] == dp && lagView.on[p] == None
      modifies this`lagView, this`lagOf, dp`lag, lags, LagStructOf(dev)`refcount
      ensures LagsValid() && (lagView, ok) == Lags.Create(old(lagView), p, dev, allocOk)
      ensures ok ==> dev in lagOf && dp.lag == lagOf[dev]
      ensures ok ==> if dev in old(lagOf) then lagOf == old(lagOf) else fresh(dp.lag) && lagOf == old(lagOf)[dev := dp.lag]
      ensures !ok ==> lagOf == old(lagOf) && dp.lag == null
      ensures ok <==> Some(dev) in old(lagView).on || allocOk
      ensures ok ==> dp.lag != null && dp.lag.dev == dev && lagView.on == old(lagView).on[p := Some(dev)]
      ensures if ok && Some(dev) !in old(lagView).on
              then FirstFreeTaken(old(lags[..]), lags[..], dp.lag, dp.lag.id)
              else lags[..] == old(lags[..])
    {
      hide SwitchTree.LagsValid, SwitchTree.LagStructs, SwitchTree.LagPorts, SwitchTree.SlotsHold, Lags.Inv,
           FirstFreeTaken;
      LagsValidParts();
      LagOfPort(dp, p);
      Lags.CreateKeepsInv(lagView, p, dev, allocOk);
      Lags.JoinGives(lagView, p, dev, allocOk);
      ghost var was, slots, of := lags[..], lagView.slots, lagOf;
      var l := LagFind(dev);
      if l != null {
        ShareLag(dp, p, l);
        ok := true;
      } else if !allocOk {
        return false;
      } else {
        NoPortOn(dev);
        l := new Lag(dev);
        ghost var slots' := MapNewLag(l);
        ArrayAfterJoin(slots, slots', of, was, lags[..], l, l.id);
        InstallLag(dp, p, l, slots');
        ok := true;
      }
      LagsValidFromParts();
      LagOfPort(dp, p);
    }

    /** The port lets go of its LAG structure: the first part of dsa_port_lag_destroy. */
    method DetachLag(dp: Port, ghost p: nat) returns (l: Lag)
      requires LagStructs() && LagPorts() && p < |ports| && ports[p] == dp && lagView.on[p] != None
      modifies this`lagView, dp`lag, dp`lagTxEnabled, dp.lag`refcount
      ensures LagStructs() && LagPorts() && lagView == old(lagView).(on := old(lagView).on[p := None])
      ensures unchanged(this`lagOf) && unchanged(lags) && dp.lag == null && !dp.lagTxEnabled
      ensures l == old(dp.lag) && Some(l.dev) == old(lagView).on[p] && l.dev in lagOf && lagOf[l.dev] == l
      ensures l.dev in lagView.id && (l.refcount == 0 <==> Some(l.dev) !in lagView.on)
    {
      hide PortsOn;
      l := dp.lag;
      assert l == lagOf[lagView.on[p].value] && Some(l.dev) == lagView.on[p];
      PortsOnAfterClear(lagView.on, p);
      dp.lag := null;
      dp.lagTxEnabled := false;
      l.refcount := l.refcount - 1;
      lagView := lagView.(on := lagView.on[p := None]);
      assert lagView.on[p] == None && ports[p].lag == null;
    }

    /** dsa_lag_unmap for a structure that no port points to, as the view sees it. */
    method UnmapOldLag(l: Lag) returns (ghost slots: seq<Option<Dev>>)
      requires LagsShared() && l.dev in lagOf && lagOf[l.dev] == l
      requires forall i :: 0 <= i < |lagView.slots| && lagView.slots[i] == Some(l.dev) ==>
        i == Lags.FirstSlot(lagView.slots, Some(l.dev))
      modifies lags, l`id
      ensures var i := Lags.FirstSlot(lagView.slots, Some(l.dev));
        slots == if i < |lagView.slots| then lagView.slots[i := None] else lagView.slots
      ensures SlotsHold(slots, lagOf - {l.dev}, lags[..])
      ensures LagPorts()
    {
      SlotsAgree();
      ghost var i := Lags.FirstSlot(lagView.slots, Some(l.dev));
      SlotsAfterUnmap(lagView.slots, lagOf, lags[..], i, l.dev);
      assert |lagView.slots| == lags.Length;
      hide SwitchTree.SlotsHold, SwitchTree.LagPorts;
      slots := if i < lags.Length then lagView.slots[i := None] else lagView.slots;
      LagUnmap(l);
    }

    /** A LAG structure that no port points to goes, and its slot is free again. */
    method DropLag(l: Lag)
      requires LagsShared() && l.dev in lagOf && lagOf[l.dev] == l && Some(l.dev) !in lagView.on
      requires forall i :: 0 <= i < |lagView.slots| && lagView.slots[i] == Some(l.dev) ==>
        i == Lags.FirstSlot(lagView.slots, Some(l.dev))
      modifies this`lagView, this`lagOf, lags, l`id
      ensures LagsShared() && lagOf == old(lagOf) - {l.dev}
      ensures var i := Lags.FirstSlot(old(lagView).slots, Some(l.dev));
        lagView == Lags.View(old(lagView).on, old(lagView).id - {l.dev},
                             if i < |old(lagView).slots| then old(lagView).slots[i := None] else old(lagView).slots)
    {
      hide SwitchTree.SlotsHold, Lags.FirstSlot, PortsOn;
      ghost var slots := UnmapOldLag(l);
      lagView := Lags.View(lagView.on, lagView.id - {l.dev}, slots);
      lagOf := lagOf - {l.dev};
    }

    /** dsa_port_lag_destroy */
    method LagDestroy(dp: Port, ghost p: nat)
      requires LagsValid() && p < |ports| && ports[p] == dp && lagView.on[p] != None
      modifies this`lagView, this`lagOf, dp`lag, dp`lagTxEnabled, lags, dp.lag`refcount, dp.lag`id
      ensures LagsValid() && lagView == Lags.Destroy(old(lagView), p) && dp.lag == null && !dp.lagTxEnabled
      ensures lagOf == if old(lagView).on[p].value in lagView.id then old(lagOf)
                       else old(lagOf) - {old(lagView).on[p].value}
    {
      hide SwitchTree.LagsValid, SwitchTree.LagStructs, SwitchTree.LagPorts, SwitchTree.SlotsHold, Lags.Inv;
      LagsValidParts();
      Lags.DestroyKeepsInv(lagView, p);
      Lags.OneSlot(lagView, lagView.on[p].value);
      var l := DetachLag(dp, p);
      if l.refcount == 0 {
        DropLag(l);
      }
      LagsValidFromParts();
    }

    /** dsa_lag_id */
    method LagId(dev: Dev) returns (id: Option<nat>)
      requires LagsValid()
      ensures id == Lags.LagId(lagView, dev)
    {
      for i := 1 to lags.Length + 1
        invariant Lags.FirstSlot(lagView.slots, Some(dev)) == Lags.FirstSlot(lagView.slots, Some(dev), i - 1)
      {
        assert lagView.slots[i - 1] == None ==> lags[..][i - 1] == null;
        if lags[i - 1] != null {
          if lags[i - 1].dev == dev {
            return Some(lags[i - 1].id);
          }
        }
      }
      return None;
    }

    /** dsa_port_lag_change: only a port in a LAG takes part in transmission for one. */
    method LagChange(dp: Port, ghost p: nat, linkUp: bool, txEnabled: bool)
      requires LagsValid() && p < |ports| && ports[p] == dp
      modifies dp`lagTxEnabled
      ensures LagsValid()
      ensures dp.lagTxEnabled <==> dp.lag != null && linkUp && txEnabled
    {
      assert (dp.lag == null <==> lagView.on[p] == None) && (dp.lag == null ==> !dp.lagTxEnabled);
      if dp.lag == null {
        return;
      }
      var enabled := linkUp && txEnabled;
      if enabled == dp.lagTxEnabled {
        return;
      }
      dp.lagTxEnabled := enabled;
    }

    /** The steps of dsa_port_lag_join after dsa_port_lag_create, with its rollback. */
    method OffloadLag(dp: Port, ghost p: nat, notifyOk: bool, master: Option<Dev>, a: Answers)
      returns (err: Bridges.Error)
      requires BridgesValid() && LagsValid() && p < |ports| && ports[p] == dp
      requires bridges.on[p] == None && lagView.on[p] != None && dp.lag != null
      requires JoinFits(bridges, dp.maxNumBridges, notifyOk, master, a)
      modifies this`bridges, this`bridgeOf, this`fwdOffloadingBridges, this`lagView, this`lagOf, lags
      modifies dp`bridge, dp`lag, dp`lagTxEnabled, dp.lag`refcount, dp.lag`id
      modifies JoinFrame(master)`refcount, JoinFrame(master)`txFwdOffload
      ensures BridgesValid() && LagsValid()
      ensures err == JoinResult(old(bridges), p, dp.maxNumBridges, notifyOk, master, a)
      ensures bridges == if err == Bridges.Ok && master != None
                         then Bridges.Create(old(bridges), p, master.value, dp.maxNumBridges, a.allocOk).0
                         else old(bridges)
      ensures master != None ==>
        FlagOf(master.value) == if master.value in bridgeOf && notifyOk && !a.mstRefused && a.notifyOk
                                then Some(a.txFwdOffload) else old(FlagOf(master.value))
      ensures err == Bridges.Ok ==> lagView == old(lagView) && lagOf == old(lagOf)
      ensures err != Bridges.Ok ==> bridgeOf == old(bridgeOf) && lagView == Lags.Destroy(old(lagView), p)
      ensures err != Bridges.Ok ==>
        lagOf == if old(lagView).on[p].value in lagView.id then old(lagOf)
                 else old(lagOf) - {old(lagView).on[p].value}
      ensures err == Bridges.Ok ==> lags[..] == old(lags[..]) && dp.lag == old(dp.lag) && dp.lag.id == old(dp.lag.id)
      ensures err == Bridges.Ok && master != None ==> dp.bridge != null && dp.bridge.dev == master.value
      ensures err != Bridges.Ok ==>
        dp.lag == null && dp.bridge == null && fwdOffloadingBridges == old(fwdOffloadingBridges)
    {
      hide SwitchTree.BridgesValid, SwitchTree.LagsValid, SwitchTree.LagsShared, Lags.Destroy, Bridges.Create,
           Bridges.FreeBelow, Bridges.Held, JoinError;
      BridgeOfPort(dp, p);
      err := Bridges.Refused(Bridges.LagNotifier);
      if notifyOk {
        if master == None {
          return Bridges.Ok;
        }
        err := BridgeJoin(dp, p, master.value, a);
        if err == Bridges.Ok {
          return;
        }
      }
      LagDestroy(dp, p);
    }

    lemma ArrayHoldsSlots()
      requires LagsValid()
      ensures SlotsHold(lagView.slots, lagOf, lags[..]) && lagOf.Keys == lagView.id.Keys
    {
    }

    lemma ArrayIsBack(was: seq<Lag?>)
      requires LagsValid() && SlotsHold(lagView.slots, lagOf, was)
      ensures lags[..] == was
    {
      SameArray(lagView.slots, lagOf, lags[..], was);
    }

    /** dsa_port_lag_join; master is the bridge that the LAG itself is on, if any. On failure at any step
        both views, all structures, counts and pointers, the array and the bitmap are what they were. The
        offload flag of the master's structure is that of the bridge join. */
    method LagJoin(dp: Port, ghost p: nat, dev: Dev, allocOk: bool, notifyOk: bool, master: Option<Dev>, a: Answers)
      returns (err: Bridges.Error)
      requires BridgesValid() && LagsValid() && p < |ports| && ports[p] == dp
      requires bridges.on[p] == None && lagView.on[p] == None
      requires Some(dev) in lagView.on || allocOk ==> JoinFits(bridges, dp.maxNumBridges, notifyOk, master, a)
      modifies this`bridges, this`bridgeOf, this`fwdOffloadingBridges, this`lagView, this`lagOf, lags
      modifies dp`bridge, dp`lag, dp`lagTxEnabled, LagStructOf(dev)`refcount, LagStructOf(dev)`id
      modifies JoinFrame(master)`refcount, JoinFrame(master)`txFwdOffload
      ensures BridgesValid() && LagsValid()
      ensures err == if !Lags.Create(old(lagView), p, dev, allocOk).1 then Bridges.NoMemory
                     else JoinResult(old(bridges), p, dp.maxNumBridges, notifyOk, master, a)
      ensures err == Bridges.Ok ==> lagView == Lags.Create(old(lagView), p, dev, allocOk).0
      ensures bridges == if err == Bridges.Ok && master != None
                         then Bridges.Create(old(bridges), p, master.value, dp.maxNumBridges, a.allocOk).0
                         else old(bridges)
      ensures err != Bridges.Ok ==> lagView == old(lagView) && lagOf == old(lagOf) && bridgeOf == old(bridgeOf)
      ensures var mapped := Lags.Create(old(lagView), p, dev, allocOk).1;
        master != None ==>
          FlagOf(master.value) == if master.value in bridgeOf && mapped && notifyOk && !a.mstRefused && a.notifyOk
                                  then Some(a.txFwdOffload) else old(FlagOf(master.value))
      ensures err == Bridges.Ok <==>
        && (Some(dev) in old(lagView).on || allocOk) && notifyOk
        && (master == None || (!a.mstRefused && CanHave(old(bridges), master.value, dp.maxNumBridges, a.allocOk)
                               && a.notifyOk && a.offloadOk && a.syncOk))
      ensures var mapped := Some(dev) in old(lagView).on || allocOk;
        && (!mapped ==> err == Bridges.NoMemory)
        && (mapped && !notifyOk ==> err == Bridges.Refused(Bridges.LagNotifier))
        && (mapped && notifyOk && master != None ==>
              JoinError(err, old(bridges), master.value, dp.maxNumBridges, a))
      ensures err == Bridges.Ok ==>
        && dp.lag != null && dp.lag.dev == dev && lagView.on == old(lagView).on[p := Some(dev)]
        && (master != None ==> dp.bridge != null && dp.bridge.dev == master.value)
      ensures if err == Bridges.Ok && Some(dev) !in old(lagView).on
              then FirstFreeTaken(old(lags[..]), lags[..], dp.lag, dp.lag.id)
              else lags[..] == old(lags[..])
      ensures err != Bridges.Ok ==>
        dp.lag == null && dp.bridge == null && fwdOffloadingBridges == old(fwdOffloadingBridges)
    {
      hide SwitchTree.BridgesValid, SwitchTree.LagsValid, SwitchTree.LagsShared, SwitchTree.SlotsHold, Lags.Inv,
           Lags.Create, Lags.Destroy, Bridges.Create, Bridges.Inv, JoinResult, JoinError, CanHave, FirstFreeTaken;
      NullIffNone(dp, p);
      ArrayHoldsSlots();
      Lags.DestroyUndoesCreate(lagView, p, dev, allocOk);
      JoinResultIs(bridges, p, dp.maxNumBridges, notifyOk, master, a);
      var ok := LagCreate(dp, p, dev, allocOk);
      if !ok {
        return Bridges.NoMemory;
      }
      ghost var l := dp.lag;
      err := OffloadLag(dp, p, notifyOk, master, a);
      if err != Bridges.Ok {
        if dev !in old(lagOf) {
          RemoveAdded(old(lagOf), dev, l);
        }
        ArrayIsBack(old(lags[..]));
      }
    }

    /** dsa_port_lag_leave: the port leaves the bridge its LAG was on as well. */
    method LagLeave(dp: Port, ghost p: nat)
      requires BridgesValid() && LagsValid() && p < |ports| && ports[p] == dp
      modifies this`bridges, this`bridgeOf, this`fwdOffloadingBridges, this`lagView, this`lagOf, lags
      modifies dp`bridge, dp`lag, dp`lagTxEnabled
      modifies (if dp.bridge == null then {} else {dp.bridge})`refcount
      modifies (if dp.lag == null then {} else {dp.lag})`refcount, (if dp.lag == null then {} else {dp.lag})`id
      ensures BridgesValid() && LagsValid()
      ensures lagView == if old(lagView).on[p] == None then old(lagView) else Lags.Destroy(old(lagView), p)
      ensures bridges == if old(lagView).on[p] == None || old(bridges).on[p] == None then old(bridges)
                         else Bridges.Destroy(old(bridges), p)
    {
      hide SwitchTree.BridgesValid, SwitchTree.LagsValid, SwitchTree.LagsShared, Lags.Destroy, Bridges.Destroy;
      NullIffNone(dp, p);
      if dp.lag == null {
        return;
      }
      if dp.bridge != null {
        BridgeLeave(dp, p);
      }
      LagDestroy(dp, p);
    }
  }

  /** The first two joins of a bridge, with room for its number. */
  lemma FirstJoin(br: Dev)
    ensures var none := Bridges.View([None, None], map[]);
      var (one, err) := Bridges.Create(none, 0, br, 4, true);
      && err == Bridges.Ok && one.on == [Some(br), None] && br in one.num
      && Bridges.Create(one, 1, br, 4, true).1 == Bridges.Ok
  {
  }

  method TwoPorts() returns (tree: SwitchTree, port0: Port, port1: Port)
    ensures fresh(tree) && fresh(port0) && fresh(port1) && port0.maxNumBridges == port1.maxNumBridges == 4
    ensures tree.BridgesValid() && tree.ports == [port0, port1]
    ensures tree.bridges == Bridges.View([None, None], map[])
  {
    port0 := new Port(4);
    port1 := new Port(4);
    tree := new SwitchTree([port0, port1], 0);
    assert tree.bridges.on == [None, None];
  }

  /** A tree of two ports, the first of which is on a bridge whose flag is not set. */
  method OneOfTwoJoined(br: Dev) returns (tree: SwitchTree, port1: Port)
    ensures fresh(tree) && fresh(port1) && fresh(tree.StructOf(br)) && port1.maxNumBridges == 4
    ensures tree.BridgesValid() && |tree.ports| == 2 && tree.ports[1] == port1 && tree.bridges.on == [Some(br), None]
    ensures br in tree.bridges.num && tree.FlagOf(br) == Some(false)
  {
    hide SwitchTree.BridgesValid, Bridges.Create;
    var port0;
    tree, port0, port1 := TwoPorts();
    FirstJoin(br);
    tree.BridgesValidParts();
    var ok := tree.BridgeJoin(port0, 0, br, Answers(false, true, true, false, true, true));
    tree.BridgesValidParts();
  }

  /** The join of the other port fails after the notifier set the flag, and it stays set. */
  method FlagNotPutBack(br: Dev) returns (err: Bridges.Error, before: Option<bool>, after: Option<bool>)
    ensures err == Bridges.Refused(Bridges.SyncAttrs) && before == Some(false) && after == Some(true)
  {
    var tree, port1 := OneOfTwoJoined(br);
    hide SwitchTree.BridgesValid, SwitchTree.StructOf;
    before := tree.Flag(br);
    err := tree.BridgeJoin(port1, 1, br, Answers(false, true, true, true, true, false));
    after := tree.Flag(br);
  }
}
