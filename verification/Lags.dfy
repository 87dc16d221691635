/** Which LAG each port of a tree is in, and the linear LAG ids. */
module Lags {
  import opened Entities
  import opened Wrappers

  /** The LAG device each port is in, the id of each such device, and the tree's lags array; ids start
      at 1, the array at 0, and id 0 is none. */
  datatype View = View(on: seq<Option<Dev>>, id: map<Dev, nat>, slots: seq<Option<Dev>>)

  /** The first position from i on that holds x, or the length of the array. */
  function FirstSlot<T(==)>(slots: seq<T>, x: T, i: nat := 0): (r: nat)
    requires i <= |slots|
    ensures i <= r <= |slots|
    ensures r < |slots| ==> slots[r] == x
    ensures forall j {:trigger slots[j]} :: i <= j < r ==> slots[j] != x
    decreases |slots| - i
  {
    if i == |slots| || slots[i] == x then i else FirstSlot(slots, x, i + 1)
  }

  /** dsa_port_lag_create by port p, with dsa_lag_map. */
  function Create(v: View, p: nat, dev: Dev, allocOk: bool): (View, bool)
    requires p < |v.on|
  {
    if dev in v.id then (v.(on := v.on[p := Some(dev)]), true)
    else if !allocOk then (v, false)
    else
      var i := FirstSlot(v.slots, None);
      if i < |v.slots| then (View(v.on[p := Some(dev)], v.id[dev := i + 1], v.slots[i := Some(dev)]), true)
      else (View(v.on[p := Some(dev)], v.id[dev := 0], v.slots), true)
  }

  /** dsa_port_lag_destroy by port p; the last port's leave does dsa_lag_unmap. */
  function Destroy(v: View, p: nat): View
    requires p < |v.on| && v.on[p].Some?
  {
    var on, dev := v.on[p := None], v.on[p].value;
    if v.on[p] in on then v.(on := on)
    else
      var i := FirstSlot(v.slots, Some(dev));
      View(on, v.id - {dev}, if i < |v.slots| then v.slots[i := None] else v.slots)
  }

  /** dsa_lag_id: the id of the LAG found in the array for this device, if any. */
  function LagId(v: View, dev: Dev): Option<nat> {
    if FirstSlot(v.slots, Some(dev)) < |v.slots| && dev in v.id then Some(v.id[dev]) else None
  }

  /** dsa_lag_by_id */
  function LagById(v: View, id: nat): Option<Dev>
    requires 1 <= id <= |v.slots|
  {
    v.slots[id - 1]
  }

  /** The devices that have an id, possibly 0, are those that some port is in. */
  ghost predicate Live(on: seq<Option<Dev>>, id: map<Dev, nat>) {
    forall d: Dev {:trigger d in id} :: d in id <==> Some(d) in on
  }

  /** A slot holds exactly the device whose id points at it. */
  ghost predicate Slotted(id: map<Dev, nat>, slots: seq<Option<Dev>>) {
    && (forall i {:trigger slots[i]} :: 0 <= i < |slots| && slots[i].Some? ==>
          slots[i].value in id && id[slots[i].value] == i + 1)
    && (forall d {:trigger id[d]} :: d in id && id[d] != 0 ==>
          id[d] <= |slots| && slots[id[d] - 1] == Some(d))
  }

  ghost predicate Inv(v: View) {
    Live(v.on, v.id) && Slotted(v.id, v.slots)
  }

  lemma FillKeepsSlotted(id: map<Dev, nat>, slots: seq<Option<Dev>>, dev: Dev, i: nat)
    requires Slotted(id, slots) && dev !in id && i < |slots| && slots[i].None?
    ensures Slotted(id[dev := i + 1], slots[i := Some(dev)])
  {
    var id', slots' := id[dev := i + 1], slots[i := Some(dev)];
    forall j | 0 <= j < |slots'| && slots'[j].Some?
      ensures slots'[j].value in id' && id'[slots'[j].value] == j + 1
    {
      assert j != i ==> slots'[j] == slots[j];
    }
    forall d | d in id' && id'[d] != 0
      ensures id'[d] <= |slots'| && slots'[id'[d] - 1] == Some(d)
    {
      assert d != dev ==> id'[d] == id[d];
    }
  }

  lemma UnmappedKeepsSlotted(id: map<Dev, nat>, slots: seq<Option<Dev>>, dev: Dev)
    requires Slotted(id, slots) && dev !in id
    ensures Slotted(id[dev := 0], slots)
  {
  }

  lemma CreateKeepsInv(v: View, p: nat, dev: Dev, allocOk: bool)
    requires Inv(v) && p < |v.on| && v.on[p].None?
    ensures Inv(Create(v, p, dev, allocOk).0)
  {
    hide Slotted, FirstSlot;
    var i := FirstSlot(v.slots, None);
    if dev !in v.id {
      UnmappedKeepsSlotted(v.id, v.slots, dev);
      if i < |v.slots| {
        FillKeepsSlotted(v.id, v.slots, dev, i);
      }
    }
    PresentAfterFill(v.on, p, dev);
  }

  lemma DestroyKeepsInv(v: View, p: nat)
    requires Inv(v) && p < |v.on| && v.on[p].Some?
    ensures Inv(Destroy(v, p))
  {
    var v', on := Destroy(v, p), v.on[p := None];
    forall d: Dev
      ensures d in v'.id <==> Some(d) in v'.on
    {
      if Some(d) in v.on && Some(d) != v.on[p] {
        var i :| 0 <= i < |v.on| && v.on[i] == Some(d);
        assert on[i] == Some(d);
      }
    }
  }

  lemma OneSlot(v: View, dev: Dev)
    requires Inv(v)
    ensures forall i {:trigger v.slots[i]} :: 0 <= i < |v.slots| && v.slots[i] == Some(dev) ==>
      i == FirstSlot(v.slots, Some(dev))
  {
  }

  /** Rollback: leaving right after a successful join restores the view, and a failed one changes
      nothing. */
  lemma DestroyUndoesCreate(v: View, p: nat, dev: Dev, allocOk: bool)
    requires Inv(v) && p < |v.on| && v.on[p] == None
    ensures var (v', ok) := Create(v, p, dev, allocOk);
      if ok then v'.on[p] == Some(dev) && Destroy(v', p) == v else v' == v && dev !in v.id
  {
    var (v', ok) := Create(v, p, dev, allocOk);
    assert v.on[p := Some(dev)][p := None] == v.on;
    if dev !in v.id && ok {
      assert v'.id - {dev} == v.id;
      assert Some(dev) !in v.slots;
      assert FirstSlot(v.slots, None) < |v.slots| ==> v'.slots[FirstSlot(v.slots, None) := None] == v.slots;
    }
  }

  lemma NotBefore<T>(slots: seq<T>, x: T)
    ensures var i := FirstSlot(slots, x); x !in slots[..i] && (x in slots <==> i < |slots|)
  {
    var i := FirstSlot(slots, x);
    assert slots[..i] == slots || i < |slots|;
  }

  /** What a join gives: the port is in the LAG; and a LAG that no port was in gets the first free slot and
      the id after its position, or id 0 if and only if no slot is free. It fails exactly when memory is
      wanted for a new LAG and there is none, and then changes nothing. */
  lemma JoinGives(v: View, p: nat, dev: Dev, allocOk: bool)
    requires Inv(v) && p < |v.on|
    ensures dev in v.id <==> Some(dev) in v.on
    ensures var (v', ok) := Create(v, p, dev, allocOk);
      && (ok <==> Some(dev) in v.on || allocOk)
      && (!ok ==> v' == v)
      && (ok ==> v'.on == v.on[p := Some(dev)] && dev in v'.id)
      && (Some(dev) in v.on ==> v'.id == v.id && v'.slots == v.slots)
      && (ok && Some(dev) !in v.on ==>
            && v'.id == v.id[dev := v'.id[dev]]
            && (v'.id[dev] != 0 <==> None in v.slots)
            && (v'.id[dev] == 0 ==> v'.slots == v.slots)
            && (v'.id[dev] != 0 ==>
                  var i := v'.id[dev] - 1;
                  && i < |v.slots| && v.slots[i] == None && None !in v.slots[..i]
                  && v'.slots == v.slots[i := Some(dev)]))
  {
    NotBefore(v.slots, None);
    assert Live(v.on, v.id);
    hide Slotted, FirstSlot;
  }

  /** dsa_lag_id and dsa_lag_by_id translate back and forth; a live LAG has no id exactly when its id
      is 0. */
  lemma IdsTranslate(v: View, dev: Dev)
    requires Inv(v)
    ensures LagId(v, dev).Some? <==> Some(dev) in v.on && v.id[dev] != 0
    ensures LagId(v, dev).Some? ==>
      1 <= LagId(v, dev).value <= |v.slots| && LagById(v, LagId(v, dev).value) == Some(dev)
  {
  }

  lemma IdsTranslateBack(v: View, id: nat)
    requires Inv(v) && 1 <= id <= |v.slots| && LagById(v, id).Some?
    ensures LagId(v, LagById(v, id).value) == Some(id)
  {
  }

  // ----- every run of joins and leaves -----

  datatype Call = Join(p: nat, dev: Dev, allocOk: bool) | Leave(p: nat)

  ghost predicate Allowed(v: View, c: Call) {
    c.p < |v.on| && (c.Join? ==> v.on[c.p].None?)
  }

  function Next(v: View, c: Call): View
    requires c.p < |v.on|
  {
    match c
    case Join(p, dev, allocOk) => Create(v, p, dev, allocOk).0
    case Leave(p) => if v.on[p].Some? then Destroy(v, p) else v
  }

  ghost predicate ValidRun(v: View, cs: seq<Call>)
    decreases |cs|
  {
    cs == [] || (Allowed(v, cs[0]) && ValidRun(Next(v, cs[0]), cs[1..]))
  }

  ghost function Run(v: View, cs: seq<Call>): View
    requires ValidRun(v, cs)
    decreases |cs|
  {
    if cs == [] then v else Run(Next(v, cs[0]), cs[1..])
  }

  lemma {:induction false} RunKeepsInv(v: View, cs: seq<Call>)
    requires Inv(v) && ValidRun(v, cs)
    ensures Inv(Run(v, cs))
    decreases |cs|
  {
    if cs == [] {
    } else {
      match cs[0] {
        case Join(p, dev, allocOk) => CreateKeepsInv(v, p, dev, allocOk);
        case Leave(p) =>
          if v.on[p].Some? {
            DestroyKeepsInv(v, p);
          }
      }
      RunKeepsInv(Next(v, cs[0]), cs[1..]);
    }
  }
}
