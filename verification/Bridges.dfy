/** Which bridge each port of a tree is on, and the numbers of the offloaded bridges. */
module Bridges {
  import opened Entities
  import opened Wrappers

  /** DSA_MAX_NUM_OFFLOADING_BRIDGES: the bits of dsa_fwd_offloading_bridges. */
  const BITS_PER_LONG := 64

  /** The calls of a join that may return an error of their own. */
  datatype Step = LagNotifier | Notifier | Offload | SyncAttrs

  /** Results of the operations on bridges and LAGs. */
  datatype Error = Ok | NoMemory | NotSupported | Refused(step: Step)

  /** The device each port is on, and the number of each device that some port is on; 0 is none. */
  datatype View = View(on: seq<Option<Dev>>, num: map<Dev, nat>)

  /** dsa_fwd_offloading_bridges, as the set of its bits. */
  function BitsOf(num: map<Dev, nat>): set<nat> {
    set d | d in num && num[d] != 0 :: num[d]
  }

  /** find_next_zero_bit(bits, BITS_PER_LONG, from) */
  function NextZeroBit(bits: set<nat>, from: nat): (n: nat)
    requires from <= BITS_PER_LONG
    ensures from <= n <= BITS_PER_LONG
    ensures n < BITS_PER_LONG ==> n !in bits
    ensures forall k :: from <= k < n ==> k in bits
    decreases BITS_PER_LONG - from
  {
    if from == BITS_PER_LONG || from !in bits then from else NextZeroBit(bits, from + 1)
  }

  /** dsa_bridge_num_get for a bridge that has no number yet; 0 when there is none to give. */
  function NumGet(bits: set<nat>, max: nat): nat {
    var n := NextZeroBit(bits, 1);
    if max == 0 || n >= max then 0 else n
  }

  /** The number given is a bit of the word if and only if the driver's maximum is at most the word's
      size or some bit is free; otherwise it is the one just outside the word. */
  lemma NumFitsWord(bits: set<nat>, max: nat)
    ensures NumGet(bits, max) < BITS_PER_LONG <==>
      max <= BITS_PER_LONG || !forall k {:trigger k in bits} :: 1 <= k < BITS_PER_LONG ==> k in bits
    ensures NumGet(bits, max) <= BITS_PER_LONG
  {
  }

  /** dsa_bridge_num_get: a device that has a number keeps it. */
  function NumGetFor(v: View, br: Dev, max: nat): nat {
    if max == 0 then 0
    else if br in v.num && v.num[br] != 0 then v.num[br]
    else NumGet(BitsOf(v.num), max)
  }

  lemma BitsAfterAdd(v: View, br: Dev, n: nat)
    requires br !in v.num
    ensures BitsOf(v.num[br := n]) == BitsOf(v.num) + if n == 0 then {} else {n}
  {
    var num' := v.num[br := n];
    forall d | d in v.num && v.num[d] != 0
      ensures v.num[d] in BitsOf(num')
    {
      assert num'[d] == v.num[d];
    }
    assert num'[br] == n;
  }

  /** Numbers being distinct, a device that goes clears its own bit only. */
  lemma BitsAfterRemove(v: View, br: Dev)
    requires Inv(v) && br in v.num
    ensures BitsOf(v.num - {br}) == BitsOf(v.num) - {v.num[br]}
  {
    var num' := v.num - {br};
    forall d | d in v.num && v.num[d] != 0 && d != br
      ensures v.num[d] in BitsOf(num')
    {
      assert d in num' && num'[d] == v.num[d];
    }
  }

  lemma BitsAfterDestroy(v: View, p: nat)
    requires Inv(v) && p < |v.on| && v.on[p].Some?
    ensures v.on[p].value in v.num
    ensures BitsOf(v.num - {v.on[p].value}) == BitsOf(v.num) - {v.num[v.on[p].value]}
  {
    BitsAfterRemove(v, v.on[p].value);
  }

  /** dsa_port_bridge_create by port p, on a switch with this maximum. */
  function Create(v: View, p: nat, br: Dev, max: nat, allocOk: bool): (View, Error)
    requires p < |v.on|
  {
    if br in v.num then (v.(on := v.on[p := Some(br)]), Ok)
    else if !allocOk then (v, NoMemory)
    else
      var n := NumGet(BitsOf(v.num), max);
      if max != 0 && n == 0 then (v, NotSupported)
      else (View(v.on[p := Some(br)], v.num[br := n]), Ok)
  }

  /** dsa_port_bridge_destroy by port p: the last port takes the device's number with it. */
  function Destroy(v: View, p: nat): View
    requires p < |v.on| && v.on[p].Some?
  {
    var on := v.on[p := None];
    if v.on[p] in on then v.(on := on) else View(on, v.num - {v.on[p].value})
  }

  /** The devices that have a number are those that some port is on; live numbers are bits of the
      word, and no two bridges share one. */
  ghost predicate Inv(v: View) {
    && (forall d: Dev {:trigger d in v.num} :: d in v.num <==> Some(d) in v.on)
    && (forall d {:trigger v.num[d]} :: d in v.num ==> v.num[d] < BITS_PER_LONG)
    && (forall d, e {:trigger v.num[d], v.num[e]} ::
          d in v.num && e in v.num && d != e && v.num[d] != 0 ==> v.num[d] != v.num[e])
  }

  /** Every bit that the search looks at is set. */
  ghost predicate WordFull(v: View) {
    forall k {:trigger k in BitsOf(v.num)} :: 1 <= k < BITS_PER_LONG ==> k in BitsOf(v.num)
  }

  /** The join gives a new bridge the number just outside the word, and sets a bit there. */
  ghost predicate Overflows(v: View, br: Dev, max: nat, allocOk: bool) {
    br !in v.num && allocOk && max > BITS_PER_LONG && WordFull(v)
  }

  lemma NewNumberKeepsInv(v: View, p: nat, br: Dev, n: nat)
    requires Inv(v) && p < |v.on| && v.on[p].None? && br !in v.num
    requires n != 0 ==> n !in BitsOf(v.num)
    ensures Inv(View(v.on[p := Some(br)], v.num[br := n])) <==> n < BITS_PER_LONG
  {
    PresentAfterFill(v.on, p, br);
    var num' := v.num[br := n];
    assert num'[br] == n;
    forall d | d in v.num && v.num[d] != 0
      ensures v.num[d] in BitsOf(v.num)
    {
    }
  }

  /** A join keeps the invariant if and only if its number does not overflow the word. */
  lemma CreateKeepsInv(v: View, p: nat, br: Dev, max: nat, allocOk: bool)
    requires Inv(v) && p < |v.on| && v.on[p].None?
    ensures Inv(Create(v, p, br, max, allocOk).0) <==> !Overflows(v, br, max, allocOk)
    ensures Create(v, p, br, max, allocOk).1 == Ok && br !in v.num && max != 0 ==>
      1 <= Create(v, p, br, max, allocOk).0.num[br] < max
  {
    if br in v.num {
      PresentAfterFill(v.on, p, br);
    } else {
      var n := NumGet(BitsOf(v.num), max);
      NumFitsWord(BitsOf(v.num), max);
      assert forall d {:trigger v.num[d]} :: d in v.num ==> v.num[d] < BITS_PER_LONG;
      NewNumberKeepsInv(v, p, br, n);
      hide Inv;
    }
  }

  /** Bridges 0 to n with the numbers from 1 on. */
  ghost function Numbered(n: nat): (num: map<Dev, nat>)
    ensures forall d: Dev {:trigger d in num} {:trigger num[d]} :: (d in num <==> d < n) && (d < n ==> num[d] == d + 1)
  {
    if n == 0 then map[] else Numbered(n - 1)[n - 1 := n]
  }

  /** 63 of 64 ports, each on a bridge of its own. */
  ghost function WordFullView(): View {
    View(seq(64, i => if i < 63 then Some(i) else None), Numbered(63))
  }

  /** The driver's maximum may be above the word's size: here 63 bridges hold all its bits, and the next
      join is given the number 64. */
  lemma NumberPastWord()
    ensures var v := WordFullView();
      && Inv(v) && Overflows(v, 63, 65, true)
      && Create(v, 63, 63, 65, true).1 == Ok && Create(v, 63, 63, 65, true).0.num[63] == BITS_PER_LONG
  {
    var v := WordFullView();
    forall d: Dev
      ensures d in v.num <==> Some(d) in v.on
    {
      assert d < 63 ==> v.on[d] == Some(d);
    }
    forall k | 1 <= k < BITS_PER_LONG
      ensures k in BitsOf(v.num)
    {
      assert v.num[k - 1] == k;
    }
  }

  lemma DestroyKeepsInv(v: View, p: nat)
    requires Inv(v) && p < |v.on| && v.on[p].Some?
    ensures Inv(Destroy(v, p))
  {
    var v', on := Destroy(v, p), v.on[p := None];
    forall d: Dev
      ensures d in v'.num <==> Some(d) in v'.on
    {
      if Some(d) in v.on && Some(d) != v.on[p] {
        var i :| 0 <= i < |v.on| && v.on[i] == Some(d);
        assert on[i] == Some(d);
      }
    }
  }

  /** Rollback: leaving right after a successful join restores the view, and a failed one changes nothing. */
  lemma DestroyUndoesCreate(v: View, p: nat, br: Dev, max: nat, allocOk: bool)
    requires Inv(v) && p < |v.on| && v.on[p] == None
    ensures var (v', err) := Create(v, p, br, max, allocOk);
      if err == Ok then v'.on[p] == Some(br) && Destroy(v', p) == v else v' == v && br !in v.num
  {
    var (v', err) := Create(v, p, br, max, allocOk);
    assert v.on[p := Some(br)][p := None] == v.on;
    assert br !in v.num && err == Ok ==> v'.num - {br} == v.num;
  }

  /** Some live bridge has this number. */
  ghost predicate Held(v: View, n: nat) {
    exists d :: d in v.num && v.num[d] == n
  }

  /** Some number below the maximum is free. */
  ghost predicate FreeBelow(v: View, max: nat) {
    exists n: nat {:trigger Held(v, n)} :: 1 <= n < max && !Held(v, n)
  }

  lemma BitsAreHeld(v: View, n: nat)
    requires n != 0
    ensures Held(v, n) <==> n in BitsOf(v.num)
  {
    if n in BitsOf(v.num) {
      var d :| d in v.num && v.num[d] != 0 && v.num[d] == n;
    }
    if d :| d in v.num && v.num[d] == n {
      assert v.num[d] in BitsOf(v.num);
    }
  }

  /** The number found for a bridge that has none: the lowest from 1 on that no live bridge holds. */
  lemma LowestFree(v: View)
    requires Inv(v)
    ensures var n := NextZeroBit(BitsOf(v.num), 1);
      1 <= n && !Held(v, n) && forall k: nat {:trigger Held(v, k)} :: 1 <= k < n ==> Held(v, k)
  {
    var n := NextZeroBit(BitsOf(v.num), 1);
    if n == BITS_PER_LONG {
      assert !Held(v, n);
    } else {
      BitsAreHeld(v, n);
    }
    forall k: nat {:trigger Held(v, k)} | 1 <= k < n
      ensures Held(v, k)
    {
      BitsAreHeld(v, k);
    }
  }

  /** What a join gives: the port is on the bridge, and a bridge that no port was on has the lowest number
      that no live bridge holds, or none if the driver's maximum is 0. It fails for want of memory or of a
      number below the maximum, and then changes nothing. */
  lemma JoinGives(v: View, p: nat, br: Dev, max: nat, allocOk: bool)
    requires Inv(v) && p < |v.on|
    ensures var (v', err) := Create(v, p, br, max, allocOk);
      && (err == NoMemory <==> br !in v.num && !allocOk)
      && (err == NotSupported <==> br !in v.num && allocOk && max != 0
                                   && forall n: nat {:trigger Held(v, n)} :: 1 <= n < max ==> Held(v, n))
      && (err == Ok || err == NoMemory || err == NotSupported)
      && (err != Ok ==> v' == v)
      && (err == Ok ==> v'.on == v.on[p := Some(br)] && br in v'.num)
      && (br in v.num ==> v'.num == v.num)
      && (err == Ok && br !in v.num ==>
            var n := v'.num[br];
            && v'.num == v.num[br := n]
            && (max == 0 ==> n == 0)
            && (max != 0 ==> 1 <= n < max && !Held(v, n)
                             && forall k: nat {:trigger Held(v, k)} :: 1 <= k < n ==> Held(v, k)))
  {
    LowestFree(v);
    hide Held, BitsOf, NextZeroBit, Inv;
  }

  /** A bridge that has a number keeps it; without a maximum there are no numbers. */
  lemma NumberIsKept(v: View, br: Dev, max: nat)
    requires Inv(v)
    ensures var n := NumGetFor(v, br, max);
      && (max == 0 ==> n == 0)
      && (max != 0 && br in v.num && v.num[br] != 0 ==> n == v.num[br])
      && (max != 0 && !(br in v.num && v.num[br] != 0) ==>
            if n == 0 then forall k: nat {:trigger Held(v, k)} :: 1 <= k < max ==> Held(v, k)
            else n < max && !Held(v, n) && forall k: nat {:trigger Held(v, k)} :: 1 <= k < n ==> Held(v, k))
  {
    LowestFree(v);
    hide Held, BitsOf, NextZeroBit, Inv;
  }

  /** The range is reported as exceeded exactly when every number below the maximum is held by a live
      bridge. */
  lemma ExceededMeansAllHeld(v: View, p: nat, br: Dev, max: nat)
    requires Inv(v) && p < |v.on|
    ensures Create(v, p, br, max, true).1 == NotSupported <==>
      br !in v.num && max != 0 && forall n: nat {:trigger Held(v, n)} :: 1 <= n < max ==> Held(v, n)
  {
    JoinGives(v, p, br, max, true);
  }

  // ----- every run of joins and leaves -----

  datatype Call = Join(p: nat, br: Dev, max: nat, allocOk: bool) | Leave(p: nat)

  /** Only a port that is on no bridge joins one; leaving when on none does nothing. */
  ghost predicate Allowed(v: View, c: Call) {
    c.p < |v.on| && (c.Join? ==> v.on[c.p].None?)
  }

  function Next(v: View, c: Call): View
    requires c.p < |v.on|
  {
    match c
    case Join(p, br, max, allocOk) => Create(v, p, br, max, allocOk).0
    case Leave(p) => if v.on[p].Some? then Destroy(v, p) else v
  }

  ghost predicate ValidRun(v: View, cs: seq<Call>)
    decreases |cs|
  {
    cs == [] || (Allowed(v, cs[0]) && ValidRun(Next(v, cs[0]), cs[1..]))
  }

  ghost function Run(v: View, cs: seq<Call>): View
    requires ValidRun(v, cs)
    decreases |cs|
  {
    if cs == [] then v else Run(Next(v, cs[0]), cs[1..])
  }

  /** The invariant holds before the run and after each of its calls. */
  ghost predicate AlwaysInv(v: View, cs: seq<Call>)
    requires ValidRun(v, cs)
    decreases |cs|
  {
    Inv(v) && (cs == [] || AlwaysInv(Next(v, cs[0]), cs[1..]))
  }

  ghost predicate CallOverflows(v: View, c: Call) {
    c.Join? && Overflows(v, c.br, c.max, c.allocOk)
  }

  /** No join of the run gives a number that overflows the word. */
  ghost predicate NeverOverflows(v: View, cs: seq<Call>)
    requires ValidRun(v, cs)
    decreases |cs|
  {
    cs == [] || (!CallOverflows(v, cs[0]) && NeverOverflows(Next(v, cs[0]), cs[1..]))
  }

  lemma StepKeepsInv(v: View, c: Call)
    requires Inv(v) && Allowed(v, c)
    ensures Inv(Next(v, c)) <==> !CallOverflows(v, c)
  {
    match c
    case Join(p, br, max, allocOk) => CreateKeepsInv(v, p, br, max, allocOk);
    case Leave(p) =>
      if v.on[p].Some? {
        DestroyKeepsInv(v, p);
      }
  }

  /** Over every run of joins and leaves in one tree, for every driver's maximum: the invariant holds
      throughout if and only if no number overflows the word. */
  lemma {:induction false} RunKeepsInv(v: View, cs: seq<Call>)
    requires Inv(v) && ValidRun(v, cs)
    ensures AlwaysInv(v, cs) <==> NeverOverflows(v, cs)
    ensures NeverOverflows(v, cs) ==> Inv(Run(v, cs))
    decreases |cs|
  {
    hide Inv, Next, CallOverflows;
    if cs == [] {
    } else {
      StepKeepsInv(v, cs[0]);
      if !CallOverflows(v, cs[0]) {
        RunKeepsInv(Next(v, cs[0]), cs[1..]);
      }
    }
  }

  /** Which none does if the maxima are at most the word's size. */
  lemma {:induction false} SmallMaximaFit(v: View, cs: seq<Call>)
    requires ValidRun(v, cs) && forall i {:trigger cs[i]} :: 0 <= i < |cs| && cs[i].Join? ==> cs[i].max <= BITS_PER_LONG
    ensures NeverOverflows(v, cs)
    decreases |cs|
  {
    hide Next;
    if cs == [] {
    } else {
      SmallMaximaFit(Next(v, cs[0]), cs[1..]);
    }
  }
}
