/** DMA descriptors and the chains that transfer_desc_init lays out in a descriptor ring.

    A descriptor's bus address is modelled by its index in the ring; the null address is None.
    Of the control word only the flags are kept; the magic number in its upper half is constant. */
module Descriptors {
  import opened Wrappers

  const DESC_LIST_NUM := 2

  datatype Desc = Desc(next: Option<nat>, stopped: bool, completed: bool, eop: bool)

  /** The length of one chain: count / DESC_LIST_NUM, but at least 1. */
  function ChainLength(count: nat): nat {
    if count / DESC_LIST_NUM == 0 then 1 else count / DESC_LIST_NUM
  }

  function InitialDesc(i: nat, length: nat): Desc
    requires length > 0
  {
    if i % length == length - 1 then Desc(None, true, true, true)
    else Desc(Some(i + 1), false, true, true)
  }

  /** The contents of a ring of `count` descriptors after initialisation. */
  function InitialRing(count: nat): seq<Desc> {
    seq(count, i requires 0 <= i => InitialDesc(i, ChainLength(count)))
  }

  method TransferDescInit(desc: array<Desc>, listDesc: array<nat>, count: nat)
    requires count <= desc.Length && listDesc.Length == DESC_LIST_NUM
    modifies desc, listDesc
    ensures desc[..count] == InitialRing(count)
    ensures desc[count..] == old(desc[count..])
    ensures listDesc[0] == 0
    ensures count > 0 ==> listDesc[1] == ChainLength(count)
    ensures count == 0 ==> listDesc[1] == old(listDesc[1])
  {
    var tempCount := count / DESC_LIST_NUM;
    if tempCount == 0 {
      tempCount := 1;
    }
    var descBus := 0;
    listDesc[0] := descBus;
    var listCount := 1;
    for i := 0 to count
      invariant descBus == i
      invariant tempCount == ChainLength(count)
      invariant listCount == if i < tempCount then 1 else 2
      invariant listDesc[0] == 0
      invariant listDesc[1] == if i < tempCount then old(listDesc[1]) else tempCount
      invariant forall j :: 0 <= j < i ==> desc[j] == InitialDesc(j, tempCount)
      invariant desc[count..] == old(desc[count..])
    {
      descBus := descBus + 1;
      if i < tempCount {
        SmallMod(i, tempCount);
      }
      if i % tempCount == tempCount - 1 {
        desc[i] := Desc(None, true, true, true);
        if listCount < DESC_LIST_NUM {
          listDesc[listCount] := descBus;
          listCount := listCount + 1;
        }
      } else {
        desc[i] := Desc(Some(descBus), false, true, true);
      }
    }
  }

  /** The descriptors met by following `next` from `at` until the null link. A walk that leaves the
      ring ends with the first index outside it. */
  function Chain(d: seq<Desc>, at: nat, fuel: nat): seq<nat>
    decreases fuel
  {
    if at >= |d| || fuel == 0 || d[at].next.None? then [at]
    else [at] + Chain(d, d[at].next.value, fuel - 1)
  }

  /** The descriptors an engine fetches from `at`: up to and including the first STOPPED one. */
  function Walk(d: seq<Desc>, at: nat, fuel: nat): seq<nat>
    decreases fuel
  {
    if at >= |d| || fuel == 0 || d[at].stopped || d[at].next.None? then [at]
    else [at] + Walk(d, d[at].next.value, fuel - 1)
  }

  function Range(from: nat, n: nat): seq<nat> {
    seq(n, i requires 0 <= i => from + i)
  }

  lemma SmallMod(i: nat, n: nat)
    requires i < 2 * n
    ensures i % n == if i < n then i else i - n
  {
  }

  /** Consecutive links ending in a null link are one chain over a contiguous range. */
  lemma {:induction false} ChainOfSegment(d: seq<Desc>, at: nat, n: nat, fuel: nat)
    requires 0 < n <= fuel && at + n <= |d|
    requires forall j {:trigger d[j]} :: at <= j < at + n - 1 ==> d[j].next == Some(j + 1)
    requires d[at + n - 1].next.None?
    ensures Chain(d, at, fuel) == Range(at, n)
    decreases n
  {
    if n == 1 {
    } else {
      assert d[at].next == Some(at + 1);
      ChainOfSegment(d, at + 1, n - 1, fuel - 1);
    }
  }

  /** Likewise for the engine's walk, when only the last descriptor of the segment is STOPPED. */
  lemma {:induction false} WalkOfSegment(d: seq<Desc>, at: nat, n: nat, fuel: nat)
    requires 0 < n <= fuel && at + n <= |d|
    requires forall j {:trigger d[j]} :: at <= j < at + n - 1 ==> d[j].next == Some(j + 1) && !d[j].stopped
    requires d[at + n - 1].stopped
    ensures Walk(d, at, fuel) == Range(at, n)
    decreases n
  {
    if n == 1 {
    } else {
      assert d[at].next == Some(at + 1);
      WalkOfSegment(d, at + 1, n - 1, fuel - 1);
    }
  }

  /** The links of an initialised ring, without the modulus: two equal chains back to back. */
  lemma InitialLinks(half: nat)
    requires half > 0
    ensures |InitialRing(2 * half)| == 2 * half && ChainLength(2 * half) == half
    ensures forall i {:trigger InitialRing(2 * half)[i]} :: 0 <= i < 2 * half ==>
      var last := i == half - 1 || i == 2 * half - 1;
      InitialRing(2 * half)[i] == Desc(if last then None else Some(i + 1), last, true, true)
  {
  }

  /** The chains headed by list_desc[0] and list_desc[1] visit every descriptor of the ring exactly
      once, in order, if and only if the count is a multiple of DESC_LIST_NUM. */
  lemma ChainsPartitionRing(count: nat)
    requires count > 0
    ensures Chain(InitialRing(count), 0, count) + Chain(InitialRing(count), ChainLength(count), count) == Range(0, count)
      <==> count % DESC_LIST_NUM == 0
    ensures count % DESC_LIST_NUM == 0 ==>
      var half := count / DESC_LIST_NUM;
      && Chain(InitialRing(count), 0, count) == Range(0, half)
      && Chain(InitialRing(count), half, count) == Range(half, half)
      && forall i {:trigger InitialRing(count)[i]} :: 0 <= i < count ==>
           (InitialRing(count)[i].stopped <==> InitialRing(count)[i].next.None?)
  {
    var d, n := InitialRing(count), ChainLength(count);
    forall j | 0 <= j < count && j < 2 * n
      ensures d[j] == InitialDesc(j, n) && j % n == if j < n then j else j - n
    {
      SmallMod(j, n);
    }
    ChainOfSegment(d, 0, n, count);
    if count > 1 {
      ChainOfSegment(d, n, n, count);
      assert Range(0, n) + Range(n, n) == Range(0, 2 * n);
      assert |Range(0, 2 * n)| == 2 * n && |Range(0, count)| == count;
    } else {
      assert Chain(d, n, count) == [1];
      assert |Range(0, 1) + [1]| == 2 && |Range(0, 1)| == 1;
    }
  }

  /** With a count of 3 the chains have one descriptor each, and the third is in neither. */
  lemma OddCountMissesOne()
    ensures Chain(InitialRing(3), 0, 3) + Chain(InitialRing(3), ChainLength(3), 3) == [0, 1]
  {
  }
}
