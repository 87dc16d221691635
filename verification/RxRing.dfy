/** The card-to-host receive ring: the hardware completes slots in ring order, and ax_net_rx delivers
    completed slots from `cur_rx` on, up to a budget. */
module RxRing {
  /** A write-back result and the packet buffer beside it. */
  datatype Slot<B> = Slot(status: nat, length: nat, data: seq<B>)

  /** C2H_WB, whose upper 16 bits mark a completed slot. */
  const C2H_WB := 0x52B40000

  predicate Completed<B>(s: Slot<B>) {
    s.status / 0x10000 == C2H_WB / 0x10000
  }

  /** The mark is 52B4 in the upper half of a 32-bit status; the lower half does not matter. */
  lemma CompletedIff<B>(s: Slot<B>)
    ensures Completed(s) <==> 0x52B4_0000 <= s.status <= 0x52B4_FFFF
  {
  }

  predicate Fits<B>(s: Slot<B>) {
    s.length <= |s.data|
  }

  function FrameOf<B>(s: Slot<B>): seq<B>
    requires Fits(s)
  {
    s.data[..s.length]
  }

  function Cleared<B>(s: Slot<B>): Slot<B> {
    s.(status := 0, length := 0)
  }

  /** What a poll leaves behind: the ring, the next slot to read, the packets counted, the frames. */
  datatype Polled<B> = Polled(slots: seq<Slot<B>>, cur: nat, workDone: int, delivered: seq<seq<B>>)

  predicate Ring<B>(slots: seq<Slot<B>>, cur: nat) {
    cur < |slots| && forall i {:trigger slots[i]} :: 0 <= i < |slots| ==> Fits(slots[i])
  }

  /** ax_net_rx; `alloc(w)` says whether the socket buffer for the packet counted w is allocated. */
  function NetRx<B>(slots: seq<Slot<B>>, cur: nat, workDone: int, budget: int, alloc: int -> bool): Polled<B>
    requires Ring(slots, cur)
    decreases budget - workDone
  {
    if !Completed(slots[cur]) || budget == 0 || workDone >= budget || !alloc(workDone) then
      Polled(slots, cur, workDone, [])
    else
      var rest := NetRx(slots[cur := Cleared(slots[cur])], (cur + 1) % |slots|, workDone + 1, budget, alloc);
      rest.(delivered := [FrameOf(slots[cur])] + rest.delivered)
  }

  function Prepend<B>(frames: seq<seq<B>>, r: Polled<B>): Polled<B> {
    r.(delivered := frames + r.delivered)
  }

  /** One turn of the loop: delivering the frame at `cur` now or as the head of the rest is the same. */
  lemma NetRxTurn<B>(frames: seq<seq<B>>, slots: seq<Slot<B>>, cur: nat, w: int, budget: int, alloc: int -> bool)
    requires Ring(slots, cur) && Completed(slots[cur]) && budget != 0 && w < budget && alloc(w)
    ensures var slots', cur' := slots[cur := Cleared(slots[cur])], (cur + 1) % |slots|;
      && Ring(slots', cur')
      && Prepend(frames, NetRx(slots, cur, w, budget, alloc))
           == Prepend(frames + [FrameOf(slots[cur])], NetRx(slots', cur', w + 1, budget, alloc))
  {
  }

  /** The j-th slot from `cur`, for j up to the size n of the ring. */
  function At(cur: nat, j: nat, n: nat): nat
    requires cur < n && j <= n
  {
    if cur + j < n then cur + j else cur + j - n
  }

  lemma AtNext(cur: nat, j: nat, n: nat)
    requires cur < n && j <= n
    ensures (cur + 1) % n == At(cur, 1, n) < n
    ensures j < n ==> At(At(cur, 1, n), j, n) == At(cur, j + 1, n)
  {
  }

  /** The slots cleared by a poll that delivered k frames. */
  predicate InRun(i: nat, cur: nat, k: nat, n: nat)
    requires cur < n
  {
    i < n && if i >= cur then i - cur < k else i + n - cur < k
  }

  /** A poll delivers the frames of a contiguous run of completed slots starting at `cur`, in ring
      order, and moves `cur` past exactly those. */
  lemma {:induction false} PollDeliversRun<B>(slots: seq<Slot<B>>, cur: nat, w: int, budget: int, alloc: int -> bool)
    requires Ring(slots, cur)
    ensures var r, n := NetRx(slots, cur, w, budget, alloc), |slots|;
      var k := |r.delivered|;
      && k == r.workDone - w <= n && (k == 0 || r.workDone <= budget)
      && r.cur == At(cur, k, n) && |r.slots| == n && Ring(r.slots, r.cur)
      && (forall j {:trigger r.delivered[j]} {:trigger At(cur, j, n)} :: 0 <= j < k ==>
            Completed(slots[At(cur, j, n)]) && r.delivered[j] == FrameOf(slots[At(cur, j, n)]))
    decreases budget - w
  {
    var n := |slots|;
    hide FrameOf;
    if Completed(slots[cur]) && budget != 0 && w < budget && alloc(w) {
      var slots', cur' := slots[cur := Cleared(slots[cur])], (cur + 1) % n;
      AtNext(cur, 0, n);
      PollDeliversRun(slots', cur', w + 1, budget, alloc);
      var r, r' := NetRx(slots, cur, w, budget, alloc), NetRx(slots', cur', w + 1, budget, alloc);
      // the first slot is now cleared, so the rest of the run cannot come round to it again
      assert At(cur', n - 1, n) == cur && !Completed(slots'[cur]);
      forall j | 0 <= j < |r.delivered|
        ensures Completed(slots[At(cur, j, n)]) && r.delivered[j] == FrameOf(slots[At(cur, j, n)])
      {
        if j > 0 {
          AtNext(cur, j - 1, n);
          assert r.delivered[j] == r'.delivered[j - 1];
        }
      }
      AtNext(cur, |r'.delivered|, n);
    }
  }

  /** And clears exactly those slots. */
  lemma {:induction false} PollClearsRun<B>(slots: seq<Slot<B>>, cur: nat, w: int, budget: int, alloc: int -> bool)
    requires Ring(slots, cur)
    ensures var r, n := NetRx(slots, cur, w, budget, alloc), |slots|;
      && |r.slots| == n
      && forall i {:trigger r.slots[i]} :: 0 <= i < n ==>
           r.slots[i] == if InRun(i, cur, |r.delivered|, n) then Slot(0, 0, slots[i].data) else slots[i]
    decreases budget - w
  {
    PollDeliversRun(slots, cur, w, budget, alloc);
    if Completed(slots[cur]) && budget != 0 && w < budget && alloc(w) {
      AtNext(cur, 0, |slots|);
      PollClearsRun(slots[cur := Cleared(slots[cur])], (cur + 1) % |slots|, w + 1, budget, alloc);
    }
  }

  /** A poll stops only at the budget, at a slot that is not completed, or for want of a buffer; in
      the last case the slot keeps its packet. */
  lemma {:induction false} PollStopsForAReason<B>(slots: seq<Slot<B>>, cur: nat, w: int, budget: int, alloc: int -> bool)
    requires Ring(slots, cur)
    ensures var r := NetRx(slots, cur, w, budget, alloc);
      && r.cur < |r.slots|
      && (budget == 0 || r.workDone >= budget || !Completed(r.slots[r.cur]) || !alloc(r.workDone))
    decreases budget - w
  {
    if Completed(slots[cur]) && budget != 0 && w < budget && alloc(w) {
      AtNext(cur, 0, |slots|);
      PollStopsForAReason(slots[cur := Cleared(slots[cur])], (cur + 1) % |slots|, w + 1, budget, alloc);
    }
  }

  // ----- hardware and polls interleaved -----

  datatype World<B> = World(slots: seq<Slot<B>>, cur: nat, tail: nat, arrived: seq<seq<B>>, delivered: seq<seq<B>>)

  datatype Event<B> = Arrive(frame: seq<B>, flags: nat) | Poll(budget: int, alloc: int -> bool)

  /** The hardware fills the slot after the last one it filled, and does not lap the reader. */
  ghost predicate Enabled<B>(s: World<B>, e: Event<B>) {
    && Ring(s.slots, s.cur) && s.tail < |s.slots|
    && (e.Arrive? ==> !Completed(s.slots[s.tail]) && |e.frame| <= |s.slots[s.tail].data| && e.flags < 0x10000)
  }

  ghost function Next<B>(s: World<B>, e: Event<B>): World<B>
    requires Enabled(s, e)
  {
    match e
    case Arrive(frame, flags) =>
      var room := s.slots[s.tail].data;
      var slot := Slot(C2H_WB + flags, |frame|, frame + room[|frame|..]);
      s.(slots := s.slots[s.tail := slot], tail := (s.tail + 1) % |s.slots|, arrived := s.arrived + [frame])
    case Poll(budget, alloc) =>
      var r := NetRx(s.slots, s.cur, 0, budget, alloc);
      s.(slots := r.slots, cur := r.cur, delivered := s.delivered + r.delivered)
  }

  /** The completed slots are the run from `cur` to the hardware's tail; they hold, in order, the
      frames that arrived and were not delivered yet. */
  ghost predicate Inv<B>(s: World<B>) {
    var n, m := |s.slots|, |s.arrived| - |s.delivered|;
    && Ring(s.slots, s.cur)
    && 0 <= m <= n
    && s.tail == At(s.cur, m, n)
    && s.delivered <= s.arrived
    && (forall j {:trigger At(s.cur, j, n)} :: 0 <= j < n ==>
          (Completed(s.slots[At(s.cur, j, n)]) <==> j < m))
    && (forall j {:trigger At(s.cur, j, n)} :: 0 <= j < m ==>
          FrameOf(s.slots[At(s.cur, j, n)]) == s.arrived[|s.delivered| + j])
  }

  lemma ArriveKeepsRing<B>(s: World<B>, frame: seq<B>, flags: nat)
    requires Enabled(s, Arrive(frame, flags))
    ensures Ring(Next(s, Arrive(frame, flags)).slots, s.cur)
  {
  }

  lemma ArriveKeepsInv<B>(s: World<B>, frame: seq<B>, flags: nat)
    requires Inv(s) && Enabled(s, Arrive(frame, flags))
    ensures Inv(Next(s, Arrive(frame, flags)))
  {
    var s', n, m := Next(s, Arrive(frame, flags)), |s.slots|, |s.arrived| - |s.delivered|;
    assert m < n by {
      assert At(s.cur, 0, n) == At(s.cur, n, n) == s.cur;
    }
    AtNext(s.tail, 0, n);
    assert s.tail == At(s.cur, m, n);
    assert FrameOf(s'.slots[s.tail]) == frame;
    forall j | 0 <= j < n
      ensures Completed(s'.slots[At(s'.cur, j, n)]) <==> j < m + 1
      ensures j < m + 1 ==> FrameOf(s'.slots[At(s'.cur, j, n)]) == s'.arrived[|s'.delivered| + j]
    {
      if j != m {
        assert At(s.cur, j, n) != s.tail;
      }
    }
  }

  /** A poll delivers pending frames from the oldest on: all of them, unless the budget runs out or a
      buffer cannot be allocated. */
  lemma PollDeliversPending<B>(s: World<B>, budget: int, alloc: int -> bool)
    requires Inv(s)
    ensures var r, d := NetRx(s.slots, s.cur, 0, budget, alloc), |s.delivered|;
      var k, pending := |r.delivered|, |s.arrived| - d;
      && k <= pending && r.delivered == s.arrived[d..d + k]
      && (k == 0 || k <= budget)
      && (k == pending || k >= budget || !alloc(k) || budget == 0)
  {
    PollDeliversRun(s.slots, s.cur, 0, budget, alloc);
    PollClearsRun(s.slots, s.cur, 0, budget, alloc);
    PollStopsForAReason(s.slots, s.cur, 0, budget, alloc);
    var r, n, m := NetRx(s.slots, s.cur, 0, budget, alloc), |s.slots|, |s.arrived| - |s.delivered|;
    hide NetRx, Ring, Completed, FrameOf;
    assert At(s.cur, m, n) == s.tail;
    ShiftedSlot(s.cur, |r.delivered|, 0, n);
  }

  /** After a poll that delivered k frames, the j-th slot from the new `cur` holds what the (j + k)-th
      slot held, if the hardware had filled that one. */
  lemma PollLeaves<B>(s: World<B>, budget: int, alloc: int -> bool, j: nat)
    requires Inv(s) && j < |s.slots|
    ensures var r, n := NetRx(s.slots, s.cur, 0, budget, alloc), |s.slots|;
      var k := |r.delivered|;
      && k <= n && |r.slots| == n && r.cur == At(s.cur, k, n) && Ring(r.slots, r.cur)
      && var slot := r.slots[At(r.cur, j, n)];
         && (Completed(slot) <==> j + k < |s.arrived| - |s.delivered|)
         && (Completed(slot) ==> FrameOf(slot) == s.arrived[|s.delivered| + k + j])
  {
    PollDeliversRun(s.slots, s.cur, 0, budget, alloc);
    PollClearsRun(s.slots, s.cur, 0, budget, alloc);
    PollDeliversPending(s, budget, alloc);
    hide NetRx, Ring, Fits, InRun;
    ShiftedSlot(s.cur, |NetRx(s.slots, s.cur, 0, budget, alloc).delivered|, j, |s.slots|);
  }

  /** The parts of the invariant after a poll: where the reader and the hardware are, what was delivered,
      and what the slots hold. */
  lemma PollKeepsPositions<B>(s: World<B>, budget: int, alloc: int -> bool)
    requires Inv(s)
    ensures var s', n := Next(s, Poll(budget, alloc)), |s.slots|;
      var m' := |s'.arrived| - |s'.delivered|;
      && |s'.slots| == n && Ring(s'.slots, s'.cur) && 0 <= m' <= n && s'.tail == At(s'.cur, m', n)
  {
    PollDeliversRun(s.slots, s.cur, 0, budget, alloc);
    PollDeliversPending(s, budget, alloc);
    hide NetRx, Ring, Completed, FrameOf;
  }

  lemma PollKeepsPrefix<B>(s: World<B>, budget: int, alloc: int -> bool)
    requires Inv(s)
    ensures Next(s, Poll(budget, alloc)).delivered <= s.arrived
  {
    PollDeliversPending(s, budget, alloc);
    hide NetRx, Ring, Completed, FrameOf;
  }

  lemma PollKeepsSlots<B>(s: World<B>, budget: int, alloc: int -> bool, j: nat)
    requires Inv(s) && j < |s.slots|
    ensures var s', n := Next(s, Poll(budget, alloc)), |s.slots|;
      && |s'.slots| == n && s'.cur < n && Fits(s'.slots[At(s'.cur, j, n)])
      && var slot := s'.slots[At(s'.cur, j, n)];
         && (Completed(slot) <==> j < |s.arrived| - |s'.delivered|)
         && (Completed(slot) ==> FrameOf(slot) == s.arrived[|s'.delivered| + j])
  {
    PollLeaves(s, budget, alloc, j);
    hide NetRx, Completed, FrameOf;
  }

  lemma PollKeepsInv<B>(s: World<B>, budget: int, alloc: int -> bool)
    requires Inv(s)
    ensures Inv(Next(s, Poll(budget, alloc)))
  {
    PollKeepsPositions(s, budget, alloc);
    PollKeepsPrefix(s, budget, alloc);
    var s', n := Next(s, Poll(budget, alloc)), |s.slots|;
    assert s'.arrived == s.arrived;
    hide NetRx, Ring, Fits, Completed, FrameOf, Next;
    forall j: nat | j < n
      ensures Completed(s'.slots[At(s'.cur, j, n)]) <==> j < |s'.arrived| - |s'.delivered|
      ensures j < |s'.arrived| - |s'.delivered| ==>
        Fits(s'.slots[At(s'.cur, j, n)]) && FrameOf(s'.slots[At(s'.cur, j, n)]) == s'.arrived[|s'.delivered| + j]
    {
      PollKeepsSlots(s, budget, alloc, j);
    }
  }

  /** Counting from the new `cur`, the slots of the run just delivered come last. */
  lemma ShiftedSlot(cur: nat, k: nat, j: nat, n: nat)
    requires cur < n && k <= n && j < n
    ensures At(cur, k, n) < n
    ensures var i := At(At(cur, k, n), j, n);
      && i == (if j + k < n then At(cur, j + k, n) else At(cur, j + k - n, n))
      && (InRun(i, cur, k, n) <==> j + k >= n)
  {
  }

  ghost predicate ValidRun<B>(s: World<B>, es: seq<Event<B>>)
    decreases |es|
  {
    es == [] || (Enabled(s, es[0]) && ValidRun(Next(s, es[0]), es[1..]))
  }

  ghost function Run<B>(s: World<B>, es: seq<Event<B>>): World<B>
    requires ValidRun(s, es)
    decreases |es|
  {
    if es == [] then s else Run(Next(s, es[0]), es[1..])
  }

  /** The frames that the hardware received in a run. */
  function Received<B>(es: seq<Event<B>>): seq<seq<B>> {
    if es == [] then [] else ReceivedBy(es[0]) + Received(es[1..])
  }

  function ReceivedBy<B>(e: Event<B>): seq<seq<B>> {
    if e.Arrive? then [e.frame] else []
  }

  lemma StepKeepsInv<B>(s: World<B>, e: Event<B>)
    requires Inv(s) && Enabled(s, e)
    ensures Inv(Next(s, e)) && Next(s, e).arrived == s.arrived + ReceivedBy(e)
  {
    hide Inv;
    match e
    case Arrive(frame, flags) => ArriveKeepsInv(s, frame, flags);
    case Poll(budget, alloc) => PollKeepsInv(s, budget, alloc);
  }

  lemma DeliveredIsPrefix<B>(s: World<B>)
    requires Inv(s)
    ensures s.delivered <= s.arrived
  {
  }

  /** From any state in which the completed slots are the frames not delivered yet: over any interleaving
      of arrivals and polls the frames delivered are a prefix of the frames that arrived. */
  lemma {:induction false} RunKeepsInv<B>(s: World<B>, es: seq<Event<B>>)
    requires Inv(s) && ValidRun(s, es)
    ensures Inv(Run(s, es)) && Run(s, es).arrived == s.arrived + Received(es)
    ensures Run(s, es).delivered <= s.arrived + Received(es)
    decreases |es|
  {
    hide Inv, Enabled, Next, ReceivedBy;
    if es == [] {
      DeliveredIsPrefix(s);
    } else {
      StepKeepsInv(s, es[0]);
      RunKeepsInv(Next(s, es[0]), es[1..]);
    }
  }

  // ----- from open -----

  /** What ax_net_open leaves behind: both positions at 0, and the slots as they were. */
  ghost predicate Opened<B>(s: World<B>) {
    Ring(s.slots, s.cur) && s.cur == s.tail == 0 && s.arrived == s.delivered == []
  }

  /** No slot is marked as completed, as in a ring just allocated. */
  ghost predicate Clean<B>(slots: seq<Slot<B>>) {
    forall i {:trigger slots[i]} :: 0 <= i < |slots| ==> !Completed(slots[i])
  }

  lemma AtFromZero(j: nat, n: nat)
    requires j < n
    ensures At(0, j, n) == j
  {
  }

  lemma OpenedInvIff<B>(s: World<B>)
    requires Opened(s)
    ensures Inv(s) <==> Clean(s.slots)
  {
    forall j: nat | j < |s.slots|
      ensures At(0, j, |s.slots|) == j
    {
      AtFromZero(j, |s.slots|);
    }
    hide Completed;
    assert Inv(s) ==> forall j: nat {:trigger s.slots[j]} :: j < |s.slots| ==> !Completed(s.slots[At(0, j, |s.slots|)]);
  }

  /** Over any interleaving of arrivals and polls from an open that finds no completed slot, whatever the
      budgets and allocation failures, the frames delivered are a prefix of the frames received: in
      order, none lost, none repeated. */
  lemma DeliversInOrder<B>(s: World<B>, es: seq<Event<B>>)
    requires Opened(s) && Clean(s.slots) && ValidRun(s, es)
    ensures Run(s, es).delivered <= Received(es)
  {
    OpenedInvIff(s);
    RunKeepsInv(s, es);
    assert [] + Received(es) == Received(es);
  }

  lemma RunCons<B>(s: World<B>, e: Event<B>, es: seq<Event<B>>)
    requires Enabled(s, e) && ValidRun(Next(s, e), es)
    ensures ValidRun(s, [e] + es) && Run(s, [e] + es) == Run(Next(s, e), es)
  {
    assert ([e] + es)[1..] == es;
    hide Enabled, Next;
  }

  // ----- a completed slot at open -----

  /** j arrivals of empty frames and then a poll. */
  function FillAndPoll<B>(j: nat, budget: nat): seq<Event<B>> {
    if j == 0 then [Poll(budget, _ => true)] else [Arrive([], 0)] + FillAndPoll(j - 1, budget)
  }

  /** With k slots completed from `cur` on, a poll of that budget delivers k frames. */
  lemma PollTakes<B>(slots: seq<Slot<B>>, cur: nat, k: nat)
    requires Ring(slots, cur) && k <= |slots|
    requires forall i {:trigger At(cur, i, |slots|)} :: 0 <= i < k ==> Completed(slots[At(cur, i, |slots|)])
    ensures |NetRx(slots, cur, 0, k, _ => true).delivered| == k
  {
    var alloc: int -> bool := _ => true;
    PollDeliversRun(slots, cur, 0, k, alloc);
    PollClearsRun(slots, cur, 0, k, alloc);
    PollStopsForAReason(slots, cur, 0, k, alloc);
  }

  /** The first completed slot is slot j, after `tail`. */
  ghost predicate StaleAt<B>(s: World<B>, j: nat) {
    && Ring(s.slots, s.cur) && s.cur == 0 && s.tail <= j < |s.slots| && Completed(s.slots[j])
    && forall i {:trigger s.slots[i]} :: 0 <= i < j ==> (Completed(s.slots[i]) <==> i < s.tail)
  }

  /** Filling the slots before it and polling delivers it as well. */
  lemma {:induction false} StaleIsDelivered<B>(s: World<B>, j: nat)
    requires StaleAt(s, j) && s.delivered == []
    ensures ValidRun(s, FillAndPoll(j - s.tail, j + 1))
    ensures |Received(FillAndPoll<B>(j - s.tail, j + 1))| == j - s.tail
    ensures |Run(s, FillAndPoll(j - s.tail, j + 1)).delivered| == j + 1
    decreases j - s.tail
  {
    assert s.tail <= j < |s.slots|;
    if j == s.tail {
      PollIsRun(s, j + 1);
      forall i: nat | i <= j
        ensures Completed(s.slots[At(0, i, |s.slots|)])
      {
        AtFromZero(i, |s.slots|);
      }
      PollTakes(s.slots, 0, j + 1);
    } else {
      var e, rest: seq<Event<B>> := Arrive([], 0), FillAndPoll(j - s.tail - 1, j + 1);
      ArriveKeepsStale(s, j);
      hide StaleAt, Enabled, Next, ValidRun, Run;
      StaleIsDelivered(Next(s, e), j);
      RunCons(s, e, rest);
      assert ([e] + rest)[1..] == rest;
    }
  }

  lemma PollIsRun<B>(s: World<B>, budget: nat)
    requires Ring(s.slots, s.cur) && s.tail < |s.slots| && s.delivered == []
    ensures ValidRun(s, FillAndPoll(0, budget)) && Received(FillAndPoll<B>(0, budget)) == []
    ensures Run(s, FillAndPoll(0, budget)).delivered == NetRx(s.slots, s.cur, 0, budget, _ => true).delivered
  {
    var es: seq<Event<B>> := FillAndPoll(0, budget);
    assert es[1..] == [];
  }

  lemma ArriveKeepsStale<B>(s: World<B>, j: nat)
    requires StaleAt(s, j) && s.tail < j
    ensures var e: Event<B> := Arrive([], 0);
      Enabled(s, e) && StaleAt(Next(s, e), j) && Next(s, e).tail == s.tail + 1 && Next(s, e).delivered == s.delivered
  {
    AtNext(s.tail, 0, |s.slots|);
  }

  lemma FirstStale<B>(slots: seq<Slot<B>>) returns (j: nat)
    requires !Clean(slots)
    ensures j < |slots| && Completed(slots[j]) && forall i {:trigger slots[i]} :: 0 <= i < j ==> !Completed(slots[i])
  {
    j := 0;
    while !Completed(slots[j])
      invariant j < |slots| && forall i {:trigger slots[i]} :: 0 <= i < j ==> !Completed(slots[i])
      decreases |slots| - j
    {
      j := j + 1;
    }
  }

  /** Every run from open delivers a prefix of what it receives if and only if no slot is marked as
      completed at open. */
  lemma DeliversInOrderIff<B>(s: World<B>)
    requires Opened(s)
    ensures (forall es: seq<Event<B>> :: ValidRun(s, es) ==> Run(s, es).delivered <= Received(es)) <==> Clean(s.slots)
  {
    if Clean(s.slots) {
      forall es: seq<Event<B>> | ValidRun(s, es)
        ensures Run(s, es).delivered <= Received(es)
      {
        DeliversInOrder(s, es);
      }
    } else {
      var j := FirstStale(s.slots);
      StaleIsDelivered(s, j);
      var es: seq<Event<B>> := FillAndPoll(j, j + 1);
      assert ValidRun(s, es) && !(Run(s, es).delivered <= Received(es));
    }
  }

  /** Closing and opening again: neither touches the slots. */
  function Reopened<B>(s: World<B>): World<B> {
    World(s.slots, 0, 0, [], [])
  }

  /** The ring is clean at the next open if and only if every frame was delivered before. */
  lemma ReopenedCleanIff<B>(s: World<B>)
    requires Inv(s)
    ensures Opened(Reopened(s)) && (Clean(Reopened(s).slots) <==> |s.delivered| == |s.arrived|)
  {
    var n := |s.slots|;
    assert At(s.cur, 0, n) == s.cur;
    forall i {:trigger s.slots[i]} | 0 <= i < n
      ensures |s.delivered| == |s.arrived| ==> !Completed(s.slots[i])
    {
      assert At(s.cur, if i >= s.cur then i - s.cur else i + n - s.cur, n) == i;
    }
  }

  /** So after a session that kept the order, the next one does if and only if no frame was pending. */
  lemma NextSessionInOrderIff<B>(s: World<B>)
    requires Inv(s)
    ensures (forall es: seq<Event<B>> :: ValidRun(Reopened(s), es) ==> Run(Reopened(s), es).delivered <= Received(es))
      <==> |s.delivered| == |s.arrived|
  {
    ReopenedCleanIff(s);
    DeliversInOrderIff(Reopened(s));
  }

  /** A frame as long as its buffer. */
  lemma ArriveWhole<B>(s: World<B>, frame: seq<B>)
    requires Enabled(s, Arrive(frame, 0)) && |s.slots[s.tail].data| == |frame|
    ensures Next(s, Arrive(frame, 0)) ==
      s.(slots := s.slots[s.tail := Slot(C2H_WB, |frame|, frame)], tail := (s.tail + 1) % |s.slots|,
         arrived := s.arrived + [frame])
  {
    assert frame + s.slots[s.tail].data[|frame|..] == frame;
  }

  function FirstEvents(): seq<Event<int>> {
    [Arrive([10], 0)] + ([Poll(1, _ => true)] + ([Arrive([11], 0)] + []))
  }

  function SecondEvents(): seq<Event<int>> {
    [Arrive([12], 0)] + ([Poll(2, _ => true)] + [])
  }

  /** A ring of two slots: the first frame is polled, the second is not before the close. */
  lemma FirstSession()
    ensures var open := World([Slot(0, 0, [0]), Slot(0, 0, [0])], 0, 0, [], []);
      && Opened(open) && Clean(open.slots) && ValidRun(open, FirstEvents())
      && Run(open, FirstEvents()) == World([Slot(0, 0, [10]), Slot(C2H_WB, 1, [11])], 1, 0, [[10], [11]], [[10]])
  {
    var s0 := World([Slot(0, 0, [0]), Slot(0, 0, [0])], 0, 0, [], []);
    var s1 := World([Slot(C2H_WB, 1, [10]), Slot(0, 0, [0])], 0, 1, [[10]], []);
    var s2 := World([Slot(0, 0, [10]), Slot(0, 0, [0])], 1, 1, [[10]], [[10]]);
    var s3 := World([Slot(0, 0, [10]), Slot(C2H_WB, 1, [11])], 1, 0, [[10], [11]], [[10]]);
    var poll: Event<int> := Poll(1, _ => true);
    ArriveWhole(s0, [10]);
    assert Next(s0, Arrive([10], 0)) == s1;
    assert FrameOf(s1.slots[0]) == [10] && s1.slots[0 := Cleared(s1.slots[0])] == s2.slots;
    assert NetRx(s2.slots, 1, 1, 1, poll.alloc) == Polled(s2.slots, 1, 1, []);
    assert Next(s1, poll) == s2;
    ArriveWhole(s2, [11]);
    assert Next(s2, Arrive([11], 0)) == s3;
    hide NetRx;
    RunCons(s2, Arrive([11], 0), []);
    RunCons(s1, poll, [Arrive([11], 0)] + []);
    RunCons(s0, Arrive([10], 0), [poll] + ([Arrive([11], 0)] + []));
  }

  lemma SecondSession()
    ensures var open := World([Slot(0, 0, [10]), Slot(C2H_WB, 1, [11])], 0, 0, [], []);
      && Opened(open) && ValidRun(open, SecondEvents())
      && Run(open, SecondEvents()).delivered == [[12], [11]]
  {
    var s0 := World([Slot(0, 0, [10]), Slot(C2H_WB, 1, [11])], 0, 0, [], []);
    var s1 := World([Slot(C2H_WB, 1, [12]), Slot(C2H_WB, 1, [11])], 0, 1, [[12]], []);
    var poll: Event<int> := Poll(2, _ => true);
    ArriveWhole(s0, [12]);
    assert Next(s0, Arrive([12], 0)) == s1;
    assert FrameOf(s1.slots[0]) == [12] && FrameOf(s1.slots[1]) == [11];
    assert Next(s1, poll).delivered == [[12], [11]];
    RunCons(s1, poll, []);
    RunCons(s0, Arrive([12], 0), [poll] + []);
  }

  /** After the next open the second frame comes out behind the third. */
  lemma StaleFrameDelivered()
    ensures var open := World([Slot(0, 0, [0]), Slot(0, 0, [0])], 0, 0, [], []);
      && Opened(open) && Clean(open.slots) && ValidRun(open, FirstEvents())
      && var again := Reopened(Run(open, FirstEvents()));
         && Opened(again) && ValidRun(again, SecondEvents())
         && Received(SecondEvents()) == [[12]] && Run(again, SecondEvents()).delivered == [[12], [11]]
  {
    FirstSession();
    SecondSession();
    ReceivedSecond();
    hide Opened, Clean, ValidRun, Run, Received, FirstEvents, SecondEvents;
  }

  lemma ReceivedSecond()
    ensures Received(SecondEvents()) == [[12]]
  {
    assert SecondEvents()[1..][1..] == [];
  }
}
