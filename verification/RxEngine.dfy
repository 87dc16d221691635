/** The card-to-host engine: a descriptor ring cut in two halves, which it fills one after the other, the
    interrupt handlers moving it from one to the next. This is why received frames are in the slots of
    RxRing in ring order. */
module RxEngine {
  import opened Descriptors
  import RxRing
  import TxRing
  import Wrappers

  /** xdma_transfer and xdma_engine of the receive channel, with the hardware's position and its count of
      completed descriptors since it was started. `half` is RX_DESC_NUM / DESC_LIST_NUM; `bug` records that
      BUG_ON(engine->running) was hit, and `filled` is history: the descriptors filled so far. */
  datatype Channel = Channel(
    half: nat,
    desc: seq<Desc>,
    listDesc: seq<nat>,
    currentList: nat,
    running: bool,
    engine: TxRing.Engine,
    completed: nat,
    bug: bool,
    filled: seq<nat>)

  ghost predicate Sized(ch: Channel) {
    && ch.half > 0 && |ch.desc| == 2 * ch.half
    && |ch.listDesc| == DESC_LIST_NUM && ch.currentList < DESC_LIST_NUM
  }

  function EngineStart(ch: Channel): Channel
    requires |ch.listDesc| == DESC_LIST_NUM && ch.currentList < DESC_LIST_NUM
  {
    ch.(bug := ch.bug || ch.running, running := true,
        engine := TxRing.Fetching(ch.listDesc[ch.currentList]), completed := 0)
  }

  function EngineStop(ch: Channel): Channel {
    ch.(running := false, engine := TxRing.Halted)
  }

  /** The flip in both handlers: stop, the other list, start. */
  function Flip(ch: Channel): Channel
    requires |ch.listDesc| == DESC_LIST_NUM
  {
    EngineStart(EngineStop(ch).(currentList := (ch.currentList + 1) % DESC_LIST_NUM))
  }

  /** The engine fills the descriptor it is at, then stops or follows the link. */
  function Fill(ch: Channel): Channel
    requires ch.engine.Fetching? && ch.engine.at < |ch.desc|
  {
    var d := ch.desc[ch.engine.at];
    ch.(engine := if d.stopped then TxRing.Stopped
                  else if d.next.Some? then TxRing.Fetching(d.next.value)
                  else TxRing.Fault,
        completed := ch.completed + 1,
        filled := ch.filled + [ch.engine.at])
  }

  /** The engine going on by at most n descriptors. */
  function FillMany(ch: Channel, n: nat): (r: Channel)
    ensures r.half == ch.half && r.listDesc == ch.listDesc && r.currentList == ch.currentList
    decreases n
  {
    if n == 0 || !ch.engine.Fetching? || ch.engine.at >= |ch.desc| then ch else FillMany(Fill(ch), n - 1)
  }

  /** An interrupt, which may come at any time. The handler reads whether the engine has stopped at a
      STOPPED descriptor; xdma_isr flips then. xdma_channel_C2H_irq reads the count of completed
      descriptors afterwards, and flips as well if it is as many as a half has. Between the two readings,
      or after the one, the engine may go on. */
  function Irq(ch: Channel, msix: bool, fills: nat): Channel
    requires |ch.listDesc| == DESC_LIST_NUM
  {
    var later := FillMany(ch, fills);
    if ch.engine.Stopped? || (msix && later.completed == later.half) then Flip(later) else later
  }

  datatype Event = FillEvent | IrqEvent(msix: bool, fills: nat)

  ghost predicate Enabled(ch: Channel, e: Event) {
    Sized(ch) && (e.FillEvent? ==> ch.engine.Fetching? && ch.engine.at < |ch.desc|)
  }

  ghost function Next(ch: Channel, e: Event): Channel
    requires Enabled(ch, e)
  {
    match e
    case FillEvent => Fill(ch)
    case IrqEvent(msix, fills) => Irq(ch, msix, fills)
  }

  ghost predicate ValidRun(ch: Channel, es: seq<Event>)
    decreases |es|
  {
    es == [] || (Enabled(ch, es[0]) && ValidRun(Next(ch, es[0]), es[1..]))
  }

  ghost function Run(ch: Channel, es: seq<Event>): Channel
    requires ValidRun(ch, es)
    decreases |es|
  {
    if es == [] then ch else Run(Next(ch, es[0]), es[1..])
  }

  /** The state that ax_net_open leaves behind, with the engine started. */
  ghost predicate Opened(ch: Channel) {
    && Sized(ch)
    && ch.desc == InitialRing(2 * ch.half) && ch.listDesc == [0, ch.half] && ch.currentList == 0
    && ch.running && ch.engine == TxRing.Fetching(0) && ch.completed == 0 && !ch.bug && ch.filled == []
  }

  /** The descriptor that comes after the last one filled, in ring order. */
  function NextSlot(ch: Channel): nat
    requires ch.half > 0
  {
    |ch.filled| % (2 * ch.half)
  }

  function Base(ch: Channel): nat {
    if ch.currentList == 0 then 0 else ch.half
  }

  /** The engine is in the half of the current list, as far as its count says, or at its end. */
  ghost predicate Inv(ch: Channel) {
    && Sized(ch) && ch.listDesc == [0, ch.half]
    && (forall i {:trigger ch.desc[i]} :: 0 <= i < 2 * ch.half ==>
          var last := i == ch.half - 1 || i == 2 * ch.half - 1;
          ch.desc[i].stopped == last && (!last ==> ch.desc[i].next == Wrappers.Some(i + 1)))
    && ch.running && !ch.bug
    && (ch.engine.Fetching? || ch.engine.Stopped?)
    && (ch.engine.Fetching? ==>
          Base(ch) <= ch.engine.at < Base(ch) + ch.half && ch.completed == ch.engine.at - Base(ch)
          && NextSlot(ch) == ch.engine.at)
    && (ch.engine.Stopped? ==> ch.completed == ch.half && NextSlot(ch) == ch.half - Base(ch))
    && (forall k {:trigger ch.filled[k]} :: 0 <= k < |ch.filled| ==> ch.filled[k] == k % (2 * ch.half))
  }

  lemma MulDistributes(n: int, a: int, b: int)
    ensures n * (a + b) == n * a + n * b
  {
  }

  lemma PositiveMultiple(n: int, x: int)
    requires n > 0 && x >= 1
    ensures n * x >= n
  {
    MulDistributes(n, x - 1, 1);
  }

  /** Quotient and remainder are unique. */
  lemma ModUnique(a: int, n: int, q: int, r: int)
    requires n > 0 && a == n * q + r && 0 <= r < n
    ensures a % n == r
  {
    var x := q - a / n;
    MulDistributes(n, q, -(a / n));
    assert n * x == a % n - r;
    if x >= 1 {
      PositiveMultiple(n, x);
    } else if x <= -1 {
      MulDistributes(n, x, -x);
      PositiveMultiple(n, -x);
    }
  }

  lemma NextMod(k: nat, n: nat)
    requires n > 0
    ensures (k + 1) % n == if k % n == n - 1 then 0 else k % n + 1
  {
    var q := k / n;
    if k % n == n - 1 {
      MulDistributes(n, q, 1);
      ModUnique(k + 1, n, q + 1, 0);
    } else {
      ModUnique(k + 1, n, q, k % n + 1);
    }
  }

  lemma FillKeepsInv(ch: Channel)
    requires Inv(ch) && Enabled(ch, FillEvent)
    ensures Inv(Fill(ch))
  {
    NextMod(|ch.filled|, 2 * ch.half);
  }

  lemma {:induction false} FillManyKeepsInv(ch: Channel, n: nat)
    requires Inv(ch)
    ensures Inv(FillMany(ch, n))
    decreases n
  {
    if n == 0 || !ch.engine.Fetching? || ch.engine.at >= |ch.desc| {
    } else {
      FillKeepsInv(ch);
      hide Inv;
      FillManyKeepsInv(Fill(ch), n - 1);
    }
  }

  /** An interrupt keeps the invariant. It moves the engine to the other half if and only if the engine
      has stopped by the last reading: so the count tells what the status may just have missed. */
  lemma IrqKeepsInv(ch: Channel, msix: bool, fills: nat)
    requires Inv(ch)
    ensures Inv(Irq(ch, msix, fills))
    ensures var later := FillMany(ch, fills);
      Irq(ch, msix, fills) == if (if msix then later else ch).engine.Stopped? then Flip(later) else later
  {
    FillManyKeepsInv(ch, fills);
  }

  lemma OpenedInv(ch: Channel)
    requires Opened(ch)
    ensures Inv(ch)
  {
    InitialLinks(ch.half);
  }

  lemma {:induction false} RunKeepsInv(ch: Channel, es: seq<Event>)
    requires Inv(ch) && ValidRun(ch, es)
    ensures Inv(Run(ch, es)) && Run(ch, es).half == ch.half
    decreases |es|
  {
    if es == [] {
    } else {
      match es[0] {
        case FillEvent => FillKeepsInv(ch);
        case IrqEvent(msix, fills) => IrqKeepsInv(ch, msix, fills);
      }
      hide Inv;
      RunKeepsInv(Next(ch, es[0]), es[1..]);
    }
  }

  /** Over every run from open, however interrupts fall: descriptors are filled in ring order, 0, 1, ...,
      2 * half - 1, 0, ..., the engine is never started while it runs and never runs off a chain. */
  lemma FillsInOrder(ch: Channel, es: seq<Event>)
    requires Opened(ch) && ValidRun(ch, es)
    ensures var now := Run(ch, es);
      && (forall k {:trigger now.filled[k]} :: 0 <= k < |now.filled| ==> now.filled[k] == k % (2 * ch.half))
      && (now.engine.Fetching? ==> now.engine.at == |now.filled| % (2 * ch.half))
      && !now.bug && (now.engine.Fetching? || now.engine.Stopped?)
  {
    OpenedInv(ch);
    RunKeepsInv(ch, es);
  }

  /** A stopped engine goes on at the next interrupt, where it would have gone on without the stop. */
  lemma StoppedGoesOn(ch: Channel, msix: bool, fills: nat)
    requires Inv(ch) && ch.engine.Stopped?
    ensures Irq(ch, msix, fills).engine == TxRing.Fetching(NextSlot(ch)) && Irq(ch, msix, fills).filled == ch.filled
  {
  }

  // ----- the slots of the receive ring -----

  lemma RingKeepsSize<B>(s: RxRing.World<B>, e: RxRing.Event<B>)
    requires RxRing.Enabled(s, e)
    ensures var s' := RxRing.Next(s, e);
      |s'.slots| == |s.slots| && s'.tail == if e.Arrive? then (s.tail + 1) % |s.slots| else s.tail
  {
    if e.Poll? {
      RxRing.PollDeliversRun(s.slots, s.cur, 0, e.budget, e.alloc);
    }
  }

  lemma NextSlotMod(tail: nat, k: nat, n: nat)
    requires n > 0 && tail == k % n
    ensures (tail + 1) % n == (k + 1) % n
  {
    NextMod(k, n);
    SmallMod(tail + 1, n);
  }

  lemma {:induction false} TailCounts<B>(s: RxRing.World<B>, fs: seq<RxRing.Event<B>>, k: nat)
    requires RxRing.ValidRun(s, fs) && |s.slots| > 0 && s.tail == k % |s.slots|
    ensures |RxRing.Run(s, fs).slots| == |s.slots|
    ensures RxRing.Run(s, fs).tail == (k + |RxRing.Received(fs)|) % |s.slots|
    decreases |fs|
  {
    hide RxRing.Enabled, RxRing.Next;
    if fs == [] {
    } else {
      RingKeepsSize(s, fs[0]);
      NextSlotMod(s.tail, k, |s.slots|);
      TailCounts(RxRing.Next(s, fs[0]), fs[1..], if fs[0].Arrive? then k + 1 else k);
    }
  }

  /** If the receive ring has seen a frame for each descriptor filled, then the next frame arrives in the
      slot of the descriptor that the engine is at. */
  lemma ArrivesWhereEngineIs<B>(ch: Channel, es: seq<Event>, s: RxRing.World<B>, fs: seq<RxRing.Event<B>>)
    requires Opened(ch) && ValidRun(ch, es) && Run(ch, es).engine.Fetching?
    requires |s.slots| == 2 * ch.half && s.tail == 0 && RxRing.ValidRun(s, fs)
    requires |RxRing.Received(fs)| == |Run(ch, es).filled|
    ensures RxRing.Run(s, fs).tail == Run(ch, es).engine.at
  {
    FillsInOrder(ch, es);
    TailCounts(s, fs, 0);
  }
}
