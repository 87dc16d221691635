/** The host-to-card transmit rings as a state machine: two channels, each a descriptor ring cut in
    two halves, sharing one network queue. The driver fills one half while the DMA engine walks the
    other; the completion interrupt restarts the engine on what was filled and swaps the halves. */
module TxRing {
  import opened Wrappers
  import opened Descriptors

  /** What the DMA engine is doing. `Stopped` is the state in which the completion interrupt is due;
      `Fault` means that the engine was sent to a descriptor it has no link to. */
  datatype Engine = Halted | Fetching(at: nat) | Stopped | Fault

  /** One channel: ax_tx_list, xdma_transfer, xdma_engine, and the engine they drive. `half` is
      TX_DESC_NUM / DESC_LIST_NUM; `bug` records that BUG_ON(engine->running) was hit, and `marked` is
      history: the descriptor last marked STOPPED. */
  datatype Channel<P> = Channel(
    half: nat,
    desc: seq<Desc>,
    listDesc: seq<nat>,
    buff: seq<P>,
    currentList: nat,
    cur: nat,
    curPktCount: nat,
    idle: bool,
    running: bool,
    engine: Engine,
    bug: bool,
    marked: nat)

  ghost predicate Sized<P>(ch: Channel<P>) {
    && ch.half > 0
    && |ch.desc| == |ch.buff| == 2 * ch.half
    && |ch.listDesc| == DESC_LIST_NUM
    && ch.currentList < DESC_LIST_NUM
    && ch.cur < 2 * ch.half
  }

  // ----- the driver's steps on one channel -----

  /** desc_virt[i].control = DESC_MAGIC, with EOP and STOPPED added when `last`. */
  function SetControl(d: seq<Desc>, i: nat, last: bool): seq<Desc>
    requires i < |d|
  {
    d[i := d[i].(stopped := last, completed := false, eop := last)]
  }

  function EngineStart<P>(ch: Channel<P>): Channel<P>
    requires |ch.listDesc| == DESC_LIST_NUM && ch.currentList < DESC_LIST_NUM
  {
    ch.(bug := ch.bug || ch.running, running := true, engine := Fetching(ch.listDesc[ch.currentList]))
  }

  function EngineStop<P>(ch: Channel<P>): Channel<P> {
    ch.(running := false, engine := Halted)
  }

  function SwapHalves<P>(ch: Channel<P>): Channel<P> {
    var next := (ch.currentList + 1) % DESC_LIST_NUM;
    ch.(idle := false, currentList := next, cur := next * ch.half, curPktCount := 0)
  }

  /** The channel part of ax_net_start_xmit. */
  function Xmit<P>(ch: Channel<P>, p: P): Channel<P>
    requires Sized(ch)
  {
    var entry := ch.cur;
    var ch := ch.(buff := ch.buff[entry := p],
                  curPktCount := ch.curPktCount + 1,
                  desc := SetControl(ch.desc, entry, ch.idle));
    if ch.idle then SwapHalves(EngineStart(ch.(marked := entry)))
    else ch.(cur := (entry + 1) % (2 * ch.half))
  }

  /** The test after which ax_net_start_xmit stops the queue. */
  predicate XmitStopsQueue<P>(ch: Channel<P>)
    requires Sized(ch)
  {
    !ch.idle && var cur := (ch.cur + 1) % (2 * ch.half); cur == 0 || cur == ch.half
  }

  /** The channel part of the completion interrupt. */
  function Complete<P>(ch: Channel<P>): Channel<P>
    requires Sized(ch)
  {
    var ch := EngineStop(ch);
    if ch.curPktCount != 0 then
      var stopDesc := if ch.cur == 0 then 2 * ch.half - 1 else ch.cur - 1;
      SwapHalves(EngineStart(ch.(desc := SetControl(ch.desc, stopDesc, true), marked := stopDesc)))
    else
      ch.(idle := true)
  }

  /** The engine sends the packet of the descriptor it is at, then stops or follows the link. */
  function Fetch<P>(ch: Channel<P>): Channel<P>
    requires ch.engine.Fetching? && ch.engine.at < |ch.desc|
  {
    var d := ch.desc[ch.engine.at];
    ch.(engine := if d.stopped then Stopped
                  else if d.next.Some? then Fetching(d.next.value)
                  else Fault)
  }

  // ----- the device -----

  /** A channel with its history: the packets the kernel handed over and those the engine sent. */
  datatype Lane<P> = Lane(ch: Channel<P>, accepted: seq<P>, sent: seq<P>)

  function FetchLane<P>(lane: Lane<P>): Lane<P>
    requires lane.ch.engine.Fetching? && lane.ch.engine.at < |lane.ch.desc| == |lane.ch.buff|
  {
    Lane(Fetch(lane.ch), lane.accepted, lane.sent + [lane.ch.buff[lane.ch.engine.at]])
  }

  datatype Device<P> = Device(lanes: seq<Lane<P>>, queueStopped: bool, stopQueueChannel: nat)

  datatype Event<P> = XmitEvent(c: nat, p: P) | FetchEvent(c: nat) | IrqEvent(c: nat)

  const NO_CHANNEL := 0xFF

  /** The kernel does not transmit on a stopped queue; the completion interrupt follows a STOPPED
      descriptor. */
  ghost predicate Enabled<P>(dev: Device<P>, e: Event<P>) {
    && |dev.lanes| == 2
    && e.c < 2
    && var ch := dev.lanes[e.c].ch;
       && Sized(ch)
       && match e
          case XmitEvent(_, _) => !dev.queueStopped
          case FetchEvent(_) => ch.engine.Fetching? && ch.engine.at < |ch.desc|
          case IrqEvent(_) => ch.engine.Stopped?
  }

  ghost function Next<P>(dev: Device<P>, e: Event<P>): Device<P>
    requires Enabled(dev, e)
  {
    var lane := dev.lanes[e.c];
    match e
    case XmitEvent(c, p) =>
      var lanes := dev.lanes[c := Lane(Xmit(lane.ch, p), lane.accepted + [p], lane.sent)];
      if XmitStopsQueue(lane.ch) then Device(lanes, true, c) else dev.(lanes := lanes)
    case FetchEvent(c) =>
      dev.(lanes := dev.lanes[c := FetchLane(lane)])
    case IrqEvent(c) =>
      var lanes := dev.lanes[c := lane.(ch := Complete(lane.ch))];
      if dev.stopQueueChannel == c then Device(lanes, false, NO_CHANNEL) else dev.(lanes := lanes)
  }

  ghost predicate ValidRun<P>(dev: Device<P>, es: seq<Event<P>>)
    decreases |es|
  {
    es == [] || (Enabled(dev, es[0]) && ValidRun(Next(dev, es[0]), es[1..]))
  }

  ghost function Run<P>(dev: Device<P>, es: seq<Event<P>>): Device<P>
    requires ValidRun(dev, es)
    decreases |es|
  {
    if es == [] then dev else Run(Next(dev, es[0]), es[1..])
  }

  /** The state ax_net_open leaves behind. The buffers, and the channel that last stopped the queue,
      are whatever they were. */
  ghost predicate Opened<P>(dev: Device<P>) {
    && |dev.lanes| == 2
    && !dev.queueStopped
    && forall c {:trigger dev.lanes[c]} :: 0 <= c < 2 ==>
         OpenedChannel(dev.lanes[c].ch) && dev.lanes[c].accepted == dev.lanes[c].sent == []
  }

  ghost predicate OpenedChannel<P>(ch: Channel<P>) {
    && Sized(ch)
    && ch.desc == InitialRing(2 * ch.half)
    && ch.listDesc == [0, ch.half]
    && ch.currentList == ch.cur == ch.curPktCount == 0
    && ch.idle && !ch.running && ch.engine == Halted && !ch.bug
  }

  // ----- the invariant -----

  /** The first descriptor of the half being filled, and of the half the engine may be walking. */
  function FillBase<P>(ch: Channel<P>): nat {
    if ch.currentList == 0 then 0 else ch.half
  }

  function RunBase<P>(ch: Channel<P>): nat {
    if ch.currentList == 0 then ch.half else 0
  }

  /** Packets queued on the engine but not sent yet, and packets queued in the half being filled. */
  function RunningPackets<P>(ch: Channel<P>): seq<P> {
    if ch.engine.Fetching? && ch.engine.at <= ch.marked < |ch.buff|
    then ch.buff[ch.engine.at..ch.marked + 1] else []
  }

  function FillingPackets<P>(ch: Channel<P>): seq<P>
    requires Sized(ch) && ch.curPktCount <= ch.half
  {
    ch.buff[FillBase(ch)..FillBase(ch) + ch.curPktCount]
  }

  /** Links never change; who owns which half; no stale STOPPED flag among the queued packets. */
  ghost predicate ChannelInv<P>(ch: Channel<P>) {
    && Sized(ch)
    && ch.listDesc == [0, ch.half]
    && (forall i {:trigger ch.desc[i]} :: 0 <= i < 2 * ch.half ==>
          ch.desc[i].next == if i == ch.half - 1 || i == 2 * ch.half - 1 then None else Some(i + 1))
    && ch.curPktCount <= ch.half
    && ch.cur == (if FillBase(ch) + ch.curPktCount == 2 * ch.half then 0 else FillBase(ch) + ch.curPktCount)
    && ch.idle == !ch.running
    && !ch.bug
    && (ch.idle ==> ch.curPktCount == 0 && ch.engine == Halted)
    && (ch.running ==> ch.engine.Fetching? || ch.engine.Stopped?)
    && (ch.engine.Fetching? ==>
          && RunBase(ch) <= ch.engine.at <= ch.marked < RunBase(ch) + ch.half
          && ch.desc[ch.marked].stopped
          && forall i {:trigger ch.desc[i]} :: ch.engine.at <= i < ch.marked ==> !ch.desc[i].stopped)
    && (forall i {:trigger ch.desc[i]} :: FillBase(ch) <= i < FillBase(ch) + ch.curPktCount ==> !ch.desc[i].stopped)
  }

  ghost predicate LaneInv<P>(lane: Lane<P>) {
    && ChannelInv(lane.ch)
    && lane.accepted == lane.sent + RunningPackets(lane.ch) + FillingPackets(lane.ch)
  }

  predicate Full<P>(ch: Channel<P>) { ch.curPktCount == ch.half }

  /** The shared queue is stopped exactly when some channel's filling half is full; that channel is
      then the only full one and stop_queue_channel names it. */
  ghost predicate QueueInv<P>(dev: Device<P>)
    requires |dev.lanes| == 2
  {
    var full0, full1 := Full(dev.lanes[0].ch), Full(dev.lanes[1].ch);
    && dev.queueStopped == (full0 || full1)
    && !(full0 && full1)
    && (full0 ==> dev.stopQueueChannel == 0)
    && (full1 ==> dev.stopQueueChannel == 1)
  }

  ghost predicate Inv<P>(dev: Device<P>) {
    && |dev.lanes| == 2
    && LaneInv(dev.lanes[0]) && LaneInv(dev.lanes[1])
    && QueueInv(dev)
  }

  lemma InvAt<P>(dev: Device<P>, c: nat)
    requires Inv(dev) && c < 2
    ensures |dev.lanes| == 2 && LaneInv(dev.lanes[c]) && Sized(dev.lanes[c].ch)
  {
  }

  // ----- each step keeps the invariant -----

  /** On an idle channel the packet is a run of its own: its descriptor is STOPPED and started. */
  lemma XmitWhenIdle<P>(ch: Channel<P>, p: P)
    requires ChannelInv(ch) && ch.idle
    ensures ChannelInv(Xmit(ch, p)) && !XmitStopsQueue(ch)
    ensures RunningPackets(Xmit(ch, p)) == [p] && Xmit(ch, p).curPktCount == 0
  {
  }

  /** On a busy channel the packet joins the half being filled; the engine's half is untouched. */
  lemma XmitWhenBusy<P>(ch: Channel<P>, p: P)
    requires ChannelInv(ch) && !ch.idle && !Full(ch)
    ensures ChannelInv(Xmit(ch, p)) && (XmitStopsQueue(ch) <==> Full(Xmit(ch, p)))
  {
    SmallMod(ch.cur + 1, 2 * ch.half);
  }

  lemma XmitWhenBusyQueues<P>(ch: Channel<P>, p: P)
    requires ChannelInv(ch) && !ch.idle && !Full(ch)
    ensures RunningPackets(Xmit(ch, p)) == RunningPackets(ch)
    ensures Sized(Xmit(ch, p)) && FillingPackets(Xmit(ch, p)) == FillingPackets(ch) + [p]
  {
  }

  lemma XmitKeepsLaneInv<P>(lane: Lane<P>, p: P)
    requires LaneInv(lane) && !Full(lane.ch)
    ensures Sized(lane.ch)
    ensures LaneInv(Lane(Xmit(lane.ch, p), lane.accepted + [p], lane.sent))
    ensures XmitStopsQueue(lane.ch) <==> Full(Xmit(lane.ch, p))
  {
    if lane.ch.idle {
      XmitWhenIdle(lane.ch, p);
    } else {
      XmitWhenBusy(lane.ch, p);
      XmitWhenBusyQueues(lane.ch, p);
    }
  }

  /** The engine never leaves its half: a STOPPED descriptor is ahead until it is met. */
  lemma FetchKeepsChannelInv<P>(ch: Channel<P>)
    requires ChannelInv(ch) && ch.engine.Fetching?
    ensures ch.engine.at < |ch.desc| == |ch.buff| && ChannelInv(Fetch(ch))
    ensures ch.engine.at == ch.marked <==> Fetch(ch).engine.Stopped?
    ensures ch.engine.at < ch.marked <==> Fetch(ch).engine == Fetching(ch.engine.at + 1)
  {
  }

  lemma FetchSends<P>(ch: Channel<P>)
    requires ChannelInv(ch) && ch.engine.Fetching?
    ensures RunningPackets(ch) == [ch.buff[ch.engine.at]] + RunningPackets(Fetch(ch))
  {
    var at := ch.engine.at;
    FetchKeepsChannelInv(ch);
    assert ch.buff[at..ch.marked + 1] == [ch.buff[at]] + ch.buff[at + 1..ch.marked + 1];
  }

  lemma FetchLeavesFilling<P>(ch: Channel<P>)
    requires ChannelInv(ch) && ch.engine.Fetching? && ch.engine.at < |ch.desc|
    ensures Sized(Fetch(ch)) && FillingPackets(Fetch(ch)) == FillingPackets(ch)
  {
  }

  lemma FetchKeepsLaneInv<P>(lane: Lane<P>)
    requires LaneInv(lane) && lane.ch.engine.Fetching?
    ensures lane.ch.engine.at < |lane.ch.desc| && LaneInv(FetchLane(lane))
  {
    hide ChannelInv, RunningPackets, FillingPackets, Fetch;
    FetchKeepsChannelInv(lane.ch);
    FetchSends(lane.ch);
    FetchLeavesFilling(lane.ch);
    Regroup(lane.sent, [lane.ch.buff[lane.ch.engine.at]], RunningPackets(Fetch(lane.ch)));
  }

  lemma Regroup<P>(a: seq<P>, b: seq<P>, c: seq<P>)
    ensures a + (b + c) == a + b + c
  {
  }

  /** A completion with packets queued starts the engine on exactly those packets. */
  lemma CompleteWithPackets<P>(ch: Channel<P>)
    requires ChannelInv(ch) && ch.engine.Stopped? && ch.curPktCount != 0
    ensures ChannelInv(Complete(ch)) && Complete(ch).curPktCount == 0
    ensures RunningPackets(Complete(ch)) == FillingPackets(ch)
  {
    CompleteRuns(ch);
    CompleteKeepsChannelInv(ch);
    hide ChannelInv, Complete;
  }

  lemma CompleteRuns<P>(ch: Channel<P>)
    requires ChannelInv(ch) && ch.engine.Stopped? && ch.curPktCount != 0
    ensures RunningPackets(Complete(ch)) == FillingPackets(ch)
  {
  }

  lemma CompleteKeepsChannelInv<P>(ch: Channel<P>)
    requires ChannelInv(ch) && ch.engine.Stopped? && ch.curPktCount != 0
    ensures ChannelInv(Complete(ch)) && Complete(ch).curPktCount == 0
  {
  }

  lemma CompleteKeepsLaneInv<P>(lane: Lane<P>)
    requires LaneInv(lane) && lane.ch.engine.Stopped?
    ensures LaneInv(lane.(ch := Complete(lane.ch))) && Complete(lane.ch).curPktCount == 0
    ensures Complete(lane.ch).half == lane.ch.half
  {
    if lane.ch.curPktCount != 0 {
      CompleteWithPackets(lane.ch);
    }
  }

  lemma XmitStep<P>(dev: Device<P>, c: nat, p: P)
    requires Inv(dev) && Enabled(dev, XmitEvent(c, p))
    ensures Inv(Next(dev, XmitEvent(c, p)))
  {
    hide LaneInv, Xmit;
    XmitKeepsLaneInv(dev.lanes[c], p);
  }

  lemma FetchStep<P>(dev: Device<P>, c: nat)
    requires Inv(dev) && Enabled(dev, FetchEvent(c))
    ensures Inv(Next(dev, FetchEvent(c)))
  {
    hide LaneInv;
    FetchKeepsLaneInv(dev.lanes[c]);
  }

  lemma IrqStep<P>(dev: Device<P>, c: nat)
    requires Inv(dev) && Enabled(dev, IrqEvent(c))
    ensures Inv(Next(dev, IrqEvent(c)))
  {
    hide LaneInv, Complete;
    CompleteKeepsLaneInv(dev.lanes[c]);
  }

  lemma IrqLeavesOther<P>(dev: Device<P>, c: nat)
    requires Enabled(dev, IrqEvent(c))
    ensures Next(dev, IrqEvent(c)).lanes[1 - c] == dev.lanes[1 - c]
  {
  }

  lemma StepKeepsInv<P>(dev: Device<P>, e: Event<P>)
    requires Inv(dev) && Enabled(dev, e)
    ensures Inv(Next(dev, e))
  {
    match e
    case XmitEvent(c, p) => XmitStep(dev, c, p);
    case FetchEvent(c) => FetchStep(dev, c);
    case IrqEvent(c) => IrqStep(dev, c);
  }

  lemma OpenedInv<P>(dev: Device<P>)
    requires Opened(dev)
    ensures Inv(dev)
  {
    InitialLinks(dev.lanes[0].ch.half);
    InitialLinks(dev.lanes[1].ch.half);
  }

  lemma {:induction false} RunKeepsInv<P>(dev: Device<P>, es: seq<Event<P>>)
    requires Inv(dev) && ValidRun(dev, es)
    ensures Inv(Run(dev, es))
    decreases |es|
  {
    if es == [] {
    } else {
      StepKeepsInv(dev, es[0]);
      RunKeepsInv(Next(dev, es[0]), es[1..]);
    }
  }

  // ----- first in, first out -----

  /** The packets that a run's events hand to channel c. */
  function Offered<P>(es: seq<Event<P>>, c: nat): seq<P> {
    if es == [] then [] else OfferedBy(es[0], c) + Offered(es[1..], c)
  }

  function OfferedBy<P>(e: Event<P>, c: nat): seq<P> {
    if e.XmitEvent? && e.c == c then [e.p] else []
  }

  lemma StepAccepts<P>(dev: Device<P>, e: Event<P>, c: nat)
    requires Enabled(dev, e) && c < 2
    ensures |Next(dev, e).lanes| == 2
    ensures Next(dev, e).lanes[c].accepted == dev.lanes[c].accepted + OfferedBy(e, c)
  {
    hide Xmit, XmitStopsQueue, Complete, Fetch;
  }

  lemma {:induction false} RunAccepts<P>(dev: Device<P>, es: seq<Event<P>>, c: nat)
    requires |dev.lanes| == 2 && c < 2 && ValidRun(dev, es)
    ensures |Run(dev, es).lanes| == 2
    ensures Run(dev, es).lanes[c].accepted == dev.lanes[c].accepted + Offered(es, c)
    decreases |es|
  {
    hide Enabled, Next, OfferedBy;
    if es == [] {
    } else {
      var a, b := dev.lanes[c].accepted, OfferedBy(es[0], c);
      StepAccepts(dev, es[0], c);
      RunAccepts(Next(dev, es[0]), es[1..], c);
      assert a + b + Offered(es[1..], c) == a + (b + Offered(es[1..], c));
    }
  }

  /** Over every run from open, on each channel: what was handed over is what was sent, then the rest
      of the engine's run, then the half being filled, in order. No packet is lost, duplicated or
      overwritten, the engine never runs off a chain, and BUG_ON(engine->running) never fires. */
  lemma TransmitsInOrder<P>(dev: Device<P>, es: seq<Event<P>>, c: nat)
    requires Opened(dev) && ValidRun(dev, es) && c < 2
    ensures |Run(dev, es).lanes| == 2
    ensures var lane := Run(dev, es).lanes[c];
      && Sized(lane.ch) && lane.ch.curPktCount <= lane.ch.half
      && Offered(es, c) == lane.sent + RunningPackets(lane.ch) + FillingPackets(lane.ch)
      && !lane.ch.bug && lane.ch.engine != Fault
  {
    OpenedInv(dev);
    OpenedEmpty(dev, c);
    hide Opened, Inv, LaneInv, Sized, RunningPackets, FillingPackets, Offered, ValidRun;
    RunKeepsInv(dev, es);
    RunAccepts(dev, es, c);
    InvAt(Run(dev, es), c);
    LaneInOrder(Run(dev, es).lanes[c]);
    assert [] + Offered(es, c) == Offered(es, c);
  }

  lemma OpenedEmpty<P>(dev: Device<P>, c: nat)
    requires Opened(dev) && c < 2
    ensures |dev.lanes| == 2 && dev.lanes[c].accepted == []
  {
  }

  lemma LaneInOrder<P>(lane: Lane<P>)
    requires LaneInv(lane)
    ensures Sized(lane.ch) && lane.ch.curPktCount <= lane.ch.half && !lane.ch.bug && lane.ch.engine != Fault
    ensures lane.accepted == lane.sent + RunningPackets(lane.ch) + FillingPackets(lane.ch)
  {
  }

  // ----- ownership of the two halves -----

  /** Whenever the engine is in a run, its walk stays in the half that is not being filled and meets
      its first STOPPED flag at the last descriptor queued for that run. */
  lemma WalkEndsAtMarked<P>(ch: Channel<P>)
    requires ChannelInv(ch) && ch.engine.Fetching?
    ensures Walk(ch.desc, ch.engine.at, |ch.desc|) == Range(ch.engine.at, ch.marked - ch.engine.at + 1)
    ensures RunBase(ch) <= ch.engine.at <= ch.marked < RunBase(ch) + ch.half
  {
    WalkOfSegment(ch.desc, ch.engine.at, ch.marked - ch.engine.at + 1, |ch.desc|);
  }

  /** Both steps that start the engine, a transmit on an idle channel and a completion with packets
      queued, do so on list_desc[current_list], and the walk from there is exactly the descriptors
      queued since the halves were last swapped. */
  lemma XmitStartsOnQueued<P>(ch: Channel<P>, p: P)
    requires ChannelInv(ch) && ch.idle
    ensures var head, ch' := ch.listDesc[ch.currentList], Xmit(ch, p);
      && ch'.engine == Fetching(head)
      && Walk(ch'.desc, head, |ch'.desc|) == Range(head, 1)
      && RunningPackets(ch') == [p]
  {
  }

  lemma CompletionStartsOnQueued<P>(ch: Channel<P>)
    requires ChannelInv(ch) && ch.engine.Stopped? && ch.curPktCount != 0
    ensures var head, ch' := ch.listDesc[ch.currentList], Complete(ch);
      && ch'.engine == Fetching(head)
      && Walk(ch'.desc, head, |ch'.desc|) == Range(head, ch.curPktCount)
      && RunningPackets(ch') == FillingPackets(ch)
  {
    CompleteWithPackets(ch);
    WalkEndsAtMarked(Complete(ch));
    hide ChannelInv;
  }

  /** The fill position, its bound, and idle as the negation of running. */
  lemma FillPosition<P>(ch: Channel<P>)
    requires ChannelInv(ch)
    ensures ch.cur == (ch.currentList * ch.half + ch.curPktCount) % (2 * ch.half)
    ensures ch.curPktCount <= ch.half && (ch.idle <==> !ch.running)
  {
    SmallMod(FillBase(ch) + ch.curPktCount, 2 * ch.half);
    assert ch.currentList * ch.half == FillBase(ch);
  }

  /** A transmit on a running channel writes nothing in the half the engine may be walking. */
  lemma XmitLeavesRunningHalf<P>(ch: Channel<P>, p: P, i: nat)
    requires ChannelInv(ch) && ch.running && !Full(ch)
    requires RunBase(ch) <= i < RunBase(ch) + ch.half
    ensures |Xmit(ch, p).desc| == |Xmit(ch, p).buff| == 2 * ch.half
    ensures Xmit(ch, p).desc[i] == ch.desc[i] && Xmit(ch, p).buff[i] == ch.buff[i]
  {
  }

  // ----- the control words -----

  /** Of the descriptors that the engine still has to fetch, the last one queued has EOP and STOPPED and the
      others neither; nor has any of those that are being filled; and COMPLETED is clear in all of them. */
  ghost predicate Controlled<P>(ch: Channel<P>) {
    && (ch.engine.Fetching? ==>
          forall i {:trigger ch.desc[i]} :: ch.engine.at <= i <= ch.marked < |ch.desc| ==>
            !ch.desc[i].completed && ch.desc[i].eop == ch.desc[i].stopped == (i == ch.marked))
    && (forall i {:trigger ch.desc[i]} :: FillBase(ch) <= i < FillBase(ch) + ch.curPktCount && i < |ch.desc| ==>
          !ch.desc[i].completed && !ch.desc[i].eop && !ch.desc[i].stopped)
  }

  lemma XmitKeepsControlled<P>(ch: Channel<P>, p: P)
    requires ChannelInv(ch) && Controlled(ch) && !Full(ch)
    ensures Sized(Xmit(ch, p)) && Controlled(Xmit(ch, p))
  {
    SmallMod(ch.cur + 1, 2 * ch.half);
  }

  lemma FetchKeepsControlled<P>(ch: Channel<P>)
    requires ChannelInv(ch) && Controlled(ch) && ch.engine.Fetching?
    ensures ch.engine.at < |ch.desc| && Sized(Fetch(ch)) && Controlled(Fetch(ch))
  {
  }

  lemma CompleteKeepsControlled<P>(ch: Channel<P>)
    requires ChannelInv(ch) && Controlled(ch) && ch.engine.Stopped?
    ensures Sized(Complete(ch)) && Controlled(Complete(ch))
  {
  }

  ghost predicate BothControlled<P>(dev: Device<P>) {
    |dev.lanes| == 2 && Controlled(dev.lanes[0].ch) && Controlled(dev.lanes[1].ch)
  }

  lemma ChannelAt<P>(dev: Device<P>, c: nat)
    requires Inv(dev) && c < 2
    ensures |dev.lanes| == 2 && ChannelInv(dev.lanes[c].ch) && Sized(dev.lanes[c].ch)
    ensures !dev.queueStopped ==> !Full(dev.lanes[c].ch)
  {
  }

  lemma StepKeepsControlled<P>(dev: Device<P>, e: Event<P>)
    requires Inv(dev) && Enabled(dev, e) && BothControlled(dev)
    ensures BothControlled(Next(dev, e))
  {
    ChannelAt(dev, e.c);
    hide Inv, Controlled, ChannelInv, Sized, Xmit, XmitStopsQueue, Complete, Fetch, Full;
    match e
    case XmitEvent(c, p) => XmitKeepsControlled(dev.lanes[c].ch, p);
    case FetchEvent(c) => FetchKeepsControlled(dev.lanes[c].ch);
    case IrqEvent(c) => CompleteKeepsControlled(dev.lanes[c].ch);
  }

  lemma {:induction false} RunKeepsControlled<P>(dev: Device<P>, es: seq<Event<P>>)
    requires Inv(dev) && ValidRun(dev, es) && BothControlled(dev)
    ensures Inv(Run(dev, es)) && BothControlled(Run(dev, es))
    decreases |es|
  {
    hide Inv, Enabled, Next, BothControlled;
    if es == [] {
    } else {
      StepKeepsInv(dev, es[0]);
      StepKeepsControlled(dev, es[0]);
      RunKeepsControlled(Next(dev, es[0]), es[1..]);
    }
  }

  /** So over every run from open the engine meets one EOP and one STOPPED, both on the last descriptor of
      its run. */
  lemma QueuedAreControlled<P>(dev: Device<P>, es: seq<Event<P>>, c: nat)
    requires Opened(dev) && ValidRun(dev, es) && c < 2
    ensures |Run(dev, es).lanes| == 2 && Controlled(Run(dev, es).lanes[c].ch)
  {
    hide Opened, Inv, ValidRun, Run, Controlled;
    OpenedInv(dev);
    OpenedControlled(dev);
    RunKeepsControlled(dev, es);
  }

  lemma OpenedControlled<P>(dev: Device<P>)
    requires Opened(dev)
    ensures BothControlled(dev)
  {
    hide InitialRing;
  }

  // ----- the shared queue -----

  /** In every reachable state the queue is stopped iff exactly one channel's filling half is full;
      that channel is the one named, and its engine is running. */
  lemma QueueStopsForOneChannel<P>(dev: Device<P>, es: seq<Event<P>>)
    requires Opened(dev) && ValidRun(dev, es)
    ensures var now := Run(dev, es);
      && |now.lanes| == 2
      && (now.queueStopped <==> Full(now.lanes[0].ch) != Full(now.lanes[1].ch))
      && !(Full(now.lanes[0].ch) && Full(now.lanes[1].ch))
      && (now.queueStopped ==>
            && now.stopQueueChannel < 2
            && Full(now.lanes[now.stopQueueChannel].ch)
            && now.lanes[now.stopQueueChannel].ch.running)
  {
    OpenedInv(dev);
    RunKeepsInv(dev, es);
  }

  /** While the queue is stopped, the completion of the named channel wakes it with a whole half
      free, and the completion of the other channel leaves it stopped. */
  lemma OnlyNamedChannelWakes<P>(dev: Device<P>, c: nat)
    requires Inv(dev) && dev.queueStopped && Enabled(dev, IrqEvent(c))
    ensures Next(dev, IrqEvent(c)).queueStopped <==> c != dev.stopQueueChannel
    ensures Next(dev, IrqEvent(c)).lanes[c].ch.curPktCount == 0
  {
  }

  // ----- progress -----

  lemma {:induction false} RunConcat<P>(dev: Device<P>, es: seq<Event<P>>, fs: seq<Event<P>>)
    requires ValidRun(dev, es) && ValidRun(Run(dev, es), fs)
    ensures ValidRun(dev, es + fs) && Run(dev, es + fs) == Run(Run(dev, es), fs)
    decreases |es|
  {
    hide Enabled, Next;
    if es == [] {
      assert es + fs == fs;
    } else {
      assert (es + fs)[1..] == es[1..] + fs;
      RunConcat(Next(dev, es[0]), es[1..], fs);
    }
  }

  lemma RunCons<P>(dev: Device<P>, e: Event<P>, es: seq<Event<P>>)
    requires Enabled(dev, e) && ValidRun(Next(dev, e), es)
    ensures ValidRun(dev, [e] + es) && Run(dev, [e] + es) == Run(Next(dev, e), es)
  {
  }

  /** No transmit, and nothing on the other channel. */
  ghost predicate OnlyHardware<P>(es: seq<Event<P>>, c: nat) {
    forall i {:trigger es[i]} :: 0 <= i < |es| ==> es[i].c == c && !es[i].XmitEvent?
  }

  /** A lane whose engine has sent the rest of its run and stopped. */
  function Finished<P>(lane: Lane<P>): Lane<P> {
    Lane(lane.ch.(engine := Stopped), lane.accepted, lane.sent + RunningPackets(lane.ch))
  }

  lemma FetchTowardsEnd<P>(lane: Lane<P>)
    requires LaneInv(lane) && lane.ch.engine.Fetching?
    ensures lane.ch.engine.at < |lane.ch.desc| && Finished(FetchLane(lane)) == Finished(lane)
  {
    var p := lane.ch.buff[lane.ch.engine.at];
    FetchSends(lane.ch);
    assert lane.sent + ([p] + RunningPackets(Fetch(lane.ch))) == lane.sent + [p] + RunningPackets(Fetch(lane.ch));
  }

  /** `dev'` differs from `dev` at most in channel c's lane. */
  ghost predicate SameBut<P>(dev: Device<P>, dev': Device<P>, c: nat) {
    && c < 2 && |dev.lanes| == |dev'.lanes| == 2
    && dev'.lanes[1 - c] == dev.lanes[1 - c]
    && dev'.queueStopped == dev.queueStopped && dev'.stopQueueChannel == dev.stopQueueChannel
  }

  /** The fetches still to be made before the engine stops. */
  ghost function FetchesLeft<P>(ch: Channel<P>): nat {
    if ch.engine.Fetching? && ch.engine.at <= ch.marked then ch.marked - ch.engine.at + 1 else 0
  }

  lemma FetchLaneAdvances<P>(lane: Lane<P>)
    requires LaneInv(lane) && lane.ch.engine.Fetching?
    ensures lane.ch.engine.at < |lane.ch.desc| && Finished(FetchLane(lane)) == Finished(lane)
    ensures FetchLane(lane).ch.running && FetchesLeft(FetchLane(lane).ch) < FetchesLeft(lane.ch)
  {
    FetchTowardsEnd(lane);
    FetchKeepsChannelInv(lane.ch);
  }

  lemma FetchAdvances<P>(dev: Device<P>, c: nat)
    requires Inv(dev) && c < 2 && dev.lanes[c].ch.engine.Fetching?
    ensures Enabled(dev, FetchEvent(c)) && Inv(Next(dev, FetchEvent(c)))
    ensures SameBut(dev, Next(dev, FetchEvent(c)), c)
    ensures Finished(Next(dev, FetchEvent(c)).lanes[c]) == Finished(dev.lanes[c])
    ensures var ch' := Next(dev, FetchEvent(c)).lanes[c].ch;
      ch'.running && FetchesLeft(ch') < FetchesLeft(dev.lanes[c].ch)
  {
    hide Inv, LaneInv, FetchLane, Finished, FetchesLeft;
    InvAt(dev, c);
    FetchLaneAdvances(dev.lanes[c]);
    FetchStep(dev, c);
  }

  lemma RunningEngine<P>(lane: Lane<P>)
    requires LaneInv(lane) && lane.ch.running
    ensures lane.ch.engine.Fetching? || (lane.ch.engine.Stopped? && Finished(lane) == lane)
  {
  }

  /** A running engine reaches its STOPPED descriptor by fetching alone, sending its whole run. */
  lemma {:induction false} FinishRun<P>(dev: Device<P>, c: nat) returns (es: seq<Event<P>>)
    requires Inv(dev) && c < 2 && dev.lanes[c].ch.running
    ensures OnlyHardware(es, c) && ValidRun(dev, es) && Inv(Run(dev, es))
    ensures SameBut(dev, Run(dev, es), c) && Run(dev, es).lanes[c] == Finished(dev.lanes[c])
    decreases FetchesLeft(dev.lanes[c].ch)
  {
    hide Inv, LaneInv, Enabled, Next, FetchesLeft, Finished;
    InvAt(dev, c);
    RunningEngine(dev.lanes[c]);
    if dev.lanes[c].ch.engine.Stopped? {
      es := [];
    } else {
      var e: Event<P> := FetchEvent(c);
      FetchAdvances(dev, c);
      var rest := FinishRun(Next(dev, e), c);
      es := [e] + rest;
      RunCons(dev, e, rest);
    }
  }

  /** `dev'` is `dev` after channel c's run was sent and its completion handled. */
  ghost predicate Served<P>(dev: Device<P>, dev': Device<P>, c: nat) {
    && c < 2 && |dev.lanes| == |dev'.lanes| == 2
    && dev'.queueStopped == (dev.queueStopped && dev.stopQueueChannel != c)
    && dev'.lanes[c].accepted == dev.lanes[c].accepted
    && dev'.lanes[c].ch.curPktCount == 0
    && dev'.lanes[c].ch.running == !dev'.lanes[c].ch.idle == (dev.lanes[c].ch.curPktCount != 0)
  }

  lemma CompletionOutcome<P>(lane: Lane<P>)
    requires LaneInv(lane) && lane.ch.running
    ensures var done := Finished(lane);
      && done.accepted == lane.accepted && Sized(done.ch) && done.ch.engine.Stopped?
      && var ch' := Complete(done.ch);
         ch'.curPktCount == 0 && ch'.running == !ch'.idle == (lane.ch.curPktCount != 0)
  {
  }

  lemma CompletionServes<P>(dev: Device<P>, mid: Device<P>, c: nat)
    requires Inv(dev) && c < 2 && dev.lanes[c].ch.running
    requires SameBut(dev, mid, c) && mid.lanes[c] == Finished(dev.lanes[c])
    ensures Enabled(mid, IrqEvent(c)) && Served(dev, Next(mid, IrqEvent(c)), c)
  {
    hide Inv, LaneInv, Finished, Complete, Sized;
    InvAt(dev, c);
    CompletionOutcome(dev.lanes[c]);
  }

  /** Then the completion interrupt: what was filling becomes the next run, or the channel is idle. */
  lemma FinishAndComplete<P>(dev: Device<P>, c: nat) returns (es: seq<Event<P>>)
    requires Inv(dev) && c < 2 && dev.lanes[c].ch.running
    ensures OnlyHardware(es, c) && ValidRun(dev, es) && Inv(Run(dev, es))
    ensures Served(dev, Run(dev, es), c)
  {
    hide Inv, LaneInv, Served, Enabled, Next, SameBut, Finished;
    InvAt(dev, c);
    var fs := FinishRun(dev, c);
    var mid, e: Event<P> := Run(dev, fs), IrqEvent(c);
    CompletionServes(dev, mid, c);
    IrqStep(mid, c);
    RunCons(mid, e, []);
    RunConcat(dev, fs, [e]);
    es := fs + [e];
  }

  /** No lost wake-up: from every reachable state in which the queue is stopped, the hardware of the
      named channel alone leads to a woken queue. */
  lemma StoppedQueueWakes<P>(dev: Device<P>) returns (es: seq<Event<P>>)
    requires Inv(dev) && dev.queueStopped
    ensures OnlyHardware(es, dev.stopQueueChannel) && ValidRun(dev, es)
    ensures Inv(Run(dev, es)) && !Run(dev, es).queueStopped
    ensures Run(dev, es).lanes[dev.stopQueueChannel].ch.curPktCount == 0
  {
    assert QueueInv(dev);
    InvAt(dev, 0);
    InvAt(dev, 1);
    IdleHasSentAll(dev.lanes[dev.stopQueueChannel]);
    hide Inv, LaneInv;
    es := FinishAndComplete(dev, dev.stopQueueChannel);
  }

  lemma IdleHasSentAll<P>(lane: Lane<P>)
    requires LaneInv(lane)
    ensures lane.ch.idle == !lane.ch.running
    ensures lane.ch.idle ==> lane.sent == lane.accepted && !Full(lane.ch)
  {
  }

  /** Every packet gets out: from every reachable state, at most two runs of the channel's hardware
      send everything that was accepted and leave the channel idle. */
  lemma ChannelDrains<P>(dev: Device<P>, c: nat) returns (es: seq<Event<P>>)
    requires Inv(dev) && c < 2
    ensures OnlyHardware(es, c) && ValidRun(dev, es) && Inv(Run(dev, es))
    ensures var lane' := Run(dev, es).lanes[c];
      lane'.ch.idle && lane'.sent == lane'.accepted == dev.lanes[c].accepted
  {
    hide Inv, LaneInv, Full;
    es := [];
    InvAt(dev, c);
    IdleHasSentAll(dev.lanes[c]);
    if !dev.lanes[c].ch.idle {
      es := FinishAndComplete(dev, c);
      var mid := Run(dev, es);
      InvAt(mid, c);
      IdleHasSentAll(mid.lanes[c]);
      if !mid.lanes[c].ch.idle {
        var fs := FinishAndComplete(mid, c);
        RunConcat(dev, es, fs);
        es := es + fs;
        InvAt(Run(dev, es), c);
        IdleHasSentAll(Run(dev, es).lanes[c]);
      }
    }
  }

  // ----- several channels in one interrupt -----

  /** The events that xdma_isr raises for the first `n` channels, given which of them fired. */
  ghost function Irqs<P>(fired: seq<bool>, n: nat): seq<Event<P>>
    requires n <= |fired|
  {
    if n == 0 then [] else Irqs(fired, n - 1) + if fired[n - 1] then [IrqEvent(n - 1)] else []
  }

  /** A channel is completed if and only if it fired, and the queue is woken if and only if the channel that
      stopped it fired; no channel is then named any more. */
  ghost predicate AllCompleted<P>(dev: Device<P>, dev': Device<P>, fired: seq<bool>)
    requires |fired| == 2
  {
    var named := dev.stopQueueChannel;
    && |dev.lanes| == |dev'.lanes| == 2
    && (forall c {:trigger fired[c]} :: 0 <= c < 2 ==>
          && Sized(dev.lanes[c].ch)
          && dev'.lanes[c] == if fired[c] then dev.lanes[c].(ch := Complete(dev.lanes[c].ch)) else dev.lanes[c])
    && dev'.queueStopped == (dev.queueStopped && !(named < 2 && fired[named]))
    && dev'.stopQueueChannel == if named < 2 && fired[named] then 0xFF else named
  }

  lemma IrqOutcome<P>(dev: Device<P>, c: nat)
    requires Enabled(dev, IrqEvent(c))
    ensures |dev.lanes| == 2 && c < 2 && Sized(dev.lanes[c].ch)
    ensures var lane, named := dev.lanes[c], dev.stopQueueChannel;
      Next(dev, IrqEvent(c)) == Device(dev.lanes[c := lane.(ch := Complete(lane.ch))],
                                       dev.queueStopped && named != c, if named == c then 0xFF else named)
  {
    hide Complete, Sized;
  }

  lemma RunNone<P>(dev: Device<P>)
    ensures ValidRun(dev, []) && Run(dev, []) == dev
  {
  }

  lemma IrqsOf<P>(fired: seq<bool>)
    requires |fired| == 2
    ensures Irqs<P>(fired, 2) == (if fired[0] then [IrqEvent(0)] else []) + (if fired[1] then [IrqEvent(1)] else [])
  {
    assert Irqs<P>(fired, 1) == if fired[0] then [IrqEvent(0)] else [];
  }

  lemma RunFirst<P>(dev: Device<P>, es: seq<Event<P>>)
    requires es != [] && ValidRun(dev, es)
    ensures Enabled(dev, es[0]) && ValidRun(Next(dev, es[0]), es[1..]) && Run(dev, es) == Run(Next(dev, es[0]), es[1..])
  {
    hide Enabled, Next;
  }

  lemma IrqsComplete<P>(dev: Device<P>, fired: seq<bool>)
    requires Inv(dev) && |fired| == 2 && ValidRun(dev, Irqs(fired, 2))
    ensures AllCompleted(dev, Run(dev, Irqs(fired, 2)), fired)
  {
    hide Irqs, Inv, LaneInv, Enabled, Next, Run, ValidRun, Sized, Complete;
    InvAt(dev, 0);
    InvAt(dev, 1);
    IrqsOf<P>(fired);
    var es: seq<Event<P>> := Irqs(fired, 2);
    var mid := dev;
    if fired[0] {
      RunFirst(dev, es);
      IrqOutcome(dev, 0);
      mid := Next(dev, es[0]);
      es := es[1..];
    }
    assert es == if fired[1] then [IrqEvent(1)] else [];
    if fired[1] {
      RunFirst(mid, es);
      assert es[1..] == [];
      IrqOutcome(mid, 1);
      RunNone(Next(mid, es[0]));
    } else {
      RunNone(mid);
    }
  }

  // ----- nothing delays the wake-up -----

  /** The queue is stopped before a run and after every step of it. */
  ghost predicate StaysStopped<P>(dev: Device<P>, es: seq<Event<P>>)
    requires ValidRun(dev, es)
    decreases |es|
  {
    dev.queueStopped && (es == [] || StaysStopped(Next(dev, es[0]), es[1..]))
  }

  /** The completions and the fetches of channel c in a run. */
  function Completions<P>(es: seq<Event<P>>, c: nat): nat {
    if es == [] then 0 else (if es[0].IrqEvent? && es[0].c == c then 1 else 0) + Completions(es[1..], c)
  }

  function Fetches<P>(es: seq<Event<P>>, c: nat): nat {
    if es == [] then 0 else FetchBy(es[0], c) + Fetches(es[1..], c)
  }

  function FetchBy<P>(e: Event<P>, c: nat): nat {
    if e.FetchEvent? && e.c == c then 1 else 0
  }

  lemma FetchCounts<P>(lane: Lane<P>)
    requires LaneInv(lane) && lane.ch.engine.Fetching?
    ensures lane.ch.engine.at < |lane.ch.desc| && FetchesLeft(FetchLane(lane).ch) == FetchesLeft(lane.ch) - 1
  {
    FetchKeepsChannelInv(lane.ch);
  }

  /** While the queue is stopped, a step that is not the named channel's completion leaves it stopped for
      the same channel, and makes its engine's run shorter by the fetch, if it is one of that channel. */
  lemma StoppedStep<P>(dev: Device<P>, e: Event<P>)
    requires Inv(dev) && dev.queueStopped && Enabled(dev, e)
    ensures var c, dev' := dev.stopQueueChannel, Next(dev, e);
      && c < 2 && |dev.lanes| == |dev'.lanes| == 2
      && (dev'.queueStopped <==> !(e.IrqEvent? && e.c == c))
      && (dev'.queueStopped ==>
            dev'.stopQueueChannel == c
            && FetchesLeft(dev.lanes[c].ch) == FetchesLeft(dev'.lanes[c].ch) + FetchBy(e, c))
  {
    assert QueueInv(dev);
    InvAt(dev, e.c);
    hide Inv, LaneInv, FetchesLeft, Complete, Full, Xmit;
    if e.FetchEvent? {
      FetchCounts(dev.lanes[e.c]);
    }
  }

  /** From any reachable state with a stopped queue, over every run: the queue stays stopped exactly as
      long as the named channel has no completion interrupt, and all that while each fetch of its engine,
      and nothing else, brings that interrupt nearer. The other channel cannot delay it. */
  lemma {:induction false} NothingDelaysWakeUp<P>(dev: Device<P>, es: seq<Event<P>>)
    requires Inv(dev) && dev.queueStopped && ValidRun(dev, es)
    ensures var c := dev.stopQueueChannel;
      && c < 2 && |dev.lanes| == |Run(dev, es).lanes| == 2
      && (StaysStopped(dev, es) <==> Completions(es, c) == 0)
      && (StaysStopped(dev, es) ==>
            Run(dev, es).stopQueueChannel == c
            && FetchesLeft(dev.lanes[c].ch) == FetchesLeft(Run(dev, es).lanes[c].ch) + Fetches(es, c))
    decreases |es|
  {
    hide Inv, Enabled, Next, FetchesLeft, FetchBy;
    StoppedChannel(dev);
    if es == [] {
    } else {
      StoppedStep(dev, es[0]);
      StepKeepsInv(dev, es[0]);
      if Next(dev, es[0]).queueStopped {
        NothingDelaysWakeUp(Next(dev, es[0]), es[1..]);
      } else {
        RunKeepsLanes(Next(dev, es[0]), es[1..]);
      }
    }
  }

  lemma StoppedChannel<P>(dev: Device<P>)
    requires Inv(dev) && dev.queueStopped
    ensures dev.stopQueueChannel < 2 && |dev.lanes| == 2
  {
    assert QueueInv(dev);
  }

  lemma RunKeepsLanes<P>(dev: Device<P>, es: seq<Event<P>>)
    requires Inv(dev) && ValidRun(dev, es)
    ensures |Run(dev, es).lanes| == 2
  {
    RunKeepsInv(dev, es);
    InvAt(Run(dev, es), 0);
  }

  /** And those fetches are at most a half. */
  lemma FetchesLeftInHalf<P>(ch: Channel<P>)
    requires ChannelInv(ch)
    ensures FetchesLeft(ch) <= ch.half
  {
  }
}
