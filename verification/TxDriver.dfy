/** The transmit side of the driver in its own, updating form. Every method is tied to a step of the
    state machine in TxRing, whose properties therefore hold of every sequence of these calls. */
module TxDriver {
  import opened Descriptors
  import opened TxRing

  /** ax_tx_list, xdma_transfer and xdma_engine of one channel. The engine's own position and the
      descriptor last marked STOPPED are ghost: the driver never reads them. */
  class TxChannel<P(0)> {
    const half: nat
    const desc: array<Desc>
    const listDesc: array<nat>
    const buff: array<P>
    var currentList: nat
    var cur: nat
    var curPktCount: nat
    var idle: bool
    var running: bool
    ghost var engine: Engine
    ghost var marked: nat

    ghost predicate Valid()
      reads this
    {
      && half > 0
      && desc.Length == buff.Length == 2 * half && listDesc.Length == DESC_LIST_NUM
      && (buff as object) != desc && (buff as object) != listDesc && (desc as object) != listDesc
      && currentList < DESC_LIST_NUM && cur < 2 * half
    }

    ghost function Repr(): set<object>
      reads this
    {
      {this, desc, listDesc, buff}
    }

    ghost function State(): (ch: Channel<P>)
      requires Valid()
      reads this, Repr()
      ensures Sized(ch)
    {
      Channel(half, desc[..], listDesc[..], buff[..], currentList, cur, curPktCount, idle, running, engine, false, marked)
    }

    constructor (half: nat)
      requires half > 0
      ensures Valid() && fresh(Repr()) && this.half == half
      ensures !running && engine == Halted
    {
      this.half := half;
      desc := new Desc[2 * half](_ => Desc(Wrappers.None, false, false, false));
      listDesc := new nat[DESC_LIST_NUM](_ => 0);
      buff := new P[2 * half];
      currentList, cur, curPktCount := 0, 0, 0;
      idle, running := true, false;
      engine, marked := Halted, 0;
    }

    /** xdma_desc_setup and the reset of the list in ax_net_open. */
    method Reset()
      requires Valid() && !running && engine == Halted
      modifies this`currentList, this`cur, this`curPktCount, this`idle, desc, listDesc
      ensures Valid() && OpenedChannel(State())
    {
      currentList := 0;
      InitialLinks(half);
      TransferDescInit(desc, listDesc, 2 * half);
      assert desc[..] == desc[..2 * half];
      assert listDesc[..] == [0, half];
      cur := 0;
      idle := true;
      curPktCount := 0;
    }

    /** The precondition is BUG_ON(engine->running). */
    method EngineStart()
      requires Valid() && !running
      modifies this`running, this`engine
      ensures State() == TxRing.EngineStart(old(State()))
    {
      engine := Fetching(listDesc[currentList]);
      running := true;
    }

    method EngineStop()
      requires Valid()
      modifies this`running, this`engine
      ensures State() == TxRing.EngineStop(old(State()))
    {
      running := false;
      engine := Halted;
    }

    method SetControl(i: nat)
      requires Valid() && i < desc.Length
      modifies desc
      ensures State() == old(State()).(desc := TxRing.SetControl(old(State()).desc, i, false))
    {
      desc[i] := desc[i].(stopped := false, completed := false, eop := false);
    }

    method MarkStopped(i: nat)
      requires Valid() && i < desc.Length
      modifies desc, this`marked
      ensures State() == old(State()).(desc := TxRing.SetControl(old(State()).desc, i, true), marked := i)
    {
      desc[i] := desc[i].(stopped := true, completed := false, eop := true);
      marked := i;
    }

    method SwapHalves()
      requires Valid()
      modifies this`idle, this`currentList, this`cur, this`curPktCount
      ensures Valid() && State() == TxRing.SwapHalves(old(State()))
    {
      idle := false;
      currentList := (currentList + 1) % DESC_LIST_NUM;
      cur := currentList * half;
      curPktCount := 0;
    }

    /** The channel part of ax_net_start_xmit; `stop` asks the caller to stop the queue. */
    method StartXmit(p: P) returns (stop: bool)
      requires Valid() && idle == !running
      modifies Repr()
      ensures Valid() && State() == Xmit(old(State()), p)
      ensures stop == old(XmitStopsQueue(State()))
    {
      stop := false;
      var entry := cur;
      buff[entry] := p;
      curPktCount := curPktCount + 1;
      if idle {
        MarkStopped(entry);
        EngineStart();
        SwapHalves();
      } else {
        SetControl(entry);
        cur := (entry + 1) % (2 * half);
        stop := cur == 0 || cur == half;
      }
    }

    /** The channel part of the completion interrupt, the same in all three handlers. */
    method Completion()
      requires Valid()
      modifies Repr()
      ensures Valid() && State() == Complete(old(State()))
    {
      EngineStop();
      if curPktCount != 0 {
        var stopDesc: nat;
        if cur == 0 {
          stopDesc := 2 * half - 1;
        } else {
          stopDesc := cur - 1;
        }
        MarkStopped(stopDesc);
        EngineStart();
        SwapHalves();
      } else {
        idle := true;
      }
    }

    /** The hardware's step. */
    ghost method DmaFetch() returns (p: P)
      requires Valid() && engine.Fetching? && engine.at < desc.Length
      modifies this`engine
      ensures State() == Fetch(old(State())) && p == old(buff[engine.at])
    {
      p := buff[engine.at];
      engine := TxRing.Fetch(State()).engine;
    }
  }

  /** The net device: two transmit channels behind one queue, and the packet history. */
  class NetDevice<P(0)> {
    const tx0: TxChannel<P>
    const tx1: TxChannel<P>
    var queueStopped: bool
    var stopQueueChannel: nat
    ghost var accepted: seq<seq<P>>
    ghost var sent: seq<seq<P>>

    ghost predicate Valid()
      reads this, tx0, tx1
    {
      && tx0.Valid() && tx1.Valid()
      && tx0.Repr() !! tx1.Repr() && this !in tx0.Repr() && this !in tx1.Repr()
      && |accepted| == |sent| == 2
    }

    ghost function Repr(): set<object>
      reads this, tx0, tx1
    {
      {this} + tx0.Repr() + tx1.Repr()
    }

    ghost function State(): Device<P>
      requires Valid()
      reads this, tx0, tx1, Repr()
    {
      Device([Lane(tx0.State(), accepted[0], sent[0]), Lane(tx1.State(), accepted[1], sent[1])],
             queueStopped, stopQueueChannel)
    }

    constructor (half: nat)
      requires half > 0
      ensures Valid() && fresh(Repr())
      ensures !tx0.running && !tx1.running && tx0.engine == tx1.engine == Halted
    {
      var first := new TxChannel<P>(half);
      var second := new TxChannel<P>(half);
      tx0, tx1 := first, second;
      queueStopped, stopQueueChannel := true, 0;
      accepted, sent := [[], []], [[], []];
    }

    /** The ring part of ax_net_open; `stop_queue_channel` keeps its value. */
    method Open()
      requires Valid()
      requires !tx0.running && !tx1.running && tx0.engine == tx1.engine == Halted
      modifies Repr()
      ensures Valid() && Opened(State()) && Inv(State())
      ensures stopQueueChannel == old(stopQueueChannel)
    {
      tx0.Reset();
      tx1.Reset();
      accepted, sent := [[], []], [[], []];
      queueStopped := false;
      OpenedInv(State());
    }

    /** The ring part of ax_net_close: after it the device can be opened again. */
    method Close()
      requires Valid()
      modifies Repr()
      ensures Valid() && queueStopped
      ensures !tx0.running && !tx1.running && tx0.engine == tx1.engine == Halted
    {
      queueStopped := true;
      tx0.EngineStop();
      tx1.EngineStop();
    }

    /** Channel `c`'s part of a transmit, the other channel being untouched. */
    method XmitOn(c: nat, p: P) returns (stop: bool)
      requires Valid() && c < 2
      requires State().lanes[c].ch.idle == !State().lanes[c].ch.running
      modifies this`accepted, tx0.Repr(), tx1.Repr()
      ensures Valid()
      ensures var lane := old(State()).lanes[c];
        && State() == old(State()).(
             lanes := old(State()).lanes[c := Lane(Xmit(lane.ch, p), lane.accepted + [p], lane.sent)])
        && stop == XmitStopsQueue(lane.ch)
    {
      hide Xmit, XmitStopsQueue;
      if c == 0 {
        stop := tx0.StartXmit(p);
        accepted := [accepted[0] + [p], accepted[1]];
      } else {
        stop := tx1.StartXmit(p);
        accepted := [accepted[0], accepted[1] + [p]];
      }
    }

    /** Channel `c`'s part of a completion, the other channel being untouched. */
    method CompleteOn(c: nat)
      requires Valid() && c < 2
      modifies tx0.Repr(), tx1.Repr()
      ensures Valid()
      ensures var lane := old(State()).lanes[c];
        State() == old(State()).(lanes := old(State()).lanes[c := lane.(ch := Complete(lane.ch))])
    {
      hide Complete;
      if c == 0 {
        tx0.Completion();
      } else {
        tx1.Completion();
      }
    }

    /** ax_net_start_xmit: packets that want a hardware time stamp go to channel 1. */
    method StartXmit(hwTstamp: bool, p: P)
      requires Valid() && Inv(State()) && !queueStopped
      modifies Repr()
      ensures Valid() && Inv(State())
      ensures State() == Next(old(State()), XmitEvent(if hwTstamp then 1 else 0, p))
    {
      hide Inv, LaneInv, Xmit, XmitStopsQueue;
      var index := if hwTstamp then 1 else 0;
      ghost var before := State();
      StepKeepsInv(before, XmitEvent(index, p));
      InvAt(before, index);
      IdleHasSentAll(before.lanes[index]);
      var stop := XmitOn(index, p);
      if stop {
        queueStopped := true;
        stopQueueChannel := index;
      }
    }

    /** A completion interrupt of one channel: xdma_channel_H2C_irq for channel 0,
        xdma_channel_H2C_PTP_irq for channel 1, and the body of the loop in xdma_isr. */
    method ChannelIrq(channel: nat)
      requires Valid() && Inv(State()) && Enabled(State(), IrqEvent(channel))
      modifies Repr()
      ensures Valid() && Inv(State())
      ensures State() == Next(old(State()), IrqEvent(channel))
    {
      hide Inv, Complete;
      StepKeepsInv(State(), IrqEvent(channel));
      CompleteOn(channel);
      if stopQueueChannel == channel {
        if queueStopped {
          queueStopped := false;
        }
        stopQueueChannel := NO_CHANNEL;
      }
    }

    /** xdma_isr: the completions of all channels that fired, in channel order. */
    method Isr(fired: seq<bool>)
      requires Valid() && Inv(State()) && |fired| == 2
      requires forall c: nat {:trigger fired[c]} :: c < 2 && fired[c] ==> Enabled(State(), IrqEvent(c))
      modifies Repr()
      ensures Valid() && Inv(State())
      ensures ValidRun(old(State()), Irqs(fired, 2)) && State() == Run(old(State()), Irqs(fired, 2))
      ensures AllCompleted(old(State()), State(), fired)
    {
      hide Inv, AllCompleted;
      ghost var before := State();
      for channel := 0 to 2
        invariant Valid() && Inv(State()) && Repr() == old(Repr())
        invariant forall c: nat {:trigger fired[c]} :: channel <= c < 2 && fired[c] ==> Enabled(State(), IrqEvent(c))
        invariant ValidRun(before, Irqs(fired, channel)) && State() == Run(before, Irqs(fired, channel))
      {
        if fired[channel] {
          ghost var mid, e: Event<P> := State(), IrqEvent(channel);
          ChannelIrq(channel);
          IrqLeavesOther(mid, channel);
          RunCons(mid, e, []);
          RunConcat(before, Irqs(fired, channel), [e]);
        } else {
          assert Irqs(fired, channel) + [] == Irqs<P>(fired, channel);
        }
      }
      IrqsComplete(before, fired);
    }

    /** The hardware's step. */
    ghost method DmaFetch(c: nat)
      requires Valid() && Inv(State()) && Enabled(State(), FetchEvent(c))
      modifies this`sent, tx0`engine, tx1`engine
      ensures Valid() && Inv(State())
      ensures State() == Next(old(State()), FetchEvent(c))
    {
      hide Inv, TxRing.Fetch;
      ghost var before, e: Event<P> := State(), FetchEvent(c);
      StepKeepsInv(before, e);
      if c == 0 {
        var p := tx0.DmaFetch();
        sent := [sent[0] + [p], sent[1]];
      } else {
        var p := tx1.DmaFetch();
        sent := [sent[0], sent[1] + [p]];
      }
      assert State().lanes == Next(before, e).lanes;
    }
  }
}
