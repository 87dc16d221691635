/** The receive side of the driver in its own, updating form: the engine's two halves, every method tied to
    a step of RxEngine, and the poll, tied to the function in RxRing. */
module RxDriver {
  import opened Descriptors
  import opened RxRing
  import RxEngine
  import TxRing
  import Wrappers

  /** xdma_transfer and xdma_engine of the receive channel. What the hardware keeps is ghost. */
  class RxChannel {
    const half: nat
    const desc: array<Desc>
    const listDesc: array<nat>
    var currentList: nat
    var running: bool
    ghost var engine: TxRing.Engine
    ghost var completed: nat
    ghost var filled: seq<nat>

    ghost predicate Valid()
      reads this
    {
      && half > 0 && desc.Length == 2 * half && listDesc.Length == DESC_LIST_NUM
      && (desc as object) != listDesc && currentList < DESC_LIST_NUM
    }

    ghost function State(): (ch: RxEngine.Channel)
      requires Valid()
      reads this, desc, listDesc
      ensures RxEngine.Sized(ch)
    {
      RxEngine.Channel(half, desc[..], listDesc[..], currentList, running, engine, completed, false, filled)
    }

    constructor (half: nat)
      requires half > 0
      ensures Valid() && fresh(desc) && fresh(listDesc) && this.half == half && !running
    {
      this.half := half;
      desc := new Desc[2 * half](_ => Desc(Wrappers.None, false, false, false));
      listDesc := new nat[DESC_LIST_NUM](_ => 0);
      currentList, running := 0, false;
      engine, completed, filled := TxRing.Halted, 0, [];
    }

    /** The precondition is BUG_ON(engine->running). */
    method EngineStart()
      requires Valid() && !running
      modifies this`running, this`engine, this`completed
      ensures State() == RxEngine.EngineStart(old(State()))
    {
      engine, completed := TxRing.Fetching(listDesc[currentList]), 0;
      running := true;
    }

    method EngineStop()
      requires Valid()
      modifies this`running, this`engine
      ensures State() == RxEngine.EngineStop(old(State()))
    {
      running := false;
      engine := TxRing.Halted;
    }

    /** xdma_desc_setup and engine_start for the receive channel in ax_net_open. */
    method Open()
      requires Valid() && !running
      modifies this, desc, listDesc
      ensures Valid() && RxEngine.Opened(State())
    {
      currentList := 0;
      InitialLinks(half);
      TransferDescInit(desc, listDesc, 2 * half);
      assert desc[..] == desc[..2 * half];
      assert listDesc[..] == [0, half];
      filled := [];
      EngineStart();
    }

    /** The hardware going on by at most n descriptors. */
    ghost method GoOn(n: nat)
      requires Valid()
      modifies this`engine, this`completed, this`filled
      ensures Valid() && State() == RxEngine.FillMany(old(State()), n)
    {
      var later := RxEngine.FillMany(State(), n);
      FillsOnly(State(), n);
      engine, completed, filled := later.engine, later.completed, later.filled;
    }

    /** The receive part of xdma_isr, and with msix that of xdma_channel_C2H_irq, for what the status and
        then the count register show, the engine filling some descriptors in between. */
    method Irq(msix: bool, descStopped: bool, ghost fills: nat, completedCount: nat)
      requires Valid() && descStopped == engine.Stopped?
      requires completedCount == RxEngine.FillMany(State(), fills).completed
      modifies this`currentList, this`running, this`engine, this`completed, this`filled
      ensures Valid() && State() == RxEngine.Irq(old(State()), msix, fills)
    {
      GoOn(fills);
      if descStopped || (msix && half == completedCount) {
        EngineStop();
        currentList := (currentList + 1) % DESC_LIST_NUM;
        EngineStart();
      }
    }
  }

  lemma {:induction false} FillsOnly(ch: RxEngine.Channel, n: nat)
    ensures var r := RxEngine.FillMany(ch, n);
      r == ch.(engine := r.engine, completed := r.completed, filled := r.filled)
    decreases n
  {
    if n == 0 || !ch.engine.Fetching? || ch.engine.at >= |ch.desc| {
    } else {
      FillsOnly(RxEngine.Fill(ch), n - 1);
    }
  }

  class Receiver<B> {
    const status: array<nat>
    const length: array<nat>
    const rxBuff: array<seq<B>>
    var curRx: nat
    /** Where the hardware writes next. */
    var tail: nat
    /** The frames of this session. */
    ghost var arrived: seq<seq<B>>
    ghost var delivered: seq<seq<B>>

    ghost predicate Valid()
      reads this`curRx, status, length, rxBuff
    {
      && status.Length == length.Length == rxBuff.Length
      && status != length && (rxBuff as object) != status && (rxBuff as object) != length
      && Ring(Slots(), curRx)
    }

    ghost function Slots(): seq<Slot<B>>
      requires status.Length == length.Length == rxBuff.Length
      reads status, length, rxBuff
    {
      seq(status.Length, i requires 0 <= i < status.Length reads status, length, rxBuff =>
        Slot(status[i], length[i], rxBuff[i]))
    }

    ghost function World(): World<B>
      requires status.Length == length.Length == rxBuff.Length
      reads this, status, length, rxBuff
    {
      RxRing.World(Slots(), curRx, tail, arrived, delivered)
    }

    constructor (status: array<nat>, length: array<nat>, rxBuff: array<seq<B>>)
      requires 0 < status.Length == length.Length == rxBuff.Length
      requires status != length && (rxBuff as object) != status && (rxBuff as object) != length
      requires forall i :: 0 <= i < length.Length ==> length[i] <= |rxBuff[i]|
      ensures Valid()
    {
      this.status, this.length, this.rxBuff := status, length, rxBuff;
      curRx := 0;
      tail, arrived, delivered := 0, [], [];
    }

    /** What ax_net_open does to the receive ring, first or again: the position is reset, and the results
        are not touched. */
    method Open()
      requires Valid()
      modifies this`curRx, this`tail, this`arrived, this`delivered
      ensures Valid() && World() == Reopened(old(World())) && Opened(World())
    {
      curRx := 0;
      tail, arrived, delivered := 0, [], [];
    }

    /** A poll, or the interrupt handler's without NAPI. */
    method Poll(budget: int, alloc: int -> bool) returns (workDone: int, frames: seq<seq<B>>)
      requires Valid() && Enabled(World(), RxRing.Poll(budget, alloc))
      modifies this`curRx, this`delivered, status, length
      ensures Valid() && World() == Next(old(World()), RxRing.Poll(budget, alloc))
      ensures delivered == old(delivered) + frames
    {
      workDone, frames := NetRx(0, budget, alloc);
      delivered := delivered + frames;
    }

    /** The hardware's step: a frame in the buffer at its position, and its result. */
    method Arrive(frame: seq<B>, flags: nat)
      requires Valid() && Enabled(World(), RxRing.Arrive(frame, flags))
      modifies this`tail, this`arrived, status, length, rxBuff
      ensures Valid() && World() == Next(old(World()), RxRing.Arrive(frame, flags))
    {
      ghost var slots, room, after := Slots(), rxBuff[tail], Next(World(), RxRing.Arrive(frame, flags));
      ArriveKeepsRing(World(), frame, flags);
      hide Ring;
      rxBuff[tail] := frame + rxBuff[tail][|frame|..];
      length[tail] := |frame|;
      status[tail] := C2H_WB + flags;
      assert Slots() == slots[tail := Slot(C2H_WB + flags, |frame|, frame + room[|frame|..])] == after.slots;
      arrived := arrived + [frame];
      tail := (tail + 1) % status.Length;
      assert Slots() == after.slots && Ring(Slots(), curRx);
      hide Receiver.Slots;
      assert Valid();
    }

    method NetRx(work: int, budget: int, alloc: int -> bool) returns (workDone: int, delivered: seq<seq<B>>)
      requires Valid()
      modifies this`curRx, status, length
      ensures Valid()
      ensures Polled(Slots(), curRx, workDone, delivered) == RxRing.NetRx(old(Slots()), old(curRx), work, budget, alloc)
    {
      workDone, delivered := work, [];
      var entry: nat := curRx;
      ghost var all := RxRing.NetRx(Slots(), curRx, work, budget, alloc);
      assert Prepend([], all) == all;
      while status[entry] / 0x10000 == C2H_WB / 0x10000 && budget != 0
        invariant entry < status.Length && Ring(Slots(), entry)
        invariant all == Prepend(delivered, RxRing.NetRx(Slots(), entry, workDone, budget, alloc))
        decreases budget - workDone
      {
        if workDone >= budget {
          break;
        }
        if !alloc(workDone) {
          curRx := entry;
          return;
        }
        hide RxRing.NetRx, Prepend;
        ghost var before := Slots();
        NetRxTurn(delivered, before, entry, workDone, budget, alloc);
        delivered := delivered + [rxBuff[entry][..length[entry]]];
        workDone := workDone + 1;
        status[entry] := 0;
        length[entry] := 0;
        assert Slots() == before[entry := Cleared(before[entry])];
        entry := (entry + 1) % status.Length;
      }
      curRx := entry;
    }
  }

  /** The receive side of the device: the engine's ring and the results beside it. */
  class RxDevice<B> {
    const channel: RxChannel
    const receiver: Receiver<B>

    ghost predicate Valid()
      reads channel, receiver, receiver.status, receiver.length, receiver.rxBuff
    {
      && channel.Valid() && receiver.Valid()
      && receiver.status.Length == 2 * channel.half
      && channel.listDesc != receiver.status && channel.listDesc != receiver.length
      && (channel.desc as object) != receiver.rxBuff
    }

    constructor (channel: RxChannel, receiver: Receiver<B>)
      requires channel.Valid() && receiver.Valid() && receiver.status.Length == 2 * channel.half
      requires channel.listDesc != receiver.status && channel.listDesc != receiver.length
      requires (channel.desc as object) != receiver.rxBuff
      ensures Valid() && this.channel == channel && this.receiver == receiver
    {
      this.channel, this.receiver := channel, receiver;
    }

    /** The receive part of ax_net_open: what it leaves behind delivers in order if and only if no slot was
        marked as completed. */
    method Open()
      requires Valid() && !channel.running
      modifies channel, channel.desc, channel.listDesc
      modifies receiver`curRx, receiver`tail, receiver`arrived, receiver`delivered
      ensures Valid() && RxEngine.Opened(channel.State()) && Opened(receiver.World())
      ensures receiver.World() == Reopened(old(receiver.World()))
      ensures RxRing.Inv(receiver.World()) <==> Clean(old(receiver.Slots()))
    {
      channel.Open();
      receiver.Open();
      OpenedInvIff(receiver.World());
    }

    /** The receive part of ax_net_close: the results stay as they are, and the device can be opened
        again. */
    method Close()
      requires Valid()
      modifies channel`running, channel`engine
      ensures Valid() && !channel.running && receiver.World() == old(receiver.World())
    {
      channel.EngineStop();
    }
  }
}
