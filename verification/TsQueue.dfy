/** The overwriting ring of captured hardware timestamps, searched newest first. */
module TsQueue {
  import opened Wrappers

  /** What identifies a capture, and the captured times. */
  datatype Capture = Capture(portId: nat, msgType: nat, sequenceId: nat, domainNumber: nat, time: seq<(nat, nat)>)

  /** AX_STATUS_SUCCESS, AX_STATUS_QITEM_NOT_FOUND and AX_STATUS_Q_NO_ITEM; an unsuccessful lookup
      leaves the caller's capture as it was. */
  datatype Lookup = Found(capture: Capture) | ItemNotFound | NoItem

  /** _ax_tsq_check_item_1 */
  predicate Matches(item: Capture, key: Capture) {
    && item.portId == key.portId
    && item.msgType == key.msgType
    && item.sequenceId == key.sequenceId
    && item.domainNumber == key.domainNumber
  }

  /** Capture i of a history, the newest being number 0. */
  ghost function Ago(history: seq<Capture>, i: nat): Capture
    requires i < |history|
  {
    history[|history| - 1 - i]
  }

  /** How many captures of a history a ring of this size still holds. */
  function Held(history: seq<Capture>, size: nat): nat {
    if |history| < size then |history| else size
  }

  /** The most recent match among captures i to n, the newest being number 0. */
  ghost function MostRecent(history: seq<Capture>, key: Capture, n: nat, i: nat := 0): Lookup
    requires i <= n <= |history|
    decreases n - i
  {
    if i == n then ItemNotFound
    else if Matches(Ago(history, i), key) then Found(Ago(history, i))
    else MostRecent(history, key, n, i + 1)
  }

  /** A lookup fails if and only if no capture in range matches; otherwise it gives one that matches,
      with none in range that is newer. */
  lemma {:induction false} MostRecentSpec(history: seq<Capture>, key: Capture, n: nat, i: nat)
    requires i <= n <= |history|
    ensures MostRecent(history, key, n, i) != NoItem
    ensures MostRecent(history, key, n, i) == ItemNotFound <==>
      forall j {:trigger Ago(history, j)} :: i <= j < n ==> !Matches(Ago(history, j), key)
    ensures MostRecent(history, key, n, i).Found? ==>
      exists j {:trigger Ago(history, j)} ::
        i <= j < n && Ago(history, j) == MostRecent(history, key, n, i).capture && Matches(Ago(history, j), key)
        && forall k {:trigger Ago(history, k)} :: i <= k < j ==> !Matches(Ago(history, k), key)
    decreases n - i
  {
    if i == n {
    } else {
      MostRecentSpec(history, key, n, i + 1);
    }
  }

  /** The position of capture number i in a ring of this size. */
  function Back(writePtr: nat, i: nat, max: nat): nat
    requires writePtr < max && i < max
  {
    if writePtr > i then writePtr - 1 - i else writePtr - 1 - i + max
  }

  class Queue {
    const items: array<Capture>
    var writePtr: nat
    var numItems: nat
    /** Every capture inserted since the queue was last flushed. */
    ghost var history: seq<Capture>

    ghost predicate Valid()
      reads this, items
    {
      && writePtr < items.Length
      && numItems == Held(history, items.Length)
      && (forall i {:trigger Ago(history, i)} :: 0 <= i < numItems ==>
            items[Back(writePtr, i, items.Length)] == Ago(history, i))
    }

    /** The queue that _tsn_tsq_init leaves if its allocation succeeds. */
    constructor (ports: nat, domains: nat, blank: Capture)
      ensures Valid() && history == [] && items.Length == ports * domains + 8 && fresh(items)
    {
      items := new Capture[ports * domains + 8](_ => blank);
      writePtr, numItems, history := 0, 0, [];
    }

    /** _tsn_tsq_flush */
    method Flush()
      requires Valid()
      modifies this
      ensures Valid() && history == []
    {
      writePtr, numItems, history := 0, 0, [];
    }

    /** _ax_insert_items, _tsn_tsq_insert_item */
    method Insert(c: Capture)
      requires Valid()
      modifies this, items
      ensures Valid() && history == old(history) + [c]
    {
      items[writePtr] := c;
      writePtr := writePtr + 1;
      if writePtr == items.Length {
        writePtr := 0;
      }
      if numItems < items.Length {
        numItems := numItems + 1;
      }
      history := history + [c];
      forall i | 0 <= i < numItems
        ensures items[Back(writePtr, i, items.Length)] == Ago(history, i)
      {
        if i > 0 {
          var b := Back(old(writePtr), i - 1, items.Length);
          assert b == Back(writePtr, i, items.Length) && b != old(writePtr);
          assert old(items[b] == Ago(history, i - 1));
        }
      }
    }

    /** ax_tsq_find_item_1: among the captures that the queue still holds. */
    method Find(key: Capture) returns (r: Lookup)
      requires Valid()
      ensures r == if history == [] then NoItem else MostRecent(history, key, Held(history, items.Length))
      ensures r == NoItem <==> history == []
      ensures r == ItemNotFound <==>
        history != [] && forall j {:trigger Ago(history, j)} :: 0 <= j < |history| && j < items.Length ==>
          var c := Ago(history, j);
          !(c.portId == key.portId && c.msgType == key.msgType && c.sequenceId == key.sequenceId
            && c.domainNumber == key.domainNumber)
      ensures r.Found? ==>
        && r.capture.portId == key.portId && r.capture.msgType == key.msgType
        && r.capture.sequenceId == key.sequenceId && r.capture.domainNumber == key.domainNumber
        && exists j {:trigger Ago(history, j)} :: 0 <= j < |history| && j < items.Length && Ago(history, j) == r.capture
             && forall k {:trigger Ago(history, k)} :: 0 <= k < j ==>
                  var c := Ago(history, k);
                  !(c.portId == key.portId && c.msgType == key.msgType && c.sequenceId == key.sequenceId
                    && c.domainNumber == key.domainNumber)
    {
      if history != [] {
        MostRecentSpec(history, key, Held(history, items.Length), 0);
      }
      if numItems == 0 {
        return NoItem;
      }
      var readPtr: int := writePtr - 1;
      if readPtr < 0 {
        readPtr := items.Length - 1;
      }
      var i := 0;
      while i < numItems
        invariant 0 <= i <= numItems
        invariant i < numItems ==> readPtr == Back(writePtr, i, items.Length)
        invariant MostRecent(history, key, numItems) == MostRecent(history, key, numItems, i)
      {
        assert items[readPtr] == Ago(history, i);
        if Matches(items[readPtr], key) {
          return Found(items[readPtr]);
        }
        readPtr := readPtr - 1;
        if readPtr < 0 {
          readPtr := items.Length - 1;
        }
        i := i + 1;
      }
      return ItemNotFound;
    }
  }

  /** _tsn_tsq_init, for a capacity of ports * domains + 8 items; null is the result -1. */
  method TsqInit(ports: nat, domains: nat, blank: Capture, allocOk: bool) returns (queue: Queue?)
    ensures queue == null <==> !allocOk
    ensures queue != null ==>
      && fresh(queue) && fresh(queue.items) && queue.Valid()
      && queue.history == [] && queue.items.Length == ports * domains + 8
  {
    if !allocOk {
      return null;
    }
    queue := new Queue(ports, domains, blank);
  }

  /** ax_tsn_init_switch: both queues, or neither. */
  method InitSwitch(ports: nat, domains: nat, blank: Capture, rxOk: bool, txOk: bool)
    returns (queues: Option<(Queue, Queue)>)
    ensures queues == None <==> !(rxOk && txOk)
    ensures queues != None ==>
      var (rx, tx) := queues.value;
      && rx != tx && rx.items != tx.items && rx.Valid() && tx.Valid() && rx.history == tx.history == []
      && rx.items.Length == tx.items.Length == ports * domains + 8
  {
    var rx := TsqInit(ports, domains, blank, rxOk);
    if rx == null {
      return None;
    }
    var tx := TsqInit(ports, domains, blank, txOk);
    if tx == null {
      return None;
    }
    return Some((rx, tx));
  }
}
