# A verified model of the AX switch and DMA driver

This project models the parts of the driver that carry state or arithmetic that is hard to get right,
and proves what they promise. `dafny verify dfyconfig.toml` checks all of it.

- **Transmit rings** (`Descriptors`, `TxRing`, `TxDriver`). Each of two channels has one descriptor ring
  cut in two halves. The driver fills one half while the DMA engine walks the other; the completion
  interrupt marks the last queued descriptor STOPPED, restarts the engine and swaps the halves. Both
  channels share one network queue through one `stop_queue_channel` byte. `TxRing` is a state machine
  over values, with the packet history, whose steps may interleave in any way; `TxDriver` has the arrays
  and fields that the driver updates, every method being proved to be a step of that machine.
- **Receive ring** (`RxEngine`, `RxRing`, `RxDriver`). The engine that fills one half after the other, moved
  on by the interrupt handlers, and the poll loop with its interleaving with arriving frames.
- **Databases of shared ports** (`RefDb`, `MacAddresses`, `HostAddresses`). The reference-counted FDB, MDB
  and VLAN lists with the hardware tables behind them, and the routing of host addresses to CPU ports, within
  a switch and along the path through a tree (`HostPaths`).
- **Bridges and LAGs** (`Bridges`, `Lags`, `PortDriver`). Who is on which bridge and in which LAG, with
  bridge numbers from a bitmap and LAG ids from an array. `Bridges` and `Lags` are this bookkeeping over
  values; `PortDriver` has the shared structures, pointers, counts, bitmap and array, proved to represent
  it through joins, leaves and rollbacks.
- **CPU ports** (`CpuPorts`). Which CPU port each user and DSA port uses.
- **Gate schedules** (`Qbv`). Cycle start and configuration change times, in the wrapping 32-bit and 64-bit
  arithmetic of the interrupt handlers; compare SetCycleStartTime() and SetConfigChangeTime() in sections
  8.6.9.1.1 and 8.6.9.3.1 of IEEE Std 802.1Q-2018.
- **Captured timestamps** (`TsQueue`). The overwriting ring, searched newest first.
- **SDSA tags** (`SdsaTag`). Tags put into and taken out of frames in place, by overlapping moves.
- **MTU normalization** (`Mtu`). One MTU for a bridge, device by device, with rollback in reverse.

Calls into the kernel, allocations and hardware operations are parameters that say whether they succeed;
one that fails has no effect. Every theorem is over all such answers.

Where the code falls short of what one may expect of it, the exact condition is proved:

- The 10-cycle margin of a configuration change is a product of 32-bit values and wraps for cycles above
  429496729 ns. The margin is then lost exactly for base times between the wrapped product and 9 cycles
  ahead (`Qbv.MarginKeptIff`, `Qbv.MarginLost`).
- For a base in the near future, 64-bit wrap-around keeps the scheduled time in bounds but takes it off
  the base's grid, unless the cycle divides 2^64 (`Qbv.ConfigChangeOnGridIff`, `Qbv.GridLeft`).
- Requests for a configuration change are all cleared by one interrupt. None is lost exactly when the
  request register is 0 or has a single bit, below the number of ports (`Qbv.NoneLostIff`,
  `Qbv.RequestsLost`).
- The descriptor chains cover the ring exactly for even counts (`Descriptors.ChainsPartitionRing`,
  `Descriptors.OddCountMissesOne`).
- A bridge number is one past the bitmap's word exactly when the driver's maximum exceeds the word and all
  bits are set (`Bridges.NumFitsWord`, `Bridges.CreateKeepsInv`, `Bridges.NumberPastWord`).
- A failed bridge join leaves the offload flag of a shared bridge as the notifier gave it
  (`PortDriver.SwitchTree.BridgeJoin`, `PortDriver.FlagNotPutBack`).
- Neither closing nor opening the device clears the receive results. Frames stay in order in the next
  session exactly when none was pending at the close (`RxRing.DeliversInOrderIff`,
  `RxRing.NextSessionInOrderIff`, `RxRing.StaleFrameDelivered`).
- A host address is written on every switch reached through the same port as the CPU port's, which is
  the path to the CPU port exactly when no other switch is (`HostPaths.MatchesArePathIff`,
  `HostPaths.OffPathMatches`).
- A configuration change with a cycle time of 0 divides by it, unless the base is far ahead
  (`Qbv.ComputeConfigChange`, `Qbv.Switch.ConfigChange`).
- A tag names only ports 0 to 31 of switch 0, although it carries five bits of the switch's index
  (`SdsaTag.SamePort`, `SdsaTag.Port32IsLost`).

`xdma_mod.c` does not reset `current_list` where it resets the other list fields; `transfer_desc_init`'s
caller does. `stop_queue_channel` is never reset at open, so the model lets it start as anything; it is
proved to be harmless.

## Model

| member | source | states |
|---|---|---|
| Descriptors.TransferDescInit | libxdma.c:2464-2504 | For every count the loop leaves the ring `InitialRing(count)` and the chain heads 0 and `ChainLength(count)`, and nothing else changed |
| Descriptors.ChainsPartitionRing | libxdma.c:2464-2504 | The chains headed by `list_desc[0]` and `list_desc[1]` visit every descriptor once, in order, if and only if the count is even; each half is then one null-terminated chain with STOPPED at its end only |
| Descriptors.OddCountMissesOne | libxdma.c:2464-2504 | An input for which they do not: of three descriptors the third is in neither chain |
| Descriptors.InitialLinks | libxdma.c:2480-2503 | A ring of two halves is two equal chains of consecutive links, with STOPPED exactly at the two ends |
| Descriptors.WalkOfSegment | libxdma.c:2480-2503 | An engine that follows links from the head of a segment whose only STOPPED descriptor is the last fetches exactly the segment, in order |
| TxRing.XmitKeepsLaneInv | xdma_mod.c:1528-1592 | A transmit on a channel whose filling half is not full keeps ownership of the halves, absence of stale STOPPED flags, and accepted == sent ++ running ++ filling |
| TxRing.FetchSends | libxdma.c:2480-2503 | A fetch by the engine sends the oldest packet of its run and no other |
| TxRing.FetchKeepsChannelInv | libxdma.c:2480-2503 | The engine always has a descriptor to go to before it meets STOPPED; every other part of the channel's invariant is kept |
| TxRing.FetchKeepsLaneInv | libxdma.c:2480-2503 | A fetch keeps accepted == sent ++ running ++ filling |
| TxRing.CompleteWithPackets | libxdma.c:1646-1673 | A completion with packets queued turns the filling half, whole and in order, into the engine's next run and leaves the other half empty to fill |
| TxRing.CompleteKeepsLaneInv | libxdma.c:1646-1673 | A completion, with packets queued or not, keeps a channel's invariant and leaves its filling half empty |
| TxRing.StepKeepsInv | xdma_mod.c:1528-1592 | Every step of every interleaving (transmit, fetch, completion, on either channel) keeps the invariant of the whole device, with the shared queue |
| TxRing.OpenedInv | xdma_mod.c:1408-1433 | What opening the device leaves behind satisfies the invariant, whatever the buffers hold and whichever channel last stopped the queue |
| TxRing.RunKeepsInv | xdma_mod.c:1528-1592 | The invariant holds after every run, for every half size of at least 1 |
| TxRing.TransmitsInOrder | xdma_mod.c:1528-1592 | Over every run from open and on each channel, the packets handed over are exactly sent ++ rest of the running half ++ filling half, in order; `BUG_ON(engine->running)` never fires and the engine never runs off a chain |
| TxRing.WalkEndsAtMarked | libxdma.c:1646-1664 | In every reachable state of a running engine the descriptors it will still fetch end at the last one marked STOPPED and lie in the half that is not being filled |
| TxRing.XmitStartsOnQueued | xdma_mod.c:1562-1575 | A transmit on an idle channel starts the engine on `list_desc[current_list]`, and the walk from there is the one packet just queued |
| TxRing.CompletionStartsOnQueued | libxdma.c:1646-1668 | A completion starts the engine on `list_desc[current_list]`, and the walk from there is exactly the descriptors queued since the last swap, never ending at a stale STOPPED flag |
| TxRing.FillPosition | xdma_mod.c:1562-1578 | cur == (current_list * half + cur_pkt_count) mod (2 * half), cur_pkt_count is at most half, and idle is the negation of running |
| TxRing.XmitLeavesRunningHalf | xdma_mod.c:1528-1578 | A transmit on a running channel changes no descriptor and no buffer of the half the engine may be walking |
| TxRing.QueuedAreControlled | xdma_mod.c:1562-1576 | Over every run from open, of the descriptors still to be fetched the last one queued has EOP and STOPPED and the others neither, none of those being filled has either, and COMPLETED is clear in all of them |
| TxRing.StepKeepsControlled | libxdma.c:1646-1664 | Every step on either channel keeps this, the completion by marking the last queued descriptor |
| TxRing.QueueStopsForOneChannel | xdma_mod.c:1579-1591 | In every reachable state the queue is stopped if and only if exactly one channel's filling half is full; `stop_queue_channel` names that channel and its engine is running |
| TxRing.OnlyNamedChannelWakes | libxdma.c:1675-1693 | While the queue is stopped, a completion leaves it stopped if and only if it is not the named channel's; a completion frees the whole filling half |
| TxRing.IrqsComplete | libxdma.c:1168-1243 | The completions of any set of channels, in channel order: a channel is completed if and only if it fired, the queue woken if and only if the channel that stopped it did |
| TxRing.FinishRun | libxdma.c:1646-1673 | From every reachable state a running engine reaches its STOPPED descriptor by fetching alone and has then sent its whole run |
| TxRing.StoppedQueueWakes | libxdma.c:1675-1693 | No lost wake-up: from every reachable state with a stopped queue, the hardware of the named channel alone leads to a woken queue |
| TxRing.NothingDelaysWakeUp | libxdma.c:1675-1693 | From every reachable state with a stopped queue and over every run: the queue stays stopped exactly as long as the named channel has no completion, and all that while what its engine still has to fetch falls by exactly its fetches, whatever the other channel does |
| TxRing.FetchesLeftInHalf | xdma_mod.c:1579-1591 | What is left to fetch is at most a half |
| TxRing.ChannelDrains | libxdma.c:1646-1693 | Every packet gets out: from every reachable state the channel's hardware alone leads to sent == accepted and an idle channel |
| TxDriver.TxChannel.Reset | xdma_mod.c:1414-1433 | The reset at open leaves the initial ring, the two heads, and an idle, empty channel |
| TxDriver.TxChannel.EngineStart | libxdma.c:613-668 | Callable only when not running, which is the BUG_ON; the engine goes to the head of the current list |
| TxDriver.TxChannel.EngineStop | libxdma.c:523-550 | The engine halts and is marked as not running; the ring is untouched |
| TxDriver.TxChannel.StartXmit | xdma_mod.c:1528-1592 | The updates of one channel are the state machine's transmit, and its answer says whether a half boundary was reached |
| TxDriver.TxChannel.Completion | libxdma.c:1646-1673 | The updates of one channel are the state machine's completion, with EngineStart's BUG_ON proved impossible |
| TxDriver.NetDevice.Open | xdma_mod.c:1408-1459 | Opening, first or again after a close, establishes the initial state and the invariant |
| TxDriver.NetDevice.Close | xdma_mod.c:1461-1483 | Closing stops the queue and both engines, so that the device can be opened again |
| TxDriver.NetDevice.StartXmit | xdma_mod.c:1486-1592 | `ax_net_start_xmit` on the channel that the time-stamp flag selects is one transmit step of the state machine, shared queue included |
| TxDriver.NetDevice.ChannelIrq | libxdma.c:1638-1693 | A completion interrupt is one completion step of the state machine: the channel, and the wake-up if and only if it is the named one |
| TxDriver.NetDevice.Isr | libxdma.c:1168-1243 | `xdma_isr` completes exactly the channels that fired, in channel order, and leaves the others as they were; the queue is woken if and only if the channel that stopped it fired, and no channel is then named any more |
| RxEngine.FillKeepsInv | libxdma.c:2480-2503 | The engine fills the next descriptor in ring order and stops exactly at the end of its half |
| RxEngine.FillManyKeepsInv | libxdma.c:2480-2503 | Any number of descriptors filled one after the other keeps the order |
| RxEngine.IrqKeepsInv | libxdma.c:1446-1454 | An interrupt at any time keeps the order, whatever the engine fills between the reading of the status and that of the count; it moves the engine to the other half if and only if the engine has stopped by the last of the readings that the handler makes |
| RxEngine.RunKeepsInv | libxdma.c:1446-1454 | The order is kept over every run of fills and interrupts |
| RxEngine.FillsInOrder | libxdma.c:1258-1268 | Over every run from open the descriptors filled are 0, 1, ..., 2 * half - 1, 0, ..., in that order; `BUG_ON(engine->running)` never fires and the engine never runs off a chain |
| RxEngine.StoppedGoesOn | libxdma.c:1446-1454 | After a stop the next interrupt starts the engine on the descriptor after the last one filled |
| RxEngine.ArrivesWhereEngineIs | libxdma.c:954-1038 | With one frame for each descriptor filled, the receive ring's next frame arrives in the slot of the descriptor the engine is at |
| RxDriver.RxChannel.Open | libxdma.c:2854-2894 | Opening establishes the initial descriptor ring with the engine started on the first half |
| RxDriver.RxChannel.EngineStart | libxdma.c:613-668 | Callable only when not running, which is the BUG_ON; the engine goes to the head of the current list |
| RxDriver.RxChannel.EngineStop | libxdma.c:523-550 | The engine halts and is marked as not running |
| RxDriver.RxChannel.Irq | libxdma.c:1442-1454 | The updates are the state machine's interrupt, in both handlers |
| RxRing.CompletedIff | libxdma.c:959-960 | A slot is completed if and only if the upper half of its status is 52B4 |
| RxRing.PollDeliversRun | libxdma.c:954-1038 | A poll delivers the frames of a contiguous run of completed slots from `cur_rx` on, in ring order, at most the budget and at most the ring, and advances `cur_rx` by exactly that number |
| RxRing.PollClearsRun | libxdma.c:954-1038 | It zeroes status and length of exactly the slots of that run and leaves their data; every other slot, and one whose buffer allocation failed, is left as it was |
| RxRing.PollStopsForAReason | libxdma.c:954-1038 | It stops only at the budget, at a slot that is not completed, or at an allocation failure |
| RxRing.PollDeliversPending | libxdma.c:954-1038 | In every reachable state what a poll delivers is the oldest frames that arrived and were not delivered yet; all of them unless the budget or an allocation stops it |
| RxRing.PollLeaves | libxdma.c:954-1038 | After a poll, slot j from the new `cur_rx` holds what slot j + k held, for the k delivered |
| RxRing.ArriveKeepsInv | libxdma.c:954-1038 | A frame that the hardware writes behind the last one extends the pending frames by one |
| RxRing.PollKeepsInv | libxdma.c:954-1038 | A poll keeps the correspondence of ring slots and pending frames |
| RxRing.StepKeepsInv | libxdma.c:954-1038 | Both steps keep it, and an arrival adds its frame to those received |
| RxRing.RunKeepsInv | libxdma.c:954-1038 | The correspondence is kept over every interleaving of arrivals and polls, and what was delivered is a prefix of what arrived |
| RxRing.OpenedInvIff | xdma_mod.c:1430-1438 | What an open leaves behind has that correspondence if and only if no slot is marked as completed |
| RxRing.DeliversInOrder | libxdma.c:954-1038 | Over every run from an open without completed slots, whatever the budgets and failures, the frames delivered are a prefix of the frames received: none lost, repeated or reordered |
| RxRing.StaleIsDelivered | libxdma.c:954-1038 | If the first completed slot at open is number j, then j frames and one poll deliver j + 1 frames |
| RxRing.DeliversInOrderIff | xdma_mod.c:1408-1459 | Every run from open delivers a prefix of what it receives if and only if no slot is marked as completed at open |
| RxRing.ReopenedCleanIff | xdma_mod.c:1461-1483 | Closing and opening touch no slot: the ring is clean at the next open if and only if every frame was delivered before |
| RxRing.NextSessionInOrderIff | xdma_mod.c:1461-1483 | So after a session in order, every run of the next one is in order if and only if no frame was pending at the close |
| RxRing.StaleFrameDelivered | xdma_mod.c:1430-1438 | An input for which it is not: a frame pending at the close comes out behind a frame of the next session |
| RxDriver.Receiver.Open | xdma_mod.c:1430-1433 | Opening, first or again, resets the position and leaves every result as it was |
| RxDriver.Receiver.Poll | libxdma.c:1045-1055 | A poll is the ring's poll step, and the frames it returns are those added to the delivered ones |
| RxDriver.RxDevice.Open | xdma_mod.c:1408-1459 | Opening establishes the engine's and the ring's initial states; the ring's invariant holds if and only if no result was left marked |
| RxDriver.RxDevice.Close | xdma_mod.c:1461-1483 | Closing stops the engine and touches no result, so that the device can be opened again |
| RxDriver.Receiver.NetRx | libxdma.c:932-1041 | The loop terminates and computes the polled ring, position, count and frames |
| RefDb.AddRefinesBag | DSA/switch.c:158-207 | An add to a shared port's list and hardware table is an add to a multiset of keys: it can fail only on the first reference, and a failed one changes nothing |
| RefDb.DelRefinesBag | DSA/switch.c:209-254 | A delete takes one reference; it can fail only on an absent key or on the last reference, and a failed one changes nothing |
| RefDb.StepRefinesBag | DSA/switch.c:684-785 | Likewise for VLANs, where a mere change of flags counts nothing |
| RefDb.StepKeepsValid | DSA/switch.c:158-428 | Whatever is done to a list with unique keys, positive counts and a matching hardware table, it stays one |
| RefDb.RunRefinesBag | DSA/switch.c:158-428 | Over every run, whatever fails, list, table and all results are those of the multiset: keys unique, counts positive, hardware table equal to the listed keys |
| RefDb.BagCountsBalance | DSA/switch.c:158-428 | The multiset's count of a key is its initial count plus successful adds minus successful deletes |
| RefDb.CountIsBalance | DSA/switch.c:158-428 | From an empty list, a key's count is its successful adds (flag changes apart) minus its successful deletes, and the hardware table holds the key if and only if that is positive |
| RefDb.AddGives | DSA/switch.c:158-207 | Result, count and hardware table of an add: a listed key is counted once more whatever would be answered, a new one needs memory and the hardware, in this order, and a change of flags counts nothing |
| RefDb.DelGives | DSA/switch.c:209-254 | Result, count and hardware table of a delete: an absent key is not found, and only the last reference reaches the hardware, whose refusal keeps it |
| RefDb.UserStepGives | DSA/switch.c:261-267 | On a user port nothing is counted: a key is in the hardware table after a successful add and out of it after a successful delete, and a call fails exactly when the hardware refuses it, changing nothing |
| RefDb.RefList.FindEntry | DSA/switch.c:144-156 | The list search finds the first entry with the key |
| RefDb.RefList.Add | DSA/switch.c:256-304 | The list, table and result of an add, on shared and on user ports, are those of the add that the lemmas are about |
| RefDb.RefList.Del | DSA/switch.c:306-350 | The list, table and result of a delete likewise, through the count of 1 that a refused deletion puts back |
| MacAddresses.DbEqualIff | DSA/dsa2.c:1695-1711 | Databases are equal if and only if they are of one port, of one LAG device whatever its id, or of bridges with one number whatever their devices |
| MacAddresses.MacAddrFindIsByKey | DSA/switch.c:144-156 | Searching by address, VID and `dsa_db_equal` is searching by one key, so the multiset results hold of address lists |
| HostAddresses.RoutingPortGives | DSA/dsa.h:616-626 | The port of the first link from the switch to the device, or the number of ports if there is none |
| HostAddresses.UpstreamPortIff | DSA/dsa.h:638-659 | A port leads upstream if and only if it is in use and has no CPU port or is the one on the way to its CPU port |
| HostAddresses.TouchGives | DSA/dsa2.c:1113-1138 | A touch finds the port with the index or, with memory, adds one of no kind at the end of the list; the others stay as they are |
| HostAddresses.TouchedIndicesAreUnique | DSA/dsa2.c:1113-1138 | However ports are touched, no switch gets two ports with the same index |
| HostAddresses.AtMostOneMatch | DSA/switch.c:132-142 | Of the ports of one switch at most one matches a host address event |
| HostAddresses.NoMatchNoChange | DSA/switch.c:430-456 | An event for which no port matches changes nothing and succeeds |
| HostAddresses.EventFrom | DSA/switch.c:430-456 | An event for which a port matches is one step on one list |
| HostAddresses.EventGoesTo | DSA/switch.c:430-456 | Of an FDB entry, if the match is a CPU port and the targeted port's CPU port stands for a LAG, the step is on that LAG's list and on no other; otherwise, and of any MDB entry, on the matching port's list and on no other; counted, except on a user port |
| HostAddresses.HostEventIsAllOrNothing | DSA/switch.c:430-484 | A host add or delete on a switch, whatever its user ports' lists hold, either succeeds or changes nothing at all, and keeps counted lists valid |
| HostAddresses.OneSwitchEvent | DSA/dsa.h:616-655 | In a tree of one switch an event of a user port reaches the list of that port's CPU port, and only it |
| HostAddresses.HostRunFrom | DSA/switch.c:430-484 | Over every run of host calls a CPU port's count grows by the outstanding adds |
| HostAddresses.CpuCountIsOutstanding | DSA/switch.c:430-484 | From empty lists a CPU port's count of a key is the number of outstanding host adds of it, over all user ports that it serves, whatever failed on the way |
| HostPaths.MatchIff | DSA/switch.c:132-142 | In a well-formed tree a port matches if and only if it is the one on the way to the targeted port's CPU port, and its switch is the targeted one or is reached from it through the same port as the CPU port's |
| HostPaths.PathMatches | DSA/dsa.h:681-692 | Of every switch on the path to the CPU port exactly one port matches, the one on the way to it |
| HostPaths.MatchesArePathIff | DSA/switch.c:132-142 | No other port matches if and only if no switch off the path is reached through the same port as the CPU port's switch |
| HostPaths.OffPathMatches | DSA/dsa.h:681-692 | An input for which one does: three switches in a row with the CPU port in the middle |
| HostAddresses.HostLists.HostCall | DSA/switch.c:430-484 | The loop over the ports of the tree is that event, on the list that `EventGoesTo` says |
| Bridges.NextZeroBit | DSA/dsa2.c:161-163 | The first clear bit from a position on, or the size of the word |
| Bridges.NumFitsWord | DSA/dsa2.c:147-171 | The number given is a bit of the word if and only if the driver's maximum is at most the word's size or a bit is free; otherwise it is the one just past the word |
| Bridges.JoinGives | DSA/port.c:427-460 | A join puts the port on the bridge, which keeps its number or, as a new one, gets the lowest that no live bridge holds (none for a maximum of 0); it fails, changing nothing, exactly for want of memory or of a number below the maximum |
| Bridges.NumberIsKept | DSA/dsa2.c:147-171 | A bridge that has a number keeps it; another gets the lowest free one below the maximum, or 0 if every one is held; without a maximum the number is 0 |
| Bridges.BitsAfterDestroy | DSA/dsa2.c:173-181 | When the last port leaves, clearing its bridge's bit leaves exactly the numbers of the bridges that stay |
| Bridges.CreateKeepsInv | DSA/port.c:427-460 | A join keeps live nonzero numbers distinct and within the word if and only if its number does not overflow the word; a new number is from 1 up to, not including, the driver's maximum |
| Bridges.NumberPastWord | DSA/dsa2.c:157-168 | An input for which it does: 63 bridges hold all bits, and with a maximum of 65 the next gets the number 64 |
| Bridges.DestroyKeepsInv | DSA/port.c:462-476 | A leave keeps the same |
| Bridges.DestroyUndoesCreate | DSA/port.c:505-541 | Leaving right after a successful join restores who is on which bridge and all numbers; a failed join changes neither |
| Bridges.ExceededMeansAllHeld | DSA/port.c:449-454 | For every maximum, a join reports the range as exceeded if and only if every number below it is held by a live bridge |
| Bridges.RunKeepsInv | DSA/port.c:427-476 | Over every run of joins and leaves in one tree, for all maxima: the numbers stay distinct and in range throughout if and only if none overflows the word |
| Bridges.SmallMaximaFit | DSA/dsa2.c:157-168 | None does if the maxima are at most the word's size |
| Lags.FirstSlot | DSA/dsa2.c:69-75 | The first position that holds a value, or the length |
| Lags.JoinGives | DSA/port.c:614-639 | A join puts the port in the LAG; a new LAG gets the first free slot and the id after its position, or id 0 if and only if no slot is free; it fails, changing nothing, if and only if the LAG is new and memory is wanting |
| Lags.CreateKeepsInv | DSA/port.c:614-639 | A join keeps: a slot i holds exactly the LAG with id i + 1, and every live LAG with a nonzero id is in its slot |
| Lags.DestroyKeepsInv | DSA/port.c:641-654 | A leave keeps the same |
| Lags.DestroyUndoesCreate | DSA/port.c:656-693 | Leaving right after a successful join restores membership, ids and slots; a failed join changes none |
| Lags.IdsTranslate | DSA/dsa.h:182-202 | `dsa_lag_id` returns an id if and only if the device is a live LAG that was given one, and `dsa_lag_by_id` of it is that LAG |
| Lags.IdsTranslateBack | DSA/dsa.h:182-202 | `dsa_lag_id` of the LAG in slot id - 1 is id |
| Lags.RunKeepsInv | DSA/dsa2.c:65-104 | The id map is right over every run of joins and leaves |
| PortDriver.SwitchTree.constructor | DSA/port.c:427-476 | A tree whose ports are on nothing satisfies both validity predicates |
| PortDriver.SwitchTree.BridgeFind | DSA/dsa2.c:119-130 | The search over the ports finds the one structure of a live bridge device, and none for any other |
| PortDriver.SwitchTree.NumGet | DSA/dsa2.c:132-171 | The number and the new bitmap are those of the bookkeeping |
| PortDriver.SwitchTree.BridgeCreate | DSA/port.c:427-460 | The ports on a device share one structure whose refcount is their number, the bitmap is the set of live numbers, and the change and result are the bookkeeping's |
| PortDriver.SwitchTree.BridgeDestroy | DSA/port.c:462-476 | The same is kept by a leave; only the last port takes the structure and its number with it |
| PortDriver.SwitchTree.BridgeJoin | DSA/port.c:488-546 | A join succeeds if and only if MST is not in the way, the bridge has a structure or there are memory and a number for it, and the notifier, the offload and the attributes succeed; its error is that of the first step that fails. Then the port is on the bridge, a new one with the lowest free number. A join that fails at any step restores pointers, refcounts, structures, numbers and bitmap; the offload flag of the bridge takes the value the notifier gave if and only if the notifier succeeded, and is not put back while other ports are on the bridge |
| PortDriver.FlagNotPutBack | DSA/port.c:517-541 | An input for which it is left set: the second port's join fails after the notifier |
| PortDriver.SwitchTree.BridgeLeave | DSA/port.c:559-586 | Leaving a bridge destroys the membership, and does nothing for a port on none |
| PortDriver.SwitchTree.LagFind | DSA/dsa2.c:106-117 | The search over the ports finds the one structure of a live LAG device, and none for any other |
| PortDriver.SwitchTree.LagMap | DSA/dsa2.c:65-83 | A new LAG gets the first free slot and the id after its index; with no free slot nothing changes |
| PortDriver.SwitchTree.LagUnmap | DSA/dsa2.c:93-104 | A LAG's first slot is freed and its id is 0; one without a slot changes nothing |
| PortDriver.SwitchTree.LagCreate | DSA/port.c:614-639 | The port is in the LAG; a new LAG takes the first free place of the array and the id after it, or id 0 if and only if there is none; it fails, changing nothing, if and only if the LAG is new and memory is wanting. The ports in a LAG share one structure whose refcount is their number |
| PortDriver.SwitchTree.LagDestroy | DSA/port.c:641-654 | The same is kept by a leave, which also ends the port's transmission for the LAG |
| PortDriver.SwitchTree.LagId | DSA/dsa.h:189-202 | The loop over the array is the bookkeeping's `LagId` |
| PortDriver.SwitchTree.LagChange | DSA/port.c:588-612 | A port transmits for a LAG if and only if it is in one, has link and is enabled |
| PortDriver.SwitchTree.LagJoin | DSA/port.c:656-693 | A join succeeds if and only if the LAG has a structure or there is memory for it, the LAG notifier succeeds, and so does the join of the LAG's own bridge, if it is on one; its error is that of the first step that fails. A new LAG then has the first free place of the array and its id. A join that fails at any step restores both memberships, all structures, refcounts, pointers, ids, the array and the bitmap; the offload flag of the LAG's bridge takes the value that bridge's notifier gave if and only if it succeeded |
| PortDriver.SwitchTree.LagLeave | DSA/port.c:703-728 | Leaving a LAG leaves the bridge it was on as well, and does nothing for a port in none |
| CpuPorts.SwitchTree.LocalCpuPrefers | DSA/dsa2.c:414-458 | A switch's local CPU port is the CPU port of its own that it prefers, or none if that is not in the tree; without such a preference it is its first CPU port in list order, if it has one |
| CpuPorts.SwitchTree.ChoiceIsCpu | DSA/dsa2.c:393-461 | In a tree with a CPU port every user and DSA port gets one; one of another switch is the tree's first, and only if its own switch has none or prefers one that is not in the tree |
| CpuPorts.SwitchTree.ChoiceKeeps | DSA/dsa2.c:449-457 | Ports that have a CPU port keep it, and ports of other kinds get none |
| CpuPorts.SwitchTree.FindFirstCpu | DSA/dsa2.c:364-374 | The first CPU port in list order, or none if there is none |
| CpuPorts.SwitchTree.SetupDefaultCpu | DSA/dsa2.c:393-412 | Ports that have no CPU port yet get the tree's first; it fails, changing nothing, if and only if there is none |
| CpuPorts.SwitchTree.OfferLocally | DSA/dsa2.c:449-457 | Exactly the user and DSA ports of the CPU port's switch that have none yet get it |
| CpuPorts.SwitchTree.SetupCpuPorts | DSA/dsa2.c:436-461 | Every user and DSA port keeps what it has, or gets its switch's local CPU port, or else the tree's first; it fails, changing nothing, if and only if the tree has no CPU port |
| CpuPorts.SwitchTree.TeardownCpuPorts | DSA/dsa2.c:463-471 | Exactly the user and DSA ports lose theirs |
| Qbv.ConfigChangeBounds | switch/ax_switch.c:297-322 | With the current time from two 32-bit registers, in wrapping 64-bit arithmetic: the change is scheduled at the base time if that is at least the 32-bit product ahead, and otherwise more than 9 and at most 10 cycles from now, also when `current - base` wraps |
| Qbv.MarginKeptIff | switch/ax_switch.c:312-322 | The 9-cycle margin is kept if and only if the base does not lie between the 32-bit product and 9 cycles ahead; always for cycles up to 429496729 ns |
| Qbv.MarginLost | switch/ax_switch.c:312-315 | An input for which the product wraps and the change is scheduled 2 cycles ahead |
| Qbv.TimeIs | switch/ax_switch.c:308-310 | The time is seconds * 10^9 + nanoseconds, without wrapping, for all register values |
| Qbv.LeadIs | switch/ax_switch.c:312-315 | The product is ten cycles less a multiple of 2^32, none exactly up to 429496729 ns |
| Qbv.PortRegisters.RegistersMean | switch/ax_switch.c:299-330 | Base and scheduled time have their upper and lower 32 bits in the two registers; the current time is the reading of timer d + 1 for domain d, in 32 bits |
| Qbv.ConfigChangeOnGridIff | switch/ax_switch.c:312-322 | The scheduled time is a whole number of cycles from the base if and only if the base is not in the near future, or the cycle divides 2^64 |
| Qbv.GridLeft | switch/ax_switch.c:316-322 | An input for which it is not |
| Qbv.ConfigChangeIsFirst | switch/ax_switch.c:317-322 | For a base in the past no earlier time on its grid keeps the margin |
| Qbv.CycleStartBounds | switch/ax_switch.c:146-162 | A cycle starts at a base that is not past, and otherwise on the base's grid, more than 1 and at most 2 cycles from now |
| Qbv.FirstRequest | switch/ax_switch.c:465-473 | The lowest port whose request bit is set, if any |
| Qbv.IndexByMask | switch/ax_switch.c:465-473 | The loop finds it |
| Qbv.ComputeConfigChange | switch/ax_switch.c:312-322 | The branch and its wrapping steps compute the time that the lemmas are about, and divide by 0 if and only if the cycle time is 0 and the base not far ahead |
| Qbv.Switch.Serve | switch/ax_switch.c:295-329 | The selected port gets the time for its own cycle, base and timer in its two halves, with the valid bit, or nothing if the computation divides by 0; the timer of its domain is selected |
| Qbv.Switch.ConfigChange | switch/ax_switch.c:268-338 | The first requesting port, and no other, is selected and gets its time, and all requests are cleared, unless the computation divides by 0, which leaves ports and requests as they were. None is lost if and only if at most one port requests and no bit past the ports is set |
| Qbv.NoneLostIff | switch/ax_switch.c:290-337 | For every mask and up to 32 ports: every requested bit is the one served if and only if the mask is 0 or has one bit only, that of a port |
| Qbv.RequestsLost | switch/ax_switch.c:290-337 | Two inputs for which one is lost: two ports at once, and a bit past the ports with nobody served |
| TsQueue.MostRecentSpec | switch/ax_switch.c:708-745 | A lookup fails if and only if no capture in range matches all four fields; otherwise it gives a match such that none in range is newer |
| TsQueue.Queue.constructor | switch/ax_switch.c:86-100 | A new queue has ports * domains + 8 places and no captures |
| TsQueue.TsqInit | switch/ax_switch.c:86-100 | Initialisation gives such a queue, and fails if and only if its allocation does |
| TsQueue.InitSwitch | switch/ax_switch.c:108-129 | A switch gets both queues, separate and empty, or none |
| TsQueue.Queue.Flush | switch/ax_switch.c:56-65 | After a flush nothing was inserted |
| TsQueue.Queue.Insert | switch/ax_switch.c:509-528 | The ring holds the last min(n, capacity) captures, each insertion being the newest |
| TsQueue.Queue.Find | switch/ax_switch.c:708-745 | The backward search is the lookup among the last min(n, capacity) captures: a found one has the port, type, sequence and domain asked for, none in range that is newer has all four, and not-found means that none in range has; NO_ITEM if and only if nothing was inserted since the flush |
| SdsaTag.DeviceBits | DSA/tag_asix.c:41-58 | A transmitted tag has FROM_CPU and never reads as TO_CPU; with FROM_CPU cleared it does, and the tagged bit tells the two forms apart |
| SdsaTag.TagBytes | DSA/tag_asix.c:28-64 | The layout of a transmitted frame, byte by byte: addresses, dc dc 00 00, FROM_CPU with the tagged bit and five bits of the switch's index, five bits of the port's and three zero bits, then the VLAN bytes of the 802.1Q tag or zeros, then the rest |
| SdsaTag.SourcePortOf | DSA/tag_asix.c:94-96 | Of the switch's and the port's index exactly bits 5 to 9 and bits 0 to 4 survive |
| SdsaTag.FindUser | DSA/tag.h:32-45 | The first user port with the device and index, or none |
| SdsaTag.FromCpuRefused | DSA/tag_asix.c:86-91 | A frame as transmitted is refused on reception |
| SdsaTag.RcvTakes | DSA/tag_asix.c:69-141 | For all bytes: a frame is taken if and only if it has the tag, its two top bits are 0 and there is a user port of switch 0 with the ten-bit index; it is then from the first such port, with its tag taken out |
| SdsaTag.RoundTrip | DSA/tag_asix.c:14-141 | With FROM_CPU cleared a transmitted frame is received as the original bytes, an 802.1Q frame if and only if its EtherType was 81 00; it is refused if and only if a tagged frame is shorter than 18 bytes or no port is found |
| SdsaTag.SamePort | DSA/tag_asix.c:41-100 | And it is from the port it was sent on if and only if that port has index below 32 on switch 0 |
| SdsaTag.Port32IsLost | DSA/tag_asix.c:41-100 | An input for which it is not: port 32 of switch 0 comes back as port 0, or is refused without one |
| SdsaTag.Skb.CowHead | DSA/tag_asix.c:25-27 | Headroom is made, in a larger buffer if need be, with the frame unchanged; it fails only for want of memory |
| SdsaTag.Skb.OpenGap | DSA/tag_asix.c:28-30 | The overlapping move opens a gap after the addresses and loses no byte |
| SdsaTag.Skb.Xmit | DSA/tag_asix.c:14-67 | The tag is put in place, in both forms, despite the overlapping moves; on failure the frame is as it was |
| SdsaTag.Skb.CloseGap | DSA/tag_asix.c:129-137 | The overlapping move brings the addresses next to the payload |
| SdsaTag.Skb.RemoveTag | DSA/tag_asix.c:107-138 | The tag is taken out in place, leaving an 802.1Q tag if the tagged bit says so |
| SdsaTag.Skb.FindUserPort | DSA/tag.h:32-45 | The loop over the ports finds the first such user port |
| SdsaTag.Skb.Rcv | DSA/tag_asix.c:69-141 | Reception yields the port and the untagged frame; a refused frame is as it was |
| Mtu.ListedSpec | DSA/user.c:2007-2034 | The list has exactly the included ports with their MTUs, each device once |
| Mtu.LeastSpec | DSA/user.c:2019-2020 | The minimum is a lower bound of the included MTUs and 65535, and is one of them |
| Mtu.IncludedIff | DSA/user.c:2010-2017 | The devices concerned are those of user ports of enforcing switches on the bridge of dp |
| Mtu.ListedLaterFirst | DSA/user.c:2022-2029 | A port is listed right before all the earlier ones |
| Mtu.Kernel.Rollback | DSA/user.c:1965-1972 | From the port before the failed one back to the first, exactly the devices that lack their old MTU are asked to take it, in that order; each has it again unless a call refused |
| Mtu.RestoresReversed | DSA/user.c:1965-1972 | If all n devices lack their old MTU, the k-th call of the rollback is for the k-th device from the end |
| Mtu.RestoresAre | DSA/user.c:1965-1972 | The devices the rollback calls for are those that lack their old MTU |
| Mtu.Kernel.SetInTurn | DSA/user.c:1953-1960 | The loop asks exactly the devices that lack the MTU, in order, up to the first that refuses; the devices before that one have it, the others are as they were |
| Mtu.Kernel.ListSetMtu | DSA/user.c:1949-1975 | It succeeds if and only if each device that lacks the MTU takes it in its turn; exactly those are asked, in order. Otherwise devices from the first that refuses on are untouched, and those before have their old MTU, unless a call refused that |
| Mtu.Kernel.Collect | DSA/user.c:2001-2034 | The list and minimum of the ports on the bridge; none if and only if an allocation for one of them fails |
| Mtu.Kernel.SetOneOrOther | DSA/user.c:2036-2046 | All devices end at the first MTU unless a call refused it to one, and then all at the second unless a call refused that. If old MTUs are accepted, all end at the first, all at the second, or all where they were; in any case each at one of the three |
| Mtu.Kernel.Normalize | DSA/user.c:1985-2049 | With memory for the list: the ports on the bridge all end at the new port's MTU if every call for it is accepted; all at the minimum if a device refuses it and the calls for the minimum and for old MTUs are accepted; and at neither only if calls for both were refused. If old MTUs are accepted they end all at one of the two or all unchanged. Devices of other ports never change, and without memory, bridge or enforcement no call is made |

## Left out

- The environment of the transmit rings is assumed: a completion interrupt follows a STOPPED descriptor,
  the kernel does not transmit on a stopped queue, and an interrupt handler or a transmit, which hold one
  lock, is one step.
- The hardware is assumed not to lap the receive reader, since the driver has no check for it.
- Memory-mapped registers, PCI, MSI-X set-up, MDIO, I2C, PHY polling, ioctl, procfs, ethtool, devlink,
  netlink and phylink: input and output, or wrappers over kernel code that is not part of this model.
- Engine error interrupts, and the `AX_MQ` and debug branches.
- RxDriver.Receiver.NetRx: assumes that a received length does not exceed its buffer, which the source does not check.
- Packet headers, lengths and padding on the transmit rings; a packet is a value, and a bus address is an
  index into its ring.
- `RX_DESC_NUM`, which the completion handlers use for the last transmit descriptor, equals `TX_DESC_NUM`;
  the model has one size for both.
- Saturation of reference counts: they are unbounded here.
- Memory freed by `kfree`, and the `WARN_ON` that a LAG's address list is empty when the LAG goes.
- HostAddresses.HostLists.HostCall: is for trees in which the routing table leads from every switch to every
  other, and in which a matching CPU port that stands for a LAG is in one; otherwise the source dereferences
  a null port or LAG.
- HostPaths.MatchesArePathIff: is for a targeted port whose switch's DSA ports have the same CPU port as it, and
  for a tree in which every switch is on the routing table of every other; PathMatches and MatchIff likewise.
- HostAddresses.CpuCountIsOutstanding: is for a tree of one switch without CPU ports in a LAG; across switches a
  failed notification is not rolled back by the source.
- A LAG's address list is the same `RefDb` list as a port's, reached through `HostAddresses`; its entries'
  flow between switches of a larger tree is not modelled.
- Bridges.RunKeepsInv: is for one tree; a number shared by several trees is cleared by the first to drop it.
- PortDriver.SwitchTree.BridgeJoin: is not for a join whose number overflows the bitmap's word, since the source then
  sets a bit outside the bitmap; what that overwrites is not modelled.
- PortDriver.SwitchTree.BridgeCreate: excludes the same join.
- PortDriver.SwitchTree.LagJoin: excludes the same join, by a LAG's own bridge.
- Address lists keep copies of bridge and LAG structures; `MacAddresses` models those copies as values.
- Notifications of joins and leaves to the switches are parameters; what a switch does with one is not
  modelled.
- Qbv.ComputeConfigChange: gets a timer's seconds and nanoseconds as one reading, although the source reads two
  registers.
- `ax_irq_timer_change` and `ax_irq_timer_value_change`: the functions they share with the model are proved,
  their register sequences are not modelled.
- How captures are read from the hardware queues, and the use of a found capture in a socket buffer.
- Checksum updates in `sdsa_rcv`, and cloned or nonlinear socket buffers.
- `tag_8021q` reference lists and VID packing: small finite domains.
- The conduit's MTU and the re-entry of MTU notifications: `dev_set_mtu` acts on one device.
- Mtu.Kernel.Normalize: takes the ports of all trees as one list.
- Conduit migration, ageing time, and the restore of LAG conduits.
