# sephi: verification of the message queue, the event and the TCP write path

This project models four parts of sephi in Dafny and proves what they promise.

**The shared-memory priority message queue** (`include/sephi/ipc/mq/boost/message_queue_mod.hpp`). A
fixed pool of message slots is reached through an index array of slot pointers; one part of the index is
the queue in ascending priority, the rest is the free list.

- `PriorityQueue` is the abstract stable priority queue, and an unordered reference model (a set of
  pending messages from which the best one is picked). The two produce exactly the same histories.
- `IndexSpec` says what an index array means, whatever build it belongs to. `CircularIndex` and
  `LinearIndex` are the two builds as classes over arrays, with the shifts, the split binary search and
  the loops of the standard algorithms (`ArrayOps`) done in place. `Equivalence` drives both builds
  through the same non-blocking calls.
- `Protocol` holds the locked sections of `do_send` and `do_receive`; both classes implement them and
  `Monitor` interleaves them over any number of concurrent calls, with spurious wakeups, timeouts, barging
  callers and throwing waits, and shows that the two builds go through the same states. `Linearisation`
  turns concurrent runs into sequential histories, `CallModes` says how calls of each mode can end, and
  `ConcreteMonitor` plays any concurrent run on the
  queue objects of both builds.
- `Layout` is the memory layout with the unsigned arithmetic written out.

**The auto-reset event** (`src/sync/event.cpp`, `src/ipc/sync/event.cpp`), in `AutoResetEvent`.

**The TCP client's write path** (`src/net/tcp/client/client.cpp`), in `WritePump` and `TcpClient`,
which also plays any run on the client object.

**The TCP server** (`src/net/tcp/server/server.cpp`, `session.cpp`): `ServerSpec` is the server as steps of
its io thread, `Callbacks` the connection callbacks it makes, `TcpServer` holds the server and session
objects, and `ConcreteServer` plays any run of the model on the objects.

A run is any sequence of steps; a step that cannot happen leaves the state as it is, so a statement about
all sequences of steps is a statement about all runs.

Where the code and its comments disagree the code is followed: the comments at lines 818 and 951 of
`message_queue_mod.hpp` say that notification happens outside the lock, but the `scoped_lock` declared at
lines 746 and 873 outlives the inner block, so notification is modelled under the lock.

Assumptions taken from outside the repository:

- A new shared segment is zero-filled (`initialize_memory` does not write the message headers).
- `get_rounded_size` and `ct_rounded_size` round up to a multiple of the alignment; the Boost file that
  defines them is not part of this model. C++ makes every size a multiple of its alignment.
- A condition variable's `notify_one` wakes one waiter that has not been notified yet, if there is one.
- Session objects alive at the same time have different addresses; an address may be reused later.
- Tasks posted to the io thread run in order, and completion handlers run one at a time.

Four results show where a promise ends, each with an input on which it fails and the exact condition under
which it holds.

- A wait that throws after its call was notified takes the notification with it. Over a run no wakeup is
  ever lost if and only if no step is a throw of a notified call beside another sleeper when every
  notification is needed: `WakeupsKeptExactly`, with the run `ThrowCanLoseWakeup`.
- After a failed write completion the client's pump never moves again, whatever reconnects follow. What was
  accepted can still reach the wire if and only if no completion has failed: `DrainsUnlessFailed`, with the
  run `WriteCanFail`.
- The server reports disconnects twice when a session leaves that has left before or was closed. Connects
  and disconnects of every id take turns if and only if each leaving session is registered when it leaves:
  `CallbacksPairedExactly`, with the run `DisconnectCanRepeat`.
- The control block is rounded for pointers, not for messages. Every segment aligned for pointers has
  aligned message headers if and only if the pointer alignment is a multiple of the header's:
  `AlignedPlatformsExactly`, with the platform `HeadersCanBeMisaligned`.

Priorities and counters are unbounded numbers here; nothing in the code does arithmetic on priorities, and
the counters are bounded by the number of calls in progress.

## Model

| member | source | states |
|---|---|---|
| `PriorityQueue.LowerBound` | include/sephi/ipc/mq/boost/message_queue_mod.hpp:529-530 | the least position whose priority is not below the new one: everything before it is strictly lower |
| `PriorityQueue.QueueIsBag` | include/sephi/ipc/mq/boost/message_queue_mod.hpp:262-267 | a history is possible for the sorted queue if and only if it is possible for a set of pending messages from which each receive takes the best one; the same messages are pending after it |
| `PriorityQueue.BagOrder` | include/sephi/ipc/mq/boost/message_queue_mod.hpp:264-265 | over every history, messages of one priority are delivered in sending order and every send is pending or delivered exactly once |
| `PriorityQueue.DeliveryIsStable` | include/sephi/ipc/mq/boost/message_queue_mod.hpp:933-948 | every receive returns the message of highest priority and, among equals, the earliest sent |
| `PriorityQueue.Conservation` | include/sephi/ipc/mq/boost/message_queue_mod.hpp:804-815 | sent messages are received plus stored ones as multisets; the store stays within capacity and ascending |
| `IndexSpec.EverySlotOnce` | include/sephi/ipc/mq/boost/message_queue_mod.hpp:576-580 | in a well-formed state every preallocated slot is in exactly one cell: none lost, duplicated, or both queued and free |
| `IndexSpec.InsertsRearranges` | include/sephi/ipc/mq/boost/message_queue_mod.hpp:397-475 | an insertion keeps the pointers distinct, keeps the order of the queued ones around the new position, and puts a free slot there |
| `IndexSpec.SendRefines` | include/sephi/ipc/mq/boost/message_queue_mod.hpp:804-815 | the recycled slot had zero length and priority; filling it enqueues the message and keeps the state well-formed, whichever free slot is taken |
| `IndexSpec.ReceiveRefines` | include/sephi/ipc/mq/boost/message_queue_mod.hpp:934-948 | the top slot holds the top message, its length fits the maximum, and clearing it dequeues exactly that message |
| `IndexSpec.WellFormedCells` | include/sephi/ipc/mq/boost/message_queue_mod.hpp:374-395 | in a well-formed state the priorities ascend inside each of the two stretches the search runs over |
| `IndexSpec.SplitIsLowerBound` | include/sephi/ipc/mq/boost/message_queue_mod.hpp:374-395 | a cell that splits the queued cells by priority is the least-position answer over the unrolled queue |
| `IndexSpec.NotAboveBottom` | include/sephi/ipc/mq/boost/message_queue_mod.hpp:513-515 | without a search: not above the bottom priority means the front is the right place |
| `IndexSpec.AboveTop` | include/sephi/ipc/mq/boost/message_queue_mod.hpp:516-519 | without a search: above the top priority means the end is the right place |
| `IndexSpec.CircularInsertCost` | include/sephi/ipc/mq/boost/message_queue_mod.hpp:415-474 | a circular insertion moves at most half of the queued pointers, rounded up, and of the free ones only the one it takes |
| `ArrayOps.Copy` | include/sephi/ipc/mq/boost/message_queue_mod.hpp:435-442 | the overlapping forward copy, cell by cell |
| `ArrayOps.CopyBackward` | include/sephi/ipc/mq/boost/message_queue_mod.hpp:462-469 | the overlapping backward copy, cell by cell |
| `ArrayOps.LowerBoundCells` | include/sephi/ipc/mq/boost/message_queue_mod.hpp:379-393 | the halving search splits an ascending stretch into lower priorities and the rest |
| `ArrayOps.CopyOut` | include/sephi/ipc/mq/boost/message_queue_mod.hpp:944-945 | the payload lands at the front of the receiver's buffer and the rest of the buffer is unchanged |
| `ArrayOps.FillSlot` | include/sephi/ipc/mq/boost/message_queue_mod.hpp:806-815 | on a clean slot: header and data written, all other slots unchanged, and the slot then reads back as the message |
| `ArrayOps.ClearSlot` | include/sephi/ipc/mq/boost/message_queue_mod.hpp:940-942 | only the header of that slot is cleared |
| `CircularIndex.FrontShiftOneSegment` | include/sephi/ipc/mq/boost/message_queue_mod.hpp:426-446 | moving one stretch back by a cell is inserting the free pointer before the first one at position k |
| `CircularIndex.FrontShiftTwoSegments` | include/sephi/ipc/mq/boost/message_queue_mod.hpp:426-446 | the same when the stretch goes round the array boundary |
| `CircularIndex.BackShiftMeaning` | include/sephi/ipc/mq/boost/message_queue_mod.hpp:452-471 | moving the cells from position k on by one is inserting the free pointer after the last one at k |
| `CircularIndex.ShiftFrontOneSegment` | include/sephi/ipc/mq/boost/message_queue_mod.hpp:440-443 | which old cell every cell's pointer comes from, one stretch |
| `CircularIndex.ShiftFrontTwoSegments` | include/sephi/ipc/mq/boost/message_queue_mod.hpp:434-443 | which old cell every cell's pointer comes from, two stretches |
| `CircularIndex.ShiftFront` | include/sephi/ipc/mq/boost/message_queue_mod.hpp:416-447 | the front branch refines sequence insertion at k for every first offset, wrapped or not |
| `CircularIndex.ShiftBack` | include/sephi/ipc/mq/boost/message_queue_mod.hpp:449-472 | the back branch refines sequence insertion at k for every first offset, wrapped or not |
| `CircularIndex.InsertPointer` | include/sephi/ipc/mq/boost/message_queue_mod.hpp:397-475 | for every non-full state and every position, the rotation becomes the old one with a free slot inserted at k; at most half the queued pointers move and no free one but the slot taken |
| `CircularIndex.WrappedSearch` | include/sephi/ipc/mq/boost/message_queue_mod.hpp:377-391 | the search over the wrap splits the queue by priority, and both sanity checks hold under the guards |
| `CircularIndex.SplitSearch` | include/sephi/ipc/mq/boost/message_queue_mod.hpp:374-395 | the same for wrapped and unwrapped indexes |
| `CircularIndex.CircularQueue.constructor` | include/sephi/ipc/mq/boost/message_queue_mod.hpp:323-332 | a new queue is well-formed and empty, with both counters zero |
| `CircularIndex.CircularQueue.EndPos` | include/sephi/ipc/mq/boost/message_queue_mod.hpp:350-355 | the cell num places after the first one, going round |
| `CircularIndex.CircularQueue.TopSlot` | include/sephi/ipc/mq/boost/message_queue_mod.hpp:358-362 | the last queued pointer of the unrolled queue |
| `CircularIndex.CircularQueue.BottomSlot` | include/sephi/ipc/mq/boost/message_queue_mod.hpp:365-366 | the first queued pointer of the unrolled queue |
| `CircularIndex.CircularQueue.LowerBoundCell` | include/sephi/ipc/mq/boost/message_queue_mod.hpp:374-395 | under the caller's guards, the cell of the least-position search, strictly inside the queue |
| `CircularIndex.CircularQueue.PlaceFor` | include/sephi/ipc/mq/boost/message_queue_mod.hpp:512-532 | the place picked, with or without a search, is the lower bound of the priority |
| `CircularIndex.CircularQueue.QueueFreeMsg` | include/sephi/ipc/mq/boost/message_queue_mod.hpp:510-535 | one free slot enters the queue at the lower bound and is returned |
| `CircularIndex.CircularQueue.StoreMessage` | include/sephi/ipc/mq/boost/message_queue_mod.hpp:803-815 | stays valid, and the queue is the old one with the message enqueued |
| `CircularIndex.CircularQueue.TakeMessage` | include/sephi/ipc/mq/boost/message_queue_mod.hpp:933-948 | stays valid, the queue loses its top, and the receiver's buffer holds exactly that message |
| `CircularIndex.CircularQueue.LeaveBlockedSenders` | include/sephi/ipc/mq/boost/message_queue_mod.hpp:787-797 | leaving the blocking section, also by an exception, takes one off the counter and changes nothing else |
| `CircularIndex.CircularQueue.LeaveBlockedReceivers` | include/sephi/ipc/mq/boost/message_queue_mod.hpp:916-926 | the same for receivers |
| `CircularIndex.CircularQueue.SendEnter` | include/sephi/ipc/mq/boost/message_queue_mod.hpp:732-761 | from the call to the first wait or return: size error, refusal, wait or store, with the new shared state |
| `CircularIndex.CircularQueue.SendResume` | include/sephi/ipc/mq/boost/message_queue_mod.hpp:763-829 | from a wait's return to the next wait or return, for blocking and timed waits |
| `CircularIndex.CircularQueue.ReceiveEnter` | include/sephi/ipc/mq/boost/message_queue_mod.hpp:857-888 | the receiving counterpart, with the contents of the buffer |
| `CircularIndex.CircularQueue.ReceiveResume` | include/sephi/ipc/mq/boost/message_queue_mod.hpp:890-962 | the receiving counterpart after a wait |
| `LinearIndex.InsertPointer` | include/sephi/ipc/mq/boost/message_queue_mod.hpp:498-505 | the linear insertion is sequence insertion of the first free slot |
| `LinearIndex.LinearQueue.LowerBoundCell` | include/sephi/ipc/mq/boost/message_queue_mod.hpp:495-496 | the linear search finds the least-position answer |
| `LinearIndex.LinearQueue.PlaceFor` | include/sephi/ipc/mq/boost/message_queue_mod.hpp:512-532 | the place picked is the lower bound of the priority |
| `LinearIndex.LinearQueue.QueueFreeMsg` | include/sephi/ipc/mq/boost/message_queue_mod.hpp:510-535 | the first free slot enters the queue at the lower bound and is returned |
| `LinearIndex.LinearQueue.StoreMessage` | include/sephi/ipc/mq/boost/message_queue_mod.hpp:803-815 | stays valid, and the queue is the old one with the message enqueued |
| `LinearIndex.LinearQueue.TakeMessage` | include/sephi/ipc/mq/boost/message_queue_mod.hpp:933-948 | stays valid, the queue loses its top, and the buffer holds exactly that message |
| `LinearIndex.LinearQueue.SendEnter` | include/sephi/ipc/mq/boost/message_queue_mod.hpp:732-761 | the linear build from the call to the first wait or return: size error, refusal, wait or store, always notifying after a store |
| `LinearIndex.LinearQueue.SendResume` | include/sephi/ipc/mq/boost/message_queue_mod.hpp:763-829 | the linear build from a wait's return to the next wait or return, for blocking and timed waits |
| `LinearIndex.LinearQueue.ReceiveEnter` | include/sephi/ipc/mq/boost/message_queue_mod.hpp:857-888 | the receiving counterpart, with the contents of the buffer |
| `LinearIndex.LinearQueue.ReceiveResume` | include/sephi/ipc/mq/boost/message_queue_mod.hpp:890-962 | the receiving counterpart after a wait |
| `Equivalence.CallCircular` | include/sephi/ipc/mq/boost/message_queue_mod.hpp:346-475 | one call on the circular build gives the abstract queue's answer and full/empty state |
| `Equivalence.CallLinear` | include/sephi/ipc/mq/boost/message_queue_mod.hpp:477-505 | one call on the linear build gives the abstract queue's answer and full/empty state |
| `Equivalence.RunCircular` | include/sephi/ipc/mq/boost/message_queue_mod.hpp:346-475 | any sequence of calls on a new circular queue gives the abstract queue's replies |
| `Equivalence.RunLinear` | include/sephi/ipc/mq/boost/message_queue_mod.hpp:477-507 | any sequence of calls on a new linear queue gives the abstract queue's replies |
| `Equivalence.RunBoth` | include/sephi/ipc/mq/boost/message_queue_mod.hpp:346-507 | for any sequence of non-blocking calls both builds give the abstract queue's payloads, priorities, refusals and full/empty answers (blocking and timed calls: `ConcreteMonitor.PlayBoth`) |
| `Monitor.SectionEffect` | include/sephi/ipc/mq/boost/message_queue_mod.hpp:750-804 | what one locked section does to the counters and to what senders and receivers wait for, when it notifies, and that it refuses only when there is nothing to take |
| `Monitor.SectionOutcome` | include/sephi/ipc/mq/boost/message_queue_mod.hpp:737-789 | the answer of a locked section, each of the five under its exact condition: size error, refusal (nothing to take and the call gives up), wait (nothing to take and it does not), stored, delivered |
| `Monitor.SectionKeepsOwnSide` | include/sephi/ipc/mq/boost/message_queue_mod.hpp:763-789 | a caller takes at most what was promised to notified callers of its side |
| `Monitor.SectionKeepsOtherSide` | include/sephi/ipc/mq/boost/message_queue_mod.hpp:800-827 | whoever adds supply while the other side sleeps finds its counter non-zero and notifies |
| `Monitor.StepKeepsWakeupsExactly` | include/sephi/ipc/mq/boost/message_queue_mod.hpp:746-829 | a step keeps both wakeup invariants if and only if it is not a throw that loses a wakeup |
| `Monitor.CountersAlwaysExact` | include/sephi/ipc/mq/boost/message_queue_mod.hpp:750-798 | in every run, also with throwing waits, each counter equals the number of calls inside the blocking section, and is positive whenever one of them leaves |
| `Monitor.WakeupsNeverLost` | include/sephi/ipc/mq/boost/message_queue_mod.hpp:746-829 | in every run without a throw that loses a wakeup, a call sleeps un-notified only while the stored messages (or free places) are at most the notified calls not yet resumed |
| `Monitor.WakeupsKeptExactly` | include/sephi/ipc/mq/boost/message_queue_mod.hpp:746-829 | the wakeup invariants hold after every prefix of a run if and only if no step of it is such a throw |
| `Monitor.NoJointSleep` | include/sephi/ipc/mq/boost/message_queue_mod.hpp:877-927 | with capacity at least one, a sender and a receiver never both sleep un-notified with no notification pending |
| `Monitor.SleeperIsNotForgotten` | include/sephi/ipc/mq/boost/message_queue_mod.hpp:822-824 | a sleeper beside something to take always has a notified call on its side that can resume and will succeed |
| `Monitor.QuiescentSleepersAreJustified` | include/sephi/ipc/mq/boost/message_queue_mod.hpp:763-768 | when nothing can run, receivers sleep only on an empty queue, senders only on a full one, and never both |
| `Monitor.ThrowLosesExactly` | include/sephi/ipc/mq/boost/message_queue_mod.hpp:791-796 | a throwing wait loses a wakeup if and only if its call was notified, another sleeps on its side, and every notification was needed |
| `Monitor.RefusalsAreJustified` | include/sephi/ipc/mq/boost/message_queue_mod.hpp:755-781 | every refused call, in every mode, saw a full queue (senders) or an empty one (receivers) at the lock point that refused it |
| `CallModes.BeginEnds` | include/sephi/ipc/mq/boost/message_queue_mod.hpp:751-768 | how a call's first section ends, by size, supply and mode: only a non-blocking call is refused, only the others sleep |
| `CallModes.ResumeEnds` | include/sephi/ipc/mq/boost/message_queue_mod.hpp:763-785 | how a resumed call goes on: it succeeds if and only if there is something to take, else it is refused if and only if its wait expired, and sleeps again if and only if not |
| `CallModes.CallsKeepTheirMode` | include/sephi/ipc/mq/boost/message_queue_mod.hpp:712-761 | in every run a call ends with a size error if and only if it has begun and does not fit, a non-blocking call never waits or throws, a blocking call is never refused, and only timed waits expire |
| `CallModes.DeniedAfterExpiry` | include/sephi/ipc/mq/boost/message_queue_mod.hpp:770-781 | in every run a waiting call is refused only if it is timed and its wait did expire |
| `CallModes.ThrewExactly` | include/sephi/ipc/mq/boost/message_queue_mod.hpp:791-796 | in every run a call ends by an exception if and only if its wait threw |
| `Monitor.StepBuildsAgree` | include/sephi/ipc/mq/boost/message_queue_mod.hpp:818-827 | a step of the always-notifying build and of the counting build lead to the same state: where the counter is zero nobody sleeps |
| `Monitor.BuildsAgree` | include/sephi/ipc/mq/boost/message_queue_mod.hpp:818-827 | under every schedule, with blocking, timed and non-blocking calls, both builds go through the same states, results and histories |
| `Monitor.ThrowCanLoseWakeup` | include/sephi/ipc/mq/boost/message_queue_mod.hpp:920-925 | a run in which such a throw leaves a receiver asleep beside a stored message |
| `Linearisation.SectionActs` | include/sephi/ipc/mq/boost/message_queue_mod.hpp:800-815 | insertion is reached only below capacity, removal only on a non-empty queue, and every other outcome leaves the queue as it was |
| `Linearisation.RunsLinearise` | include/sephi/ipc/mq/boost/message_queue_mod.hpp:732-830 | the successful calls of any concurrent run, in lock order, are a history of the abstract queue that ends in the stored queue |
| `Linearisation.CallsActAsTheyEnd` | include/sephi/ipc/mq/boost/message_queue_mod.hpp:857-963 | a successful call acted exactly once with its own message; a refused, rejected, throwing or unfinished call did not act |
| `Linearisation.ConcurrentDelivery` | include/sephi/ipc/mq/boost/message_queue_mod.hpp:934-948 | conservation, priority order and first-in-first-out among equals hold over every concurrent run |
| `Linearisation.RealTimeOrder` | include/sephi/ipc/mq/boost/message_queue_mod.hpp:746-748 | a call made after another had succeeded also comes after it in the history |
| `ConcreteMonitor.PlaySection` | include/sephi/ipc/mq/boost/message_queue_mod.hpp:748-829 | the queue object's locked sections are those of the monitor model |
| `ConcreteMonitor.PlayStep` | include/sephi/ipc/mq/boost/message_queue_mod.hpp:748-829 | any step of a run keeps the queue object's state equal to the model's and gives the caller the model's ending |
| `ConcreteMonitor.Play` | include/sephi/ipc/mq/boost/message_queue_mod.hpp:732-963 | any concurrent run played on the circular queue object leaves it valid, in the model's shared state, and every call with the ending (message, refusal, error) the model gives it |
| `ConcreteMonitor.PlaySectionLinear` | include/sephi/ipc/mq/boost/message_queue_mod.hpp:748-829 | the linear queue object's locked sections are those of the monitor model |
| `ConcreteMonitor.PlayStepLinear` | include/sephi/ipc/mq/boost/message_queue_mod.hpp:748-829 | the same step by step for the linear build |
| `ConcreteMonitor.PlayLinear` | include/sephi/ipc/mq/boost/message_queue_mod.hpp:732-963 | any concurrent run played on the linear queue object gives the model's shared state and endings |
| `ConcreteMonitor.PlayBoth` | include/sephi/ipc/mq/boost/message_queue_mod.hpp:346-507 | any concurrent run leaves the two builds with the same stored queue, blocked callers and full/empty answers, and has told every caller the same |
| `Layout.SizeIsExactUnlessItWraps` | include/sephi/ipc/mq/boost/message_queue_mod.hpp:540-551 | get_mem_size is the size the layout needs if and only if that size is representable; otherwise it is too small |
| `Layout.SizeIsExactModuloWord` | include/sephi/ipc/mq/boost/message_queue_mod.hpp:540-551 | whatever wraps on the way, get_mem_size is the exact size modulo the word, when the word is a multiple of the header alignment |
| `Layout.LayoutIsSafe` | include/sephi/ipc/mq/boost/message_queue_mod.hpp:555-581 | control block, index cells and slots (header plus the largest payload) are pairwise disjoint and inside the minimum size when nothing wraps |
| `Layout.LayoutIsPacked` | include/sephi/ipc/mq/boost/message_queue_mod.hpp:557-570 | nothing but alignment is wasted: cells follow each other, and index, first slot and every next slot start within one alignment of what comes before |
| `Layout.SegmentIsPacked` | include/sephi/ipc/mq/boost/message_queue_mod.hpp:540-551 | the size less the user offset is within one alignment of the end of the last slot |
| `Layout.SlotsAlignedExactly` | include/sephi/ipc/mq/boost/message_queue_mod.hpp:557-570 | index cells are aligned when the segment is; message headers are aligned if and only if the end of the rounded control block is |
| `Layout.AlignedPlatformsExactly` | include/sephi/ipc/mq/boost/message_queue_mod.hpp:557-570 | every pointer-aligned segment has aligned message headers if and only if the pointer alignment is a multiple of the header's |
| `Layout.HeadersCanBeMisaligned` | include/sephi/ipc/mq/boost/message_queue_mod.hpp:557-570 | a platform, sound in C++'s terms, on which the first message header is misaligned |
| `Layout.SlotAddressIsExact` | include/sephi/ipc/mq/boost/message_queue_mod.hpp:568-580 | the running address is the slot's place in the layout when nothing wraps |
| `Layout.AddressIsExactModuloWord` | include/sephi/ipc/mq/boost/message_queue_mod.hpp:568-580 | whatever wraps on the way, the running address is the slot's place modulo the word, when the word is a multiple of the header alignment |
| `Layout.FillIndex` | include/sephi/ipc/mq/boost/message_queue_mod.hpp:576-580 | the loop writes the i-th running address into cell i |
| `Layout.InitializeMemory` | include/sephi/ipc/mq/boost/message_queue_mod.hpp:555-581 | cell i points to message i |
| `AutoResetEvent.Event.Set` | src/sync/event.cpp:9-14 | the flag is up, and whether it was down before |
| `AutoResetEvent.Event.TryPass` | src/sync/event.cpp:16-21 | passes exactly when the flag is up and lowers it |
| `AutoResetEvent.SetWakesOne` | src/sync/event.cpp:9-14 | a set moves exactly one sleeper to the notified waiters, also on a raised flag, and moves nobody else |
| `AutoResetEvent.StepKeeps` | src/ipc/sync/event.cpp:10-22 | every step keeps the account of raises and the wakeup invariant |
| `AutoResetEvent.EventIsSound` | src/sync/event.cpp:9-21 | over every run with spurious wakeups, completed waits plus one for a raised flag are the sets that found it down, and a raised flag beside an un-notified sleeper has a notified waiter coming |
| `AutoResetEvent.QuiescentEventIsDown` | src/ipc/sync/event.cpp:17-22 | when every waiter sleeps or has passed, nobody sleeps beside a raised flag |
| `AutoResetEvent.PlayStep` | src/sync/event.cpp:9-21 | any step on the event object changes flag, raises and the set of passed waits as the model does |
| `AutoResetEvent.Play` | src/sync/event.cpp:9-21 | any run played on the event object gives the model's flag, raises and passed waits, and the waits let through plus a raised flag are the sets that found it down |
| `WritePump.PushKeeps` | src/net/tcp/client/client.cpp:57-62 | a push extends the accepted chunks and keeps the pump invariant |
| `WritePump.CompleteKeeps` | src/net/tcp/client/client.cpp:123-134 | a completion, successful or failed, keeps the pump invariant and only adds to the wire; a failed one adds the bytes taken of the front chunk |
| `WritePump.WireIsPrefix` | src/net/tcp/server/session.cpp:63-83 | the wire is a prefix of the accepted bytes, and all of them when the deque is empty |
| `TcpClient.Client.Write` | src/net/tcp/client/client.cpp:50-64 | accepts and posts the chunk exactly when connected; otherwise answers false and changes nothing |
| `TcpClient.Client.DoWrite` | src/net/tcp/client/client.cpp:114-121 | hands the front chunk to the socket |
| `TcpClient.Client.RunPosted` | src/net/tcp/client/client.cpp:57-62 | the posted task pushes the chunk and starts the pump only when it was idle |
| `TcpClient.Client.HandleWrite` | src/net/tcp/client/client.cpp:123-134 | keeps the pump invariant, so a front chunk is there; success pops it and starts the next write, failure disconnects and leaves it |
| `TcpClient.Client.HandleConnect` | src/net/tcp/client/client.cpp:85-94 | keeps the pump invariant; connected afterwards if and only if the connect succeeded, and nothing else changes, so nothing restarts the pump |
| `TcpClient.Client.Disconnect` | src/net/tcp/client/client.cpp:34-48 | keeps the pump invariant; not connected afterwards, and deque and posted tasks survive |
| `TcpClient.Client.AreAllMessagesSent` | src/net/tcp/client/client.cpp:71-74 | true if and only if written chunks and posted tasks are all that was accepted; then the accepted bytes are the wire followed by the posted tasks |
| `TcpClient.PlayStep` | src/net/tcp/client/client.cpp:34-134 | any step on the client object keeps it valid and in the model's state, and write answers as the model says |
| `TcpClient.Play` | src/net/tcp/client/client.cpp:34-134 | any run played on a new client leaves it in the model's state, so the run theorems hold of the object, with the model's answers of write |
| `TcpClient.ConnectedExactly` | src/net/tcp/client/client.cpp:34-94 | in every run the client is connected if and only if some connect succeeded and no error, close or reconnect came after it |
| `TcpClient.AcceptedExactly` | src/net/tcp/client/client.cpp:50-64 | in every run the accepted chunks are exactly those written while the connection was up, in order |
| `TcpClient.ClientPumpIsFaithful` | src/net/tcp/client/client.cpp:50-134 | in every run, until the first failed completion one write is in flight exactly when the deque is non-empty and completed chunks, deque and posted tasks are the accepted chunks in order; the wire is always a prefix of the accepted bytes |
| `TcpClient.EmptyDequeMeansWritten` | src/net/tcp/client/client.cpp:71-74 | an empty deque means everything enqueued is on the wire; everything accepted is if and only if the posted tasks carry no bytes |
| `TcpClient.FailureStopsThePump` | src/net/tcp/client/client.cpp:126-129 | after a failed completion the wire never changes and the deque never empties, whatever follows |
| `TcpClient.PumpDrains` | src/net/tcp/client/client.cpp:131-133 | without a failed completion some continuation puts everything accepted on the wire and empties deque and posted tasks |
| `TcpClient.FailedExactly` | src/net/tcp/client/client.cpp:126-129 | the pump has failed if and only if some completion of the run reported an error |
| `TcpClient.DrainsUnlessFailed` | src/net/tcp/client/client.cpp:123-134 | what was accepted can still reach the wire if and only if no completion reported an error; after one no continuation empties the deque |
| `TcpClient.WriteCanFail` | src/net/tcp/client/client.cpp:126-129 | a run that reaches a failure with an accepted chunk and nothing on the wire |
| `ServerSpec.AcceptKeepsRegistry` | src/net/tcp/server/server.cpp:96-112 | accepting a session with an unused address keeps the registry sound |
| `ServerSpec.LeaveKeepsRegistry` | src/net/tcp/server/server.cpp:73-78 | leaving keeps the registry sound |
| `ServerSpec.RegistryFollowsCallbacks` | src/net/tcp/server/server.cpp:73-112 | in every run an address is registered if and only if its latest callback was a connect, and live sessions have distinct addresses |
| `ServerSpec.LeavingTouchesNobodyElse` | src/net/tcp/server/session.cpp:75-78 | a session that leaves, even twice, never unregisters another |
| `ServerSpec.FailureLeaves` | src/net/tcp/server/session.cpp:49-78 | a failed read or write unregisters the session's id and makes one disconnect callback |
| `ServerSpec.CallbacksExactly` | src/net/tcp/server/server.cpp:73-112 | in every run the callbacks are those of the accepts, the failures and the closed sessions, in order, and no others |
| `ServerSpec.RegisteredNext` | src/net/tcp/server/server.cpp:73-112 | a step takes exactly the failing or closed sessions out of the registry and puts exactly the accepted one in |
| `ServerSpec.RegisteredExactly` | src/net/tcp/server/server.cpp:73-112 | in every run a session is registered if and only if it was accepted and since then had no failed read or write and no close; never again after one |
| `ServerSpec.FoundExactly` | src/net/tcp/server/server.cpp:54-63 | write_to finds an id if and only if a session accepted under it was never removed |
| `ServerSpec.ReadsUntilFailure` | src/net/tcp/server/session.cpp:42-61 | a session keeps reading until its first failed read, registered or not |
| `ServerSpec.LeaveAlternates` | src/net/tcp/server/server.cpp:73-78 | the disconnect of a live session follows a connect of its address if and only if the session is still registered |
| `ServerSpec.StepPairs` | src/net/tcp/server/server.cpp:73-112 | a step keeps connects and disconnects paired if and only if it does not make an unregistered session leave |
| `ServerSpec.CallbacksPairedExactly` | src/net/tcp/server/server.cpp:73-112 | in a run the connects and disconnects of every address take turns if and only if every session that leaves is registered then |
| `ServerSpec.DisconnectCanRepeat` | src/net/tcp/server/server.cpp:80-88 | a run in which a closed session's failed read reports its disconnect again |
| `Callbacks.DisconnectsAppended` | src/net/tcp/server/server.cpp:80-88 | after the disconnects of close the latest callback of every id walked is a disconnect, and of no other id changed |
| `Callbacks.PairedDisconnects` | src/net/tcp/server/server.cpp:80-88 | one disconnect for each of several connected ids keeps connects and disconnects paired |
| `ServerSpec.StepRoutes` | src/net/tcp/server/server.cpp:48-71 | one step pushes its chunk to a session exactly when the session is registered and addressed |
| `ServerSpec.RoutingIsFaithful` | src/net/tcp/server/server.cpp:48-71 | in every run and for any mix of writes, a session's pump carries exactly the chunks addressed to it while registered, in order, and its wire is a prefix of their bytes |
| `TcpServer.Session.Write` | src/net/tcp/server/session.cpp:28-34 | pushes the chunk, starting the pump only when it was idle |
| `TcpServer.Session.HandleWrite` | src/net/tcp/server/session.cpp:72-83 | completes the front chunk; the session leaves exactly on an error |
| `TcpServer.Server.Broadcast` | src/net/tcp/server/server.cpp:68-70 | walking the map in any order pushes the chunk once to every session not skipped |
| `TcpServer.Server.WriteToAll` | src/net/tcp/server/server.cpp:48-52 | every registered session gets the chunk once |
| `TcpServer.Server.WriteTo` | src/net/tcp/server/server.cpp:54-63 | reports whether the id is registered and pushes to that session only |
| `TcpServer.Server.WriteToAllExcept` | src/net/tcp/server/server.cpp:65-71 | every registered session but one gets the chunk once |
| `TcpServer.Server.Leave` | src/net/tcp/server/server.cpp:73-78 | erases the id and makes one disconnect callback |
| `TcpServer.Server.HandleAccept` | src/net/tcp/server/server.cpp:96-112 | registers a new idle session with one connect callback, or nothing on an error |
| `TcpServer.Server.Close` | src/net/tcp/server/server.cpp:80-88 | empties the map with exactly one disconnect callback per registered id, in the order the map is walked |
| `ConcreteServer.PlayStep` | src/net/tcp/server/server.cpp:48-112 | any step keeps session objects, session map and the whole callback sequence in step with the model, and write_to answers as the model says |
| `ConcreteServer.Play` | src/net/tcp/server/server.cpp:48-112 | any run played on the objects leaves every session's pump, the session map and the callback sequence as the model says, with the model's answers of write_to |

## Left out

- `src/ipc/mq/message_queue.cpp`, `src/ipc/shm/shared_memory.cpp`: forwarding to the queue or to Boost shared memory.
- Creating, opening and removing the shared segment, permissions, offset pointers and real clocks; a timed wait is a wake or a timeout at any moment, and the redirection of an infinite deadline to the blocking calls adds nothing.
- Spurious differences between condition variable implementations, such as fairness: the model wakes any sleeper.
- Equivalence.RunBoth: compares the builds on non-blocking calls of one caller; blocking, timed and concurrent calls are compared by ConcreteMonitor.PlayBoth.
- LinearIndex.LinearQueue.SendEnter: the linear build keeps no counters; the ghost ones only count the callers inside the wait.
- CircularIndex.CircularQueue.constructor: slots are numbered instead of addressed; their addresses are in Layout.
- CircularIndex.WrappedSearch: stated under the guards its caller establishes; without them the sanity check fails by design.
- TcpServer.Server.Close: takes the order in which the hash map is walked as a parameter, any order of its ids.
- TcpServer.Server.HandleAccept: takes the new session's address as a number that is not registered, which is what distinct addresses give.
- Reading: packet contents and the read loop; a read completes without changing anything modelled, or fails.
- Shutting down sockets and the one millisecond pause in `Server::close`: their effect is a later failed read or write.
- Data races between application threads and the io thread in `Server` and `Session`: their steps are serialised.
- `src/net/serial/serial.cpp`, whose write pump repeats the client's; `src/ipc/sync/named_event.cpp`, which keeps no flag; `src/net/udp/udp.cpp`; serial parameters, `Remote`, chunk concatenation and random strings.
