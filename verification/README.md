# Skyloft: verified models of its run queues, protocols and data paths

This project models the hard core of Skyloft, a user-space scheduling framework, in Dafny and proves what
its data structures and protocols promise.

- **EEVDF run queue.** `RbShape`, `RbRotate`, `RbMoves`, `RbInsert`, `RbAdd`, `RbEraseColour`, `RbSplice`,
  `RbErase` and `RbTree` are the augmented red-black tree, pointer store by pointer store; `EevdfSums`,
  `EevdfPick`, `Eevdf` and `EevdfRq` are the weighted averages, the pruned search and the policy's entry points.
- **CFS slice arithmetic.** `CalcDelta`.
- **RCU grace periods.** `Rcu`, a step system of CPUs, read sections, updaters and the worker.
- **LRPC channel.** `Lrpc`, every load and store a step.
- **TCP data path.** `TcpSeq` (sequence numbers), `TcpRx` (reassembly and reading), `TcpTx` (segmenter,
  retransmit queue, acknowledgements).
- **Timers.** `TimerHeap` (the 4-ary heap with back-pointers), `Timer` (start, cancel, merge, softirq).
- **Allocators.** `Tcache` (magazines), `Slab` (pages of one node).
- **Internet checksum.** `Cksum`.
- **FIFO policy with stealing.** `Fifo`, every load and store of a put and a steal a step.
- `Words` and `Seqs` hold machine-word arithmetic and lists without repetition.

Verify everything with `dafny verify dfyconfig.toml`.

## How the model reads the code

- Tree memory is a map from addresses to task records, updated one store at a time and handed from method to
  method; aliasing and the order of stores are therefore visible. Ghost trees and zippers say what the memory
  represents. The mirrored left and right arms of the tree code are one arm with a side parameter. In the erasure of a
  node with two children all link stores come first, while the source runs `augment->copy` and the inner `propagate`
  between them; those callbacks load no link or colour that the later stores write, so the final memory is the same.
  The outer nephew is repainted before the rotation instead of after it.
- Virtual times, deadlines and clock readings are unbounded integers. The divisor of `div_s64` is taken to fit 32
  bits. `avg_vruntime` and `avg_load` start at zero, which the program leaves to a zero-filled mapping.
- `on_rq` is stored just before the tree insertion instead of just after it. `dequeue_task` is modelled where it is
  called, for the current task. `EevdfRq.RunQueue.PickNext` shows that the queue survives a pick exactly when no task is
  current, as at every call site.
- `eevdf_sched_spawn` is two calls, `Fork` and `Put`, between which other calls may come. `Fork` runs without the
  queue's lock in the source; it is assumed not to race with another CPU inside a locked section, and
  `EevdfSums.UnlockedUpdate` shows what such a race would do to the weighted sum. The half slice that `Fork` gives is
  overwritten by the full one of `Put`; `EevdfRq.RunQueue.Spawn` says so.
- RCU read sections open only in tasks (odd counter) and never span a context switch; `Rcu.SwitchInsideSection`
  shows that the second assumption is needed. Counters are 32-bit and wrap; safety does not depend on the contrary.
- `lrpc_init` does not clear the table; the model starts from a zeroed one.
- A TCP segment is a slice of one byte stream, less than half the number space (minus a window and a segment) away
  from `rcv_nxt`, and carries no FIN. The documentation of `tcp_read` reserves the result 0 for a closed connection; the
  code also returns it on an open one when only empty buffers are queued. An empty buffer is queued exactly when the
  window fills up, one segment reaches its edge and a later one goes beyond it (`TcpRx.Conn.Receive`);
  `TcpRx.ZeroRead` is a run from a new connection to a read that returns 0.
- The test that keeps the last transmit buffer for later subtracts a header length in unsigned arithmetic:
  `TcpTx.KeptIff` states what it decides.
- `timer_softirq` leaves `armed` set, so cancelling a timer that has fired removes another one, or reads a slot outside
  the heap if none is left: `Timer.Kthread.CancelFired`. `Timer.Kthread.Cancel` states for every entry which slot goes,
  and that it is the entry's own exactly when the entry is in the heap.
- `__calc_delta` on weights of more than 32 bits can shift by a negative count; `CalcDelta.CalcDelta` states exactly when
  its result is defined. The ACK step can accept a number of bytes never sent when its snapshot of `snd_nxt` is behind
  `snd_una`, or when nothing is in flight and the number is half the space away; `TcpTx.Conn.RxAck` reports it.
- Where the code would access memory outside its structures, the model reports that and stops: `outside`, `Wild`, `wild`
  and `defined` in the contracts.
- The clock, the page and buffer suppliers, random choices and lock contention are parameters. A locked section is
  one step, except in `Fifo`, where putting is not locked.

## Model

| member | source | states |
|---|---|---|
| `RbMoves.Rotate` | utils/rbtree.c:163-179 | a single rotation with its parent and colour updates and `augment_rotate` keeps links, order and every cached minimum |
| `RbMoves.RotateTwice` | utils/rbtree.c:138-179 | the double rotation does the same |
| `RbInsert.InsertColour` | utils/rbtree.c:82-216 | the fix-up loop ends in a tree with black root, no red-red edge and equal black heights, the same in-order sequence and exact cached minima |
| `RbAdd.Propagate` | utils/include/utils/rbtree.h:450-474 | despite the early exit every cached minimum on the path is the minimum of its subtree, and nothing else changes |
| `RbAdd.Descend` | utils/include/utils/rbtree.h:413-437 | the search finds the place behind every task with the same or an earlier deadline, and knows whether it is the first |
| `RbAdd.LinkAt` | utils/include/utils/rbtree.h:88-95 | linking a red leaf and propagating leaves only a possible red parent to fix |
| `RbAdd.AddCached` | utils/include/utils/rbtree.h:413-437 | the tree becomes the linear sorted insertion with equal deadlines after earlier ones, all tree invariants hold, and the leftmost cache is the first in order |
| `RbEraseColour.EraseColour` | utils/rbtree.c:222-395 | a tree one black node short at a hole is made whole, same order, exact minima; the loop terminates |
| `RbSplice.SpliceOut` | utils/include/utils/rbtree.h:570-593 | a node with at most one child is replaced by that child with links and minima right |
| `RbErase.Successor` | utils/include/utils/rbtree.h:595-632 | the walk finds the in-order successor and its parent |
| `RbErase.EraseTwo` | utils/include/utils/rbtree.h:594-661 | the successor takes the node's place and colour, its child moves up, minima are right above both places |
| `RbTree.Erase` | utils/include/utils/rbtree.h:561-669 | erasing any node gives the old order without it and keeps every tree invariant and cached minimum |
| `RbTree.Next` | utils/rbtree.c:469-496 | the next task in order, or NULL at the end |
| `RbTree.EraseCached` | utils/include/utils/rbtree.h:671-678 | with the leftmost cache kept equal to the first in order |
| `EevdfSums.Rebase` | libos/sched/policy/eevdf.c:218-224 | moving the origin by d changes the weighted sum by exactly load times d |
| `EevdfSums.UnlockedUpdate` | libos/sched/policy/eevdf.c:698-704 | an update of the origin that races with an enqueue leaves the sum exact only if the new task sits at the new origin |
| `EevdfSums.LeastEligible` | libos/sched/policy/eevdf.c:303-317 | whoever has the least vruntime is eligible |
| `EevdfSums.EligibleExact` | libos/sched/policy/eevdf.c:303-317 | the test by products holds exactly when the weighted distances of everyone to that vruntime add up to no less than 0, wherever the origin is |
| `EevdfSums.ScaledDown` | libos/sched/policy/eevdf.c:15-21 | the scaled weight is the 1024th part rounded down, at least 2, and 0 only for 0 |
| `EevdfSums.AvgDivFloor` | libos/sched/policy/eevdf.c:230-251 | the sign-adjusted truncating division is the floor of the average |
| `EevdfSums.PlacedLag` | libos/sched/policy/eevdf.c:459-527 | inflating the lag before placement brings the exact lag back, within the rounding of both divisions |
| `EevdfPick.MinDecides` | libos/sched/policy/eevdf.c:364-386 | a subtree's cached minimum is eligible exactly when the subtree holds an eligible task |
| `EevdfPick.ScanBest` | libos/sched/policy/eevdf.c:729-747 | the first eligible task in deadline order is the eligible task with the earliest deadline |
| `EevdfPick.PickTree` | libos/sched/policy/eevdf.c:780-806 | the pruned search returns exactly what the linear scan returns |
| `Eevdf.ClockSums` | libos/sched/policy/eevdf.c:303-317 | cached sums plus the current task's share are the exact sums over everyone on the queue, and a busy queue has load |
| `Eevdf.SomeoneEligible` | libos/sched/policy/eevdf.c:303-317 | some task on a non-empty queue is always eligible |
| `Eevdf.AverageEligible` | libos/sched/policy/eevdf.c:226-251 | the value avg_vruntime returns is itself eligible |
| `Eevdf.AverageExact` | libos/sched/policy/eevdf.c:230-251 | it is the greatest value that is owed service |
| `Eevdf.LagPreserved` | libos/sched/policy/eevdf.c:442-544 | exact lag after placement and enqueue lies strictly between the stored lag minus 1 and plus 2 |
| `Eevdf.ChoiceIsBest` | libos/sched/policy/eevdf.c:748-813 | the choice is eligible and no eligible task, in the tree or current, has an earlier deadline or the same and an earlier place, unless the current task runs to parity |
| `Eevdf.BestEarliest` | libos/sched/policy/eevdf.c:303-317 | the best task by the cached sums is the best by the exact sums |
| `Eevdf.ChoiceEarliest` | libos/sched/policy/eevdf.c:748-813 | by the exact sums: the current task if it is owed service and keeps the deadline it was picked with, otherwise the task owed service with the earliest deadline |
| `Eevdf.AddTask` | libos/sched/policy/eevdf.c:581-587 | tree insertion changes the sums by the task's own share |
| `Eevdf.RemoveTask` | libos/sched/policy/eevdf.c:566-570 | tree removal likewise |
| `EevdfRq.RunQueue.InitTask` | libos/sched/policy/eevdf.c:660-671 | a fresh task is off the queue with the default weight; nothing else changes |
| `EevdfRq.FairIsVirtual` | libos/sched/policy/eevdf.c:112-118 | virtual time is real time at the default weight, otherwise never above real time times default weight over weight, and below it by no more than the rounding |
| `EevdfRq.Charge` | libos/sched/policy/eevdf.c:391-440 | the arithmetic of update_curr and update_deadline, field by field |
| `EevdfRq.TaskLag` | libos/sched/policy/eevdf.c:269-277 | the stored lag is the exact lag rounded down unless it is at a limit |
| `EevdfRq.LagSign` | libos/sched/policy/eevdf.c:269-277 | so it is not negative exactly when the task is owed service |
| `EevdfRq.RunQueue.UpdateMinVruntime` | libos/sched/policy/eevdf.c:324-360 | min_vruntime becomes the larger of itself and the least vruntime on the queue, and the sums stay exact |
| `EevdfRq.RunQueue.UpdateCurr` | libos/sched/policy/eevdf.c:391-440 | every bit of time is charged once: exec_start is the later of itself and now, sum_exec less exec_start stays, vruntime grows by the virtual time (exactly the time at the default weight); a request not used up is left alone, another is one base slice; min_vruntime follows the least; reschedule exactly when the deadline is reached and others run |
| `EevdfRq.RunQueue.AvgVruntime` | libos/sched/policy/eevdf.c:230-251 | the greatest value owed service by the exact sums, or the origin of an empty queue |
| `EevdfRq.RunQueue.BusyHasLoad` | libos/sched/policy/eevdf.c:517-524 | a queue with a running task has load, so the zero-load warning cannot fire |
| `EevdfRq.RunQueue.PlaceTask` | libos/sched/policy/eevdf.c:442-544 | the exact lag among everyone and the new task is strictly between the stored lag minus 1 and plus 2, or the task is at the origin of an empty queue; the deadline is one base slice of virtual time away, or half; nothing else changes |
| `EevdfRq.RunQueue.EnqueueTask` | libos/sched/policy/eevdf.c:611-635 | the current task is charged and the new one joins with its lag kept by the exact sums (or at the origin of an empty queue) and a full slice; sums, order, counts and minima stay exact |
| `EevdfRq.RunQueue.PickEevdf` | libos/sched/policy/eevdf.c:748-813 | by the exact sums over everyone: the current task when it runs to parity, otherwise the task owed service with the earliest deadline, of equal ones the first in the tree and the current task last; equals the linear-scan choice |
| `EevdfRq.RunQueue.PickNext` | libos/sched/policy/eevdf.c:815-839 | with no current task: NULL exactly when nothing runs, otherwise the task owed service with the earliest deadline leaves the tree with its deadline stashed in vlag; with a current task the queue never survives |
| `EevdfRq.RunQueue.DropCurr` | libos/sched/policy/eevdf.c:643-658 | block and finish: the task is charged and leaves with its exact lag rounded down, or at the limit of twice its slice or a tick; min_vruntime is the later of itself and the least left |
| `EevdfRq.RunQueue.Yield` | libos/sched/policy/eevdf.c:841-858 | the task is charged, its deadline moves by the virtual time of its slice, and it returns to the tree |
| `EevdfRq.RunQueue.Wakeup` | libos/sched/policy/eevdf.c:860-871 | no effect on a queued task, otherwise enqueued with its lag |
| `EevdfRq.RunQueue.Fork` | libos/sched/policy/eevdf.c:698-704 | the current task is charged, the new one placed with half a slice and its lag kept |
| `EevdfRq.RunQueue.Put` | libos/sched/policy/eevdf.c:688-696 | no effect on a queued task, otherwise enqueued with its lag and a full slice |
| `EevdfRq.RunQueue.Spawn` | libos/sched/policy/eevdf.c:715-727 | with nothing in between, the second placement decides: a full slice and preserved lag |
| `EevdfRq.RunQueue.Preempt` | libos/sched/policy/eevdf.c:887-902 | a tick charges the current task and no other, with the same result |
| `EevdfRq.RunQueue.Run` | libos/sched/policy/eevdf.c:643-902 | every sequence of calls, with the two halves of a spawn apart, keeps exact sums, tree invariants, roster and count, with min_vruntime never decreasing; a task that is neither dropped nor yields stays current and over the whole run is charged for no time twice and for none too little |
| `CalcDelta.CalcDelta` | libos/sched/policy/cfs.c:68-91 | defined exactly when the halvings leave some shift, as for all 32-bit weights; then at most delta*weight*inverse/2^32, and never above the exact delta*weight/total for totals up to 2^32; the cached inverse matches its weight |
| `CalcDelta.QuotLowerBound` | libos/sched/policy/cfs.c:68-91 | for 32-bit weights and 64-bit quotients less than one unit, one part in 2^31 and one part in 2^32 per unit of the total are lost |
| `CalcDelta.QuotNotAbove` | libos/sched/policy/cfs.c:68-91 | the result is never above the exact quotient for totals up to 2^32 |
| `CalcDelta.MulShrExact` | utils/include/utils/defs.h:337-350 | the shifted product in pieces is the exact one reduced to 64 bits |
| `CalcDelta.InverseGreatest` | libos/sched/policy/cfs.c:33-48 | the inverse is the greatest whose product with the weight stays within WMULT_CONST or a greater weight |
| `CalcDelta.LargeTotalOvershoots` | libos/sched/policy/cfs.c:33-48 | for every total above 2^32 a quotient is exceeded, so the bound on totals is exact |
| `CalcDelta.SliceLowerBound` | libos/sched/policy/cfs.c:68-91 | how far below the exact quotient the result can be |
| `CalcDelta.ProductFits` | libos/sched/policy/cfs.c:68-91 | a product of weight and inverse below 2^64 leaves enough shift |
| `CalcDelta.PeriodLeast` | libos/sched/policy/cfs.c:172-178 | the period is the least that is not below the latency and gives every task the minimum granularity |
| `CalcDelta.SlicesFitPeriod` | libos/sched/policy/cfs.c:172-202 | shares that are each within proportion add up to at most the period |
| `CalcDelta.OverloadedSlice` | libos/sched/policy/cfs.c:172-202 | above a load of 2^32 slices can exceed the period: a task of weight 2^33 alone gets twice as much |
| `CalcDelta.CfsRq.Enqueue` | libos/sched/policy/cfs.c:260-264 | the load is the sum of the weights and its inverse is dropped |
| `CalcDelta.CfsRq.Dequeue` | libos/sched/policy/cfs.c:291-295 | the same on the way out |
| `CalcDelta.CfsRq.SchedSlice` | libos/sched/policy/cfs.c:186-202 | a slice in proportion for every weight and load for which it is defined, also for a task not yet queued |
| `CalcDelta.CfsRq.AllSlices` | libos/sched/policy/cfs.c:172-202 | the slices of all runnable tasks sum to at most period*load*inverse/2^32, and to at most the scheduling period for loads up to 2^32 |
| `Rcu.StepKeeps` | libos/sync/rcu.c:42-115 | every step of CPUs, readers, updaters and worker keeps the grace-period invariant |
| `Rcu.WorkKeeps` | libos/sync/rcu.c:42-91 | in particular every step of the worker |
| `Rcu.BumpKeeps` | libos/sched/sched.c:82-84 | in particular every counter bump of the scheduler, which shows also where the counter wraps, and leaves it odd in a task and even in the scheduler |
| `Rcu.NoReaderHoldsFreed` | libos/sync/rcu.c:42-115 | over every run no section holds an object whose callback ran, and no callback runs twice |
| `Rcu.CallbackAfterGrace` | libos/sync/rcu.c:62-88 | a callback runs only when every section open at the snapshot has ended and nobody holds the object |
| `Rcu.StepAccounts` | libos/sync/rcu.c:42-115 | no step loses an object: those waiting and those whose callback ran are the same as before and what the step hands over |
| `Rcu.AllAccounted` | libos/sync/rcu.c:42-115 | over every run they are exactly the objects handed to rcu_free |
| `Rcu.ReleasedIff` | libos/sync/rcu.c:66-80 | one pass over the counters releases the batch exactly when no CPU still shows an odd, unchanged counter |
| `Rcu.Drains` | libos/sync/rcu.c:82-89 | once released every callback of the batch runs, in the order of the list, and the worker is idle again |
| `Rcu.QuietRound` | libos/sync/rcu.c:42-91 | with no task running anywhere one round of the worker runs the callback of every object that waits |
| `Rcu.SwitchInsideSection` | libos/sched/sched.c:175-177 | a switch inside a read section would let a held object be freed |
| `Lrpc.StepKeeps` | utils/include/utils/lrpc.h:60-105 | every load or store of either side keeps the channel invariant |
| `Lrpc.SlotOf` | utils/include/utils/lrpc.h:74-76 | the masked, wrapped 32-bit counter selects the slot and the parity of the unbounded count |
| `Lrpc.StepRefines` | utils/include/utils/lrpc.h:60-105 | every step is a step of a bounded FIFO: the last store of a send puts the message in hand in at the back, the read of a receive takes the front out, all others change nothing |
| `Lrpc.SenderHolds` | utils/include/utils/lrpc.h:60-80 | a send holds the message it was given, unchanged, until it is published or refused |
| `Lrpc.CallsFinish` | utils/include/utils/lrpc.h:60-105 | a send that finds room and a receive that finds a message complete in their remaining steps |
| `Lrpc.RefusedIff` | utils/include/utils/lrpc.h:67-97 | send fails exactly when unreturned messages fill the table, receive exactly when all are delivered |
| `Lrpc.ChannelSafe` | utils/include/utils/lrpc.h:60-105 | over every interleaving the messages accepted and the one in hand are exactly those given to lrpc_send and not refused, in order (all of them if none is refused); delivered messages are a prefix; cached head, written-back head, head and tail follow one another across wrap |
| `TcpSeq.WrapsCompare` | utils/include/utils/defs.h:161-199 | within half the number space the signed comparisons are those of the positions |
| `TcpSeq.AcceptableIffRfc` | libos/net/tcp_in.c:25-41 | the test equals the four cases of section 3.3 of RFC 793 for all segments exactly when the window is at most 2^31 |
| `TcpRx.AcceptableText` | libos/net/tcp_in.c:67-69 | acceptability implies what the assertions of tcp_rx_append_text demand |
| `TcpRx.Clip` | libos/net/tcp_in.c:71-84 | the clipped text starts at rcv_nxt and ends at the segment's end or the window's edge |
| `TcpRx.PlaceOoo` | libos/net/tcp_in.c:111-129 | the place that keeps the queue sorted; refused exactly when a queued segment covers it or it belongs at the end of a queue that is too long |
| `TcpRx.AppendText` | libos/net/tcp_in.c:61-93 | the queue grows by exactly the next bytes of the stream, numbered right, the right edge of the window stays; the new buffer is empty exactly when the window was full; rcv_wnd_full is set exactly when the window is now 0 |
| `TcpRx.Drain` | libos/net/tcp_in.c:131-154 | afterwards every out-of-order segment starts beyond rcv_nxt, exactly the bytes held before are held, and rcv_nxt is where the contiguous segments end |
| `TcpRx.OpenDrain` | libos/net/tcp_in.c:131-154 | draining queues an empty buffer exactly when the window fills, one segment reaches the edge and a later one goes beyond it |
| `TcpRx.FullIff` | libos/net/tcp_in.c:96-160 | the window is full afterwards exactly when every byte inside it had been received or is in the segment |
| `TcpRx.Conn.RxText` | libos/net/tcp_in.c:96-160 | exactly the bytes of the segment are gained; used exactly when in order or not refused; when a new buffer is empty; when rcv_wnd_full is set; when a reader is woken |
| `TcpRx.Conn.Receive` | libos/net/tcp_in.c:262-374 | exactly which segments are used, that an acceptable one in order always is and advances rcv_nxt, that rcv_nxt is the first byte not received, when an empty buffer is queued, and that a reader is woken exactly by a segment in order that is pushed or fills the window; any other segment changes nothing |
| `TcpRx.Conn.ReadWait` | libos/net/tcp.c:584-634 | hands over exactly the next bytes of the stream in no more buffers than needed, the right edge moves forward by as many; 0 exactly for a zero length or empty buffers; an ACK is sent exactly when the window has been 0 since the last such one and is now a quarter open |
| `TcpRx.Conn.ReadFinish` | libos/net/tcp.c:636-698 | the claimed bytes are copied and leave the queue, and the rest of the buffer is numbered right |
| `TcpRx.ZeroRead` | libos/net/tcp.c:650-669 | an input on which reading an open connection returns 0 |
| `TcpTx.KeptIff` | libos/net/tcp_out.c:247-251 | a buffer is kept for later exactly when it holds at least a header's length |
| `TcpTx.Segment` | libos/net/tcp_out.c:207-274 | queue and pending buffer grow by exactly the returned prefix, in contiguous segments ending at snd_nxt, all of MSS bytes but the one with the end; the end is pushed, or kept for later exactly when it holds a header length; everything is taken unless buffers run out |
| `TcpTx.Acknowledge` | libos/net/tcp.c:124-145 | only fully acknowledged buffers leave, and all of them do |
| `TcpTx.AckAcceptedIff` | libos/net/tcp_in.c:321-325 | which numbers are accepted, for every pair of snd_una and snapshot of snd_nxt |
| `TcpTx.NewerIff` | libos/net/tcp_in.c:331-332 | newer means later by sequence number, or the same and not earlier by acknowledgement number |
| `TcpTx.Conn.WriteWait` | libos/net/tcp.c:783-806 | the writer gets exactly what is left of the window |
| `TcpTx.Conn.TxSend` | libos/net/tcp_out.c:207-274 | the bytes accepted grow by what is returned and stay within the window granted, in full segments but for the end |
| `TcpTx.Conn.ConnAck` | libos/net/tcp.c:124-145 | the queue keeps covering snd_una to snd_nxt; nothing leaves while a writer is active |
| `TcpTx.Conn.WriteFinish` | libos/net/tcp.c:808-820 | the end of a write catches up on acknowledgements: every buffer acknowledged meanwhile leaves |
| `TcpTx.Conn.RxAck` | libos/net/tcp_in.c:320-343 | snd_una moves exactly to the accepted numbers and coverage is kept, unless bytes never sent are acknowledged, which needs a snapshot behind snd_una or a number half the space away; the window becomes the one in the segment, less 2, exactly when the segment is newer than the last that set it; writers are woken exactly when the window was full and no longer is |
| `TimerHeap.SiftUp` | libos/sync/timer.c:55-70 | the same slots rearranged, back-pointers right, and either heap order or the slot may only need to sink |
| `TimerHeap.SiftDown` | libos/sync/timer.c:72-97 | heap order from the slot down, same slots, back-pointers right |
| `TimerHeap.IsValidHeap` | libos/sync/timer.c:30-43 | what the checker checks |
| `TimerHeap.CheckerMissesFirstChild` | libos/sync/timer.c:30-43 | it is right exactly when index 1 is in order, and accepts a heap where it is not |
| `Timer.Heapify` | libos/sync/timer.c:129-134 | bottom-up sifting of any array gives heap order |
| `Timer.Kthread.Start` | libos/sync/timer.c:158-180 | the heap gains exactly this timer; order and back-pointers kept |
| `Timer.TouchedIff` | libos/sync/timer.c:226-236 | the slots touched for an armed entry lie in the heap exactly when it is not empty |
| `Timer.Kthread.Cancel` | libos/sync/timer.c:206-241 | the slot the entry points to is removed; it is the entry's own exactly when the entry is in the heap; with an empty heap slot 2^32-1 is read |
| `Timer.Kthread.Pop` | libos/sync/timer.c:311-319 | fires exactly when something is due, and then the least deadline |
| `Timer.Kthread.Softirq` | libos/sync/timer.c:302-330 | at most budget timers, each due, in order of deadline, none due left unless the budget is spent |
| `Timer.Kthread.SoftirqWith` | libos/sync/timer.c:302-330 | with handlers that start and cancel timers: each that fires is due and the least then present, none is lost but by a cancellation, and it stops only at the budget or when nothing is due |
| `Timer.Kthread.Merge` | libos/sync/timer.c:103-138 | the union of both heaps, in order, with back-pointers moved; no other entry changes |
| `Timer.Kthread.CancelFired` | libos/sync/timer.c:312-323 | cancelling a fired timer reports success and drops another timer if one is left, and otherwise reads outside the heap |
| `Tcache.Cache.Alloc` | include/skyloft/mm/tcache.h:70-81 | an item nobody holds: the top of the stack of the CPU, else of a shared magazine, else of a new one; NULL exactly when all are dry and the supplier fails; no other CPU changes |
| `Tcache.Cache.Reload` | libos/mm/tcache.c:73-111 | a full magazine is loaded, from the previous slot, the shared list or the supplier in that order; the asserts of the slow path hold |
| `Tcache.Cache.LoadNew` | libos/mm/tcache.c:31-53 | a new magazine adds exactly mag_size items to those in existence |
| `Tcache.Cache.Free` | include/skyloft/mm/tcache.h:87-97 | the item leaves the hands of its user and is on top of the stack of the CPU; the oldest magazine becomes shared exactly when two are full |
| `Tcache.Cache.FreeThenAlloc` | include/skyloft/mm/tcache.h:70-97 | an item freed is the next one given out, without asking the supplier |
| `Tcache.Cache.Unload` | libos/mm/tcache.c:114-143 | only exactly full magazines become previous or shared |
| `Tcache.Cache.Reclaim` | libos/mm/tcache.c:203-217 | every magazine returned is exactly full, and the count drops by as many |
| `Slab.PageCount` | libos/mm/slab.c:280-308 | free, outstanding and uncarved slots add up, so a page counts all free exactly when nothing of it is out |
| `Slab.Node.GetPage` | libos/mm/slab.c:257-278 | the first partial page, or else a fresh one; nothing outstanding changes |
| `Slab.Node.Alloc` | libos/mm/slab.c:280-308 | an item that was not out, and exactly that one is out now, of the current page while it has one, else the first partial page, else a fresh one; none exactly when there is no page to be had; pages stay partitioned into current, full and partial |
| `Slab.Node.Free` | libos/mm/slab.c:331-365 | exactly that item is back, first on the free list of its page; a page is released exactly when its last item came back and it is not current (pages of exactly four items are kept); no other page changes |
| `Slab.Node.AllocBatch` | libos/mm/slab.c:379-400 | a batch of distinct items that were not out, or nothing changes |
| `Cksum.RawCksum` | include/net/cksum.h:34-94 | the one's complement sum exactly when the 32-bit sum keeps its value, as for every buffer of up to 131074 bytes |
| `Cksum.RawRightIff` | include/net/cksum.h:34-77 | for every buffer: right exactly when the sum has not wrapped, or a multiple of 65535 times and not to 0 |
| `Cksum.RawLengthExact` | include/net/cksum.h:34-94 | 131074 bytes is the exact bound: at every greater length some buffer gets a wrong value |
| `Cksum.SumChunks` | utils/include/utils/cksum.h:23-34 | the carry chain keeps the one's complement value and the last carry never overflows |
| `Cksum.CksumInternet` | utils/include/utils/cksum.h:19-75 | the complement of the one's complement word sum, for every buffer |
| `Cksum.FormsAgree` | utils/include/utils/cksum.h:19-75 | both forms agree up to complement |
| `Cksum.FilledChecksZero` | utils/include/utils/cksum.h:8-18 | a zeroed aligned field filled with the checksum makes the checksum 0, and no other value does up to the two zeros |
| `Fifo.StepKeeps` | libos/sched/policy/fifo.c:33-146 | every step of owners and thieves keeps rings, locks and the tasks accounted for |
| `Fifo.StepRefines` | libos/sched/policy/fifo.c:33-146 | every step is, for every CPU's ring, nothing, a put at the back, a pick at the front, a cut of the front part or the arrival of loot |
| `Fifo.IndexSlot` | include/skyloft/sched/policy/fifo.h:26-28 | the masked, wrapped index selects the slot of the unbounded count |
| `Fifo.TasksConserved` | libos/sched/policy/fifo.c:33-146 | over every interleaving tasks handed over are picked or in exactly one place, and tail minus head stays within the ring across wrap |
| `Fifo.PickTakesFront` | include/skyloft/sched/policy/fifo.h:31-43 | the locked pick takes the front of the ring, and nothing from an empty one |
| `Fifo.StealTakesHalf` | libos/sched/policy/fifo.c:80-85 | a steal takes half of the ring, rounded up |
| `Fifo.StealSplits` | libos/sched/policy/fifo.c:86-93 | thief and victim end with the victim's old ring split in order |
| `Fifo.OverflowInOrder` | libos/sched/policy/fifo.c:42-47 | overflow lists are queues: a put that found the ring full appends, a thief that finds it empty takes the front, no other step changes one; so no CPU takes from its own |
| `Fifo.PutGoesTo` | libos/sched/policy/fifo.c:33-52 | a put goes to the overflow list exactly when the ring is full, otherwise to the back of the ring |
| `Fifo.StealGoesTo` | libos/sched/policy/fifo.c:71-115 | a thief takes half of a ring that is not empty, of an empty one the first overflow task, and only without those what the softirq handlers make |
| `Fifo.StealEnds` | libos/sched/policy/fifo.c:79-93 | a steal ends with both locks free and the front of the old ring as the ring of the thief |
| `Fifo.LocksHeldByThieves` | libos/sched/policy/fifo.c:76-115 | over every interleaving a lock is held only by a thief copying from or into that queue |

## Left out

- DPDK and I/O threads, platform calls, the kernel module, user interrupts and context-switch assembly: foreign calls and hardware.
- Applications, benchmarks and scripts.
- TCP connection set-up and teardown, FIN accounting, retransmission timers and copies, `tcp_readv` and `tcp_writev`.
- The preemptive single-queue policies and the round-robin ring, message queues and generic queues.
- Size classes, page allocation and the slab bootstrap: page allocation is an abstract supplier of fresh pages.
- The preallocated memory pool: a stack in an array, easy beside the slab.
- `synchronize_rcu`, which hands a wake-up to `rcu_free`.
- ARP, UDP, ICMP, mutexes, condition variables, barriers and futexes.
- Logging, statistics counters, `last_run`, `prev_sum_exec_runtime` and the EEVDF queue's total load, which no modelled decision reads.
- Several EEVDF queues at once: one queue is modelled; its lock makes each entry point one step, a spawn two.
- Weak memory: acquire and release operations are sequential steps.
- EevdfRq.RunQueue.Run: virtual times are unbounded, so a run that spans more than half of the 64-bit number space is not modelled, nor is a race of `Fork`, which is not locked, with another CPU.
- TcpRx.Conn.Receive: no FIN, and no segment from more than about half the number space away.
- TcpTx.Conn.RxAck: a snapshot of `snd_nxt` half the number space old or older is not modelled, nor what happens after an acknowledgement of bytes never sent.
- Timer.Kthread.Cancel: what happens after a slot outside the heap has been read.
- Tcache.Cache.Alloc: linked lists of items are sequences, so the link words inside free items are not modelled.
- Slab.Node.Alloc: free lists are sequences of slots, and `nr_pages`, a statistic, is not kept.
