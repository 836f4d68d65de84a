# Three ring protocols, modelled and proved in Dafny

This project models the three ring protocols of the repository and proves what they guarantee in
every interleaving, with their fixed-size counters:

* the **single-producer / single-consumer ring** of `spsc_ring.c`, with cached peer counters, stale
  loads, batches and 64-bit wraparound (`SpscRing`, `SpscBuffer`, `SpscMachine`);
* the **multi-producer / single-consumer queue** of `mpmc_queue.hpp`, with any number of producers
  claiming tickets by a weak compare-and-swap (`MpscMachine`, `MpscProperties`, `MpscCalls`,
  `MpscLimits`, `MpscQueue`);
* the **DMA engine**: the driver of `nic.c` and the device of `vm/dma_engine.c`, sharing a submission
  ring, a completion ring, registers, an interrupt and data buffers (`DmaTransfer`, `DmaRings`,
  `DmaProperties`, `DmaCalls`, `DmaLimits`, `DmaProgress`, `DmaEngine`, `DmaInterrupt`, `DmaSystem`).

`Words` holds the arithmetic of unsigned words, masks and powers of two; `Runs` what holds of the runs of
any step machine.

## How it is built

Each protocol is a step machine: one event is one access to something another thread can see (or one
element copied), a run is any list of events, and an event its thread is not ready for leaves the
state alone. The step functions take the word size as a parameter `w`: `w == 0` means counters that
never wrap, 2^64 or 2^32 the counters of the code. Invariants are proved for `w == 0`; a commuting
square (`Step(W, Wrap(s), e) == Wrap(Step(0, s, e))`) carries them to the real counters, and the
theorems are stated about runs with those. In the multi-producer queue, where 64-bit counters can
behave differently, `full` and the compare-and-swap look at 64-bit registers for `w == 0` too.

Beside each machine stands the code itself, as classes that update arrays and fields in place. Every
ring call (push, pop, submit, the processing loop, drain) is proved against a function on the struct's
value, and an uninterrupted run of the machine is proved to be that same function, so the code is one of
the schedules the theorems speak about. The register accesses and the interrupt handler state their effect
directly.

Logs kept in the machine states (what was pushed, claimed, submitted, completed, popped, drained) are
there to state the properties; no step reads them.

Loads and stores are interleaved steps; a release store is taken to publish everything before it to
the acquire load that reads it. For the single-producer ring the acquire loads may also be stale: they
return any value between the last one that side saw and the current one.

Automatic induction is switched off on every lemma, so each induction is written out.

## What the proofs found

* **The completion ring is not protected by the device.** The loop's full-ring guard compares
  `cq_tail` with `sq_head`, which are equal whenever it is evaluated (`GuardNeverStops`). Drains return
  the right completions for clients whose submissions are accepted only while
  `sq_tail - cq_head < cq_depth` (`Delivery`; one refused with -EAGAIN does no harm), and one accepted
  beyond that and completed before the next drain makes them wrong (`SubmissionNeedsRoom`); `OverrunLosesCompletions` is the run
  that loses completions and returns others twice. The device's own work is right for every client.
* **A push can fail on an empty queue** in `mpmc_queue.hpp`: a stale local `head` behind `tail` makes the
  unsigned difference huge (`EmptyQueueRefusesPush`); with one producer it cannot happen
  (`SoleProducerFailedPush`).
* **A push can succeed on a full queue** in `mpmc_queue.hpp`, even if the capacity divides 2^64: when 2^64
  tickets, or a multiple, are claimed between its load of `tail` and its swap, `head` looks unchanged, and
  a value nobody has popped is overwritten (`LateSwapOverclaims`). The claims stay within the capacity if
  and only if no swap comes so late (`WithinCapacityIffTimely`), and 2^64 is the exact bound on how far a
  push may be overtaken (`WithinCapacityIffBelowWord`).
* **`idx % capacity`** in `mpmc_queue.hpp` keeps threads on different cells across wraparound if and only if
  the capacity divides 2^64 (`ExclusiveIffDivides`, with the run in `ProducersShareCell`); the capacity is
  not checked.
* **`spsc_ring_size` from a third thread** never exceeds the capacity but can wrap below zero
  (`SizeSnapshot`, `SizeCanWrap`).
* **`spsc_ring_create`** is sketched to reject an overflowing `capacity * elem_size` (line 13) and does
  not; `AllocationHoldsEverySlot` and `Create` say when the allocation is big enough.
* The design in `02-mpmc-ring-buffer-cpp/README.md` (per-slot sequence numbers) is not what the header
  implements; the model follows the header.

## Model

| member | source | states |
|---|---|---|
| `Words.MaskIsMod` | 01-spsc-ring-buffer-c/spsc_ring.c:104-106 | masking a counter with `2^k - 1`, bit by bit as C's `&`, is its remainder modulo `2^k` |
| `Words.MaskTestIsPow2` | 01-spsc-ring-buffer-c/spsc_ring.c:77-78 | for non-zero capacities the test `capacity & (capacity - 1)` is zero exactly for the powers of two |
| `SpscRing.CallWraps` | 01-spsc-ring-buffer-c/spsc_ring.c:112-183 | every call on counters reduced modulo 2^64 returns the same and leaves the reduced struct of the same call on unbounded counters |
| `SpscRing.PushBatchIsEach` | 01-spsc-ring-buffer-c/spsc_ring.c:112-153 | `push_n` leaves the whole struct, caches included, and returns the count, exactly as pushing one by one until the first failure |
| `SpscRing.PopBatchIsEach` | 01-spsc-ring-buffer-c/spsc_ring.c:123-175 | the same for `pop_n` against repeated `pop` |
| `SpscRing.CallIsFifo` | 01-spsc-ring-buffer-c/spsc_ring.c:112-183 | one call, wrapped counters and stale caches and all, is that call on a queue of at most `capacity` elements: same reply, same contents afterwards |
| `SpscRing.RunIsFifo` | 01-spsc-ring-buffer-c/spsc_ring.c:112-183 | no sequence of calls can tell the ring from a bounded FIFO without buffer, counters or caches |
| `SpscBuffer.Create` | 01-spsc-ring-buffer-c/spsc_ring.c:74-102 | null exactly when the capacity is not a power of two, the element size is zero or memory has run out; otherwise a ring that is valid, and empty, exactly when `capacity * elem_size` did not overflow |
| `SpscBuffer.AllocationHoldsEverySlot` | 01-spsc-ring-buffer-c/spsc_ring.c:89-106 | every slot lies inside the `capacity * elem_size` bytes asked for exactly when that product does not overflow 64 bits |
| `SpscBuffer.RingBuffer.Push` | 01-spsc-ring-buffer-c/spsc_ring.c:112-122 | returns 0 exactly when not full; appends the element, or leaves the contents alone |
| `SpscBuffer.RingBuffer.Pop` | 01-spsc-ring-buffer-c/spsc_ring.c:123-132 | returns 0 exactly when not empty; removes the oldest element, or leaves contents and out-buffer alone |
| `SpscBuffer.RingBuffer.PushN` | 01-spsc-ring-buffer-c/spsc_ring.c:133-153 | appends the first `min(n, capacity - size)` elements and returns how many |
| `SpscBuffer.RingBuffer.CopyIn` | 01-spsc-ring-buffer-c/spsc_ring.c:143-150 | the one or two copies stay in bounds and change exactly the slots `(head + i) mod capacity` |
| `SpscBuffer.RingBuffer.PopN` | 01-spsc-ring-buffer-c/spsc_ring.c:155-175 | moves the oldest `min(n, size)` elements to the front of the output in order and leaves the rest of it alone |
| `SpscBuffer.RingBuffer.CopyOut` | 01-spsc-ring-buffer-c/spsc_ring.c:165-172 | the one or two copies read exactly the slots `(tail + i) mod capacity` |
| `SpscBuffer.RingBuffer.Query` | 01-spsc-ring-buffer-c/spsc_ring.c:177-188 | between calls size is the number of elements, empty and full are told apart without a wasted slot |
| `SpscMachine.StepInv` | 01-spsc-ring-buffer-c/spsc_ring.c:112-175 | every step of either thread, with stale loads, keeps `cached_tail <= tail <= cached_head <= head <= cached_tail + capacity`, live slots unchanged and half-done copies in free slots |
| `SpscMachine.WrapRun` | 01-spsc-ring-buffer-c/spsc_ring.c:112-175 | a concurrent run of any length with 64-bit counters is the run with unbounded counters, reduced |
| `SpscMachine.Delivery` | 01-spsc-ring-buffer-c/spsc_ring.c:112-175 | in every interleaving the popped elements are a prefix of the pushed ones, and the ring holds exactly the rest, in order |
| `SpscMachine.ShortTransfers` | 01-spsc-ring-buffer-c/spsc_ring.c:115-162 | where the peer counter is reloaded the transfer is cut to exactly the room, or the elements, at the moment the load read, and fails exactly when there was none |
| `SpscMachine.SizeSnapshot` | 01-spsc-ring-buffer-c/spsc_ring.c:177-183 | size called by producer or consumer is within `[0, capacity]` in every interleaving; for a third thread the true difference never exceeds the capacity and the result is that difference modulo 2^64 |
| `SpscMachine.SizeCanWrap` | 01-spsc-ring-buffer-c/spsc_ring.c:177-183 | a run in which a third thread gets `2^64 - 1` |
| `SpscMachine.PushesAreRuns` | 01-spsc-ring-buffer-c/spsc_ring.c:112-153 | from any reachable state an uninterrupted `push` or `push_n` is the sequential call |
| `SpscMachine.PopsAreRuns` | 01-spsc-ring-buffer-c/spsc_ring.c:123-175 | the same for `pop` and `pop_n` |
| `MpscMachine.StepInv` | 02-mpmc-ring-buffer-cpp/mpmc_queue.hpp:41-74 | every step of any number of producers and the consumer, other than a swap that comes too late, keeps: claims within one lap, each in-flight ticket held by its claimant with its cell not ready, published cells holding the claimed value until taken, free cells not ready |
| `MpscProperties.WrapRun` | 02-mpmc-ring-buffer-cpp/mpmc_queue.hpp:41-90 | if the capacity divides 2^64, every run with 64-bit counters, late swaps included, is the run whose counters remember how often they wrapped, reduced |
| `MpscProperties.SoundRun` | 02-mpmc-ring-buffer-cpp/mpmc_queue.hpp:41-90 | a run without late swaps, whose capacity divides 2^64 or which has at most 2^64 claims, is that run reduced and keeps the invariant |
| `MpscProperties.FewClaims` | 02-mpmc-ring-buffer-cpp/mpmc_queue.hpp:41-90 | every run with at most 2^64 claims, of any capacity, is such a run |
| `MpscProperties.OvertakenInTime` | 02-mpmc-ring-buffer-cpp/mpmc_queue.hpp:44-54 | no swap comes too late, however long the run, if no push is overtaken by 2^64 claims between its load of `head` and its swap |
| `MpscLimits.WithinCapacityIffBelowWord` | 02-mpmc-ring-buffer-cpp/mpmc_queue.hpp:44-54 | for a capacity that divides 2^64, the claims stay within it in all runs in which no push is overtaken by more than `b` claims, if and only if `b < 2^64` |
| `MpscProperties.WithinCapacityIffTimely` | 02-mpmc-ring-buffer-cpp/mpmc_queue.hpp:44-54 | if the capacity divides 2^64, or the run has at most 2^64 claims, the claims stay within the capacity throughout if and only if no swap comes too late |
| `MpscProperties.WordSlotsDistinctIffDivides` | 02-mpmc-ring-buffer-cpp/mpmc_queue.hpp:87-87 | the cells of a lap are distinct for all wrapped tickets exactly when the capacity divides 2^64 |
| `MpscProperties.Delivery` | 02-mpmc-ring-buffer-cpp/mpmc_queue.hpp:41-74 | popped values are the claimed values in claim order, at most `capacity` claims are outstanding, and each producer's values come out in its own push order, each returned to it as pushed |
| `MpscProperties.DeliveryBelowWord` | 02-mpmc-ring-buffer-cpp/mpmc_queue.hpp:41-74 | the same, for a capacity that divides 2^64, of every run in which no push is overtaken by 2^64 claims |
| `MpscProperties.SlotExclusivity` | 02-mpmc-ring-buffer-cpp/mpmc_queue.hpp:55-72 | in-flight producers and a consumer past its ready check are on different cells; a ticket's cell is ready exactly when published and not yet cleared; the cells the next tickets will get are not ready |
| `MpscProperties.FailedPush` | 02-mpmc-ring-buffer-cpp/mpmc_queue.hpp:44-54 | a push gives up exactly when the queue held `capacity` claims and its `head` was current, or the consumer had passed its stale `head` and the unsigned difference looks full, as it does until that head is `2^64 - capacity` behind |
| `MpscProperties.HowPushEnds` | 02-mpmc-ring-buffer-cpp/mpmc_queue.hpp:41-59 | in every interleaving a push leaves its loop only with the next ticket, or at a load of `tail` that finds the queue full or its head passed; a swap that fails brings it back there with the current `head` |
| `MpscProperties.SoleProducerFailedPush` | 02-mpmc-ring-buffer-cpp/mpmc_queue.hpp:44-54 | with one producer a push fails exactly when the queue is full |
| `MpscProperties.FailedPop` | 02-mpmc-ring-buffer-cpp/mpmc_queue.hpp:61-69 | a pop gives up exactly when empty at its `head` load, or the oldest ticket was unpublished at its ready load |
| `MpscProperties.HowPopEnds` | 02-mpmc-ring-buffer-cpp/mpmc_queue.hpp:61-74 | in every interleaving a pop ends only empty at its `head` load, unpublished at its ready load, or with the oldest claimed value |
| `MpscProperties.ProgressBound` | 02-mpmc-ring-buffer-cpp/mpmc_queue.hpp:44-54 | in every run whatsoever a push loses no more swaps than claims were made during the call |
| `MpscProperties.PushLeavesLoop` | 02-mpmc-ring-buffer-cpp/mpmc_queue.hpp:44-54 | a push that has made more swaps, spurious failures apart, than tickets were claimed since it began has left its loop: at most `n + 1` swaps if the others claim `n` |
| `MpscProperties.SizeSnapshot` | 02-mpmc-ring-buffer-cpp/mpmc_queue.hpp:76-80 | with other threads running between the two loads, size is the difference of what was claimed and what was popped, in 64 bits, never above the capacity, and not below zero unless something was popped in between |
| `MpscLimits.LateSwapOverclaims` | 02-mpmc-ring-buffer-cpp/mpmc_queue.hpp:44-58 | for every capacity that divides 2^64, a run in which a push held up for 2^64 claims succeeds on the full queue, overwrites a value nobody has popped, and the consumer gets its value instead |
| `MpscLimits.ProducersShareCell` | 02-mpmc-ring-buffer-cpp/mpmc_queue.hpp:55-87 | for every capacity that does not divide 2^64, a run without late swaps after which two producers write the same cell |
| `MpscLimits.ExclusiveIffDivides` | 02-mpmc-ring-buffer-cpp/mpmc_queue.hpp:55-87 | producers and consumer are kept on different cells in all runs without late swaps if and only if the capacity divides 2^64 |
| `MpscCalls.PushRun` | 02-mpmc-ring-buffer-cpp/mpmc_queue.hpp:41-59 | from any state, at either counter size, an uninterrupted push, however often its swap fails spuriously, is the push as a function of the queue |
| `MpscCalls.PushAloneEnds` | 02-mpmc-ring-buffer-cpp/mpmc_queue.hpp:41-59 | from any state, a push left alone in the middle of its call returns after two more rounds of its loop at most: true with its ticket written, or false because the queue looks full from the current `head` or from the one it had |
| `MpscCalls.PopRun` | 02-mpmc-ring-buffer-cpp/mpmc_queue.hpp:61-74 | the same for an uninterrupted pop |
| `MpscCalls.QuiescentPush` | 02-mpmc-ring-buffer-cpp/mpmc_queue.hpp:41-59 | between calls of any run with 64-bit counters a push returns true and appends exactly when the queue is not full |
| `MpscCalls.QuiescentPop` | 02-mpmc-ring-buffer-cpp/mpmc_queue.hpp:61-74 | between calls of any such run a pop removes the oldest value exactly when the queue is not empty |
| `MpscCalls.EmptyQueueRefusesPush` | 02-mpmc-ring-buffer-cpp/mpmc_queue.hpp:44-54 | a run with two producers in which a push fails although the queue is empty |
| `MpscQueue.BoundedQueue.Push` | 02-mpmc-ring-buffer-cpp/mpmc_queue.hpp:41-59 | true exactly when not full; appends the value; is the machine's run of one push |
| `MpscQueue.BoundedQueue.ClaimAndWrite` | 02-mpmc-ring-buffer-cpp/mpmc_queue.hpp:41-59 | the retry loop and the cell write, against the push as a function of the queue |
| `MpscQueue.BoundedQueue.Pop` | 02-mpmc-ring-buffer-cpp/mpmc_queue.hpp:61-74 | true exactly when not empty; removes and returns the oldest value, or leaves the caller's value alone; is the machine's run of one pop |
| `MpscQueue.BoundedQueue.TakeOldest` | 02-mpmc-ring-buffer-cpp/mpmc_queue.hpp:61-74 | the move out, the cleared flag and the advanced tail, against the pop as a function of the queue |
| `MpscQueue.BoundedQueue.Size` | 02-mpmc-ring-buffer-cpp/mpmc_queue.hpp:76-80 | between calls the number of values, within `[0, capacity]` |
| `DmaTransfer.LastWriter` | 03-userspace-driver-dma-c/vm/dma_engine.c:160-180 | after any submissions byte `i` of the device buffer comes from the most recent TX whose clamped length exceeds `i`, as host memory was then, if that TX succeeded, however the others went |
| `DmaTransfer.NeverWritten` | 03-userspace-driver-dma-c/vm/dma_engine.c:160-180 | a byte no TX reached keeps its first value, also when transfers fail |
| `DmaTransfer.TxThenRx` | 03-userspace-driver-dma-c/vm/dma_engine.c:160-180 | an RX of `m` bytes after a TX of `n` bytes, both successful, with no TX between delivers that TX's first `min(m, n, 4096)` bytes |
| `DmaTransfer.MemoryFrame` | 03-userspace-driver-dma-c/vm/dma_engine.c:173-177 | host memory changes only inside the clamped targets of RX submissions |
| `DmaTransfer.OneTransfer` | 03-userspace-driver-dma-c/vm/dma_engine.c:160-184 | op 1 puts host byte `buf_addr + i` into buffer byte `i` for `i` below `len` and 4096, op 2 the reverse, any other op moves nothing; cookie, status 0, -1 or -22, and byte count of the completion |
| `DmaRings.StepInv` | 03-userspace-driver-dma-c/vm/dma_engine.c:141-194 | every step of submitter, drainer and device, whatever the client does, keeps: pending submissions intact, the last `cq_depth` completions intact, the device's work equal to executing the submissions in order |
| `DmaRings.StepDelivers` | 03-userspace-driver-dma-c/nic.c:115-163 | every step of a disciplined client's run, refused submissions included, keeps undrained completions in the ring and drained ones in order |
| `DmaProperties.Reach` | 03-userspace-driver-dma-c/nic.c:115-163 | a disciplined run of any length with 32-bit counters is the run with unbounded counters, reduced, and keeps both invariants |
| `DmaProperties.DeviceReach` | 03-userspace-driver-dma-c/nic.c:115-135 | for every client, however much it leaves undrained, the submitting and the device side of a run with 32-bit counters are those of a run with unbounded ones, reduced |
| `DmaProperties.Delivery` | 03-userspace-driver-dma-c/nic.c:115-163 | for every client, in every interleaving and across wraparound, the completions are those of the submissions in order, the data is theirs executed one after another, and no pending submission is overwritten; for a disciplined client the drains return a prefix of the completions, the `i`-th with the cookie, status and byte count of submission `i` |
| `DmaProperties.CoalescingUnobservable` | 03-userspace-driver-dma-c/vm/dma_engine.c:141-194 | two runs of any clients with the same submissions and outcomes, everything completed, agree on completions, device buffer and host memory, however doorbells and device runs were split; disciplined ones on drained results too |
| `DmaProperties.AllCompleted` | 03-userspace-driver-dma-c/vm/dma_engine.c:141-194 | once everything is completed, for every client, the completions and the data are those of executing the submissions one after another |
| `DmaProgress.DoorbellCompletesAll` | 03-userspace-driver-dma-c/vm/dma_engine.c:135-200 | after any run of any client, whatever device, submitter and drainer are doing, a doorbell and the device running on until it stops complete everything submitted, in order |
| `DmaProperties.GuardNeverStops` | 03-userspace-driver-dma-c/vm/dma_engine.c:150-153 | in every run the guard is evaluated with `cq_tail == sq_head`, so it stops the loop only if `cq_depth` is 0 |
| `DmaProperties.WrapRun` | 03-userspace-driver-dma-c/nic.c:115-163 | disciplined client or not, 32-bit counters make no difference so long as 2^32 completions are never undrained at once |
| `DmaProperties.UndrainedCompletion` | 03-userspace-driver-dma-c/vm/dma_engine.c:186-192 | in every run and at every step a completion is intact exactly while at most `cq_depth` have been written from it on; after that its slot holds the latest completion of that slot; and `cq_tail - cq_head` counts the undrained ones while there are fewer than 2^32 |
| `DmaCalls.SubmitRun` | 03-userspace-driver-dma-c/nic.c:115-135 | an uninterrupted submit is accepted exactly when the submission ring has room, and writes the tail's slot |
| `DmaCalls.LoopRun` | 03-userspace-driver-dma-c/vm/dma_engine.c:141-194 | the events of the processing loop, one SQE after another, are its iterations one after another |
| `DmaCalls.AfterLoopFacts` | 03-userspace-driver-dma-c/vm/dma_engine.c:141-194 | the rings after those iterations are those of the processing call, and the driver's side is untouched |
| `DmaCalls.DrainRun` | 03-userspace-driver-dma-c/nic.c:141-163 | an uninterrupted drain is the drain call: its entries from `cq_head` on, and `cq_head` advanced by as many |
| `DmaProgress.DrainTakesWhatThereIs` | 03-userspace-driver-dma-c/nic.c:141-163 | after any run that never leaves 2^32 completions undrained, whatever the others are doing, an uninterrupted drain returns as many completions as are undrained, or `max` if that is less; for a disciplined client the next ones |
| `DmaLimits.ExactCondition` | 03-userspace-driver-dma-c/nic.c:115-163 | from any idle state of a disciplined client, one more submission keeps drains right if and only if fewer than `cq_depth` submissions were undrained |
| `DmaLimits.SubmissionNeedsRoom` | 03-userspace-driver-dma-c/nic.c:115-163 | the same for every run with 32-bit counters, the condition read from the client's own counters |
| `DmaLimits.OverrunLosesCompletions` | 03-userspace-driver-dma-c/vm/dma_engine.c:150-192 | rings of two slots, submit all and process twice, then drain: the first two completions are lost, the other two come twice |
| `DmaEngine.Device.Process` | 03-userspace-driver-dma-c/vm/dma_engine.c:135-200 | the loop as a function of the rings; started with its two counters equal it consumes every announced submission; raises one interrupt if and only if it did any work |
| `DmaEngine.Device.ProcessOneSqe` | 03-userspace-driver-dma-c/vm/dma_engine.c:155-192 | one iteration: the masked slots, the transfer, the posted completion and both counters |
| `DmaEngine.Device.Execute` | 03-userspace-driver-dma-c/vm/dma_engine.c:160-184 | the data transfer and the completion of one submission, in place on the device buffer |
| `DmaEngine.Device.RaiseIrq` | 03-userspace-driver-dma-c/vm/dma_engine.c:103-111 | sets the ready bit of the status and sends a message, or puts the line up |
| `DmaEngine.Device.LowerIrq` | 03-userspace-driver-dma-c/vm/dma_engine.c:113-119 | clears the status and, without messages, takes the line down |
| `DmaEngine.Device.MmioRead` | 03-userspace-driver-dma-c/vm/dma_engine.c:204-235 | every readable register by its offset, and zero elsewhere |
| `DmaEngine.Device.MmioWrite` | 03-userspace-driver-dma-c/vm/dma_engine.c:237-273 | every writable register by its offset, halves of the base addresses included, and that a write changes nothing else |
| `DmaEngine.Engine.Submit` | 03-userspace-driver-dma-c/nic.c:115-135 | 0 exactly when `sq_tail - sq_head` is below the depth, with the submission in slot `sq_tail mod sq_depth`; otherwise -EAGAIN and nothing changed |
| `DmaEngine.Engine.Doorbell` | 03-userspace-driver-dma-c/nic.c:137-139 | the device's tail becomes the driver's, and processing is scheduled; it is the machine's doorbell step in every state |
| `DmaEngine.Engine.Drain` | 03-userspace-driver-dma-c/nic.c:141-163 | copies the `min(cq_tail - cq_head, max)` entries from slot `cq_head mod cq_depth` on, in order, leaves the rest of the output alone and advances `cq_head` by the count |
| `DmaEngine.Engine.Irq` | 03-userspace-driver-dma-c/nic.c:26-36 | handled exactly when the status was set; acknowledges it and wakes the waiters once |
| `DmaInterrupt.NoLostWakeup` | 03-userspace-driver-dma-c/nic.c:165-170 | in every interleaving of device, handler, drains and wait loop, edge- or level-triggered, a sleeper with a completion in the ring has a wake still to come |
| `DmaInterrupt.WaitEndsForAReason` | 03-userspace-driver-dma-c/nic.c:165-170 | a wait returns 0 only with a completion in the ring, and fails only by a timeout without one |
| `DmaInterrupt.WaitGoesOn` | 03-userspace-driver-dma-c/nic.c:165-170 | a wait that begins is on the queue; its test ends it if there is a completion, and it goes to sleep if there is none and nobody woke it |
| `DmaInterrupt.QuietWithoutWork` | 03-userspace-driver-dma-c/vm/dma_engine.c:196-199 | as long as the device completes nothing there is no interrupt and no wait returns 0 |
| `DmaInterrupt.HandlerRun` | 03-userspace-driver-dma-c/nic.c:26-36 | an uninterrupted handler clears a set status and wakes who is on the queue, and does nothing otherwise |
| `DmaInterrupt.WaiterIsRescued` | 03-userspace-driver-dma-c/nic.c:26-36 | from any such state the device ending its run and the handler running to its end, and nothing else, wake the sleeper and end its wait |
| `DmaSystem.SameRings` | 03-userspace-driver-dma-c/nic.c:115-170 | with handler and waiter interleaved as well, the rings run exactly as they do alone |
| `DmaSystem.SameInterrupts` | 03-userspace-driver-dma-c/nic.c:26-36 | the interrupt side runs exactly as it does alone, on the signals of the rings and the steps of handler and waiter |
| `DmaSystem.WaitTellsTheTruth` | 03-userspace-driver-dma-c/nic.c:165-170 | in every interleaving a wait that returns 0 has an undrained completion, and one that fails has none |
| `DmaSystem.SleeperGetsItsCompletion` | 03-userspace-driver-dma-c/nic.c:165-170 | for every client that never leaves 2^32 completions undrained, in every interleaving of submitter, device, drains, handler and waiter, across wraparound: the waited-for condition means an undrained completion, and a client asleep on one has a wake to come, which ends its wait; if the client is disciplined, the completion is in the slot the next drain reads |

## Left out

- Ring all-reduce, recursive-doubling all-gather, tree broadcast, reduce-scatter and the DMA transport: their function bodies are empty.
- `InProcTransport`: a mutex around a queue per pair of ranks would only add easy members.
- Designs that exist only in the READMEs: per-slot sequence numbers, multiple engines, fences and chains, peer-to-peer, shutdown draining.
- PCI, QEMU and kernel plumbing: probe, remove, engine creation and destruction, DMA mapping, timers. The rings are arrays shared by driver and device; the base address registers are kept but not used to find them.
- A weak-memory semantics: apart from the stale loads of the single-producer ring, loads return the current value; in particular the relaxed load of `head_` in `mpmc_queue.hpp` is not stale when made, only afterwards.
- Cache-line layout, allocators, destructors, benchmarks and tests.
- Bytes of an element: an element is a value of any type and copying it is one step, so `elem_size` matters only to `Create` and `AllocationHoldsEverySlot`.
- Data buffers that overlap the rings, addresses that wrap past 2^64, and failing DMA accesses to the rings themselves (the device does not check those).
- Host writes to TX buffers while the device runs: host memory changes only by RX transfers.
- Liveness under a scheduler: `WaiterIsRescued`, `PushAloneEnds`, `DoorbellCompletesAll` and `ProgressBound` give schedules and bounds, not fairness arguments.
- SpscBuffer.RingBuffer.PopN: the output must have `n` places, as the C interface asks, although at most the available elements are written.
- MpscQueue.BoundedQueue.Push: requires the capacity to divide 2^64 or fewer than 2^64 claims so far, because beyond that the unchecked `idx % capacity` maps neighbouring tickets to one cell.
- MpscProperties.Delivery: stated for runs in which no swap comes too late, and whose capacity divides 2^64 or which have at most 2^64 claims. For such capacities, and for runs of that length, the first condition is exact (`WithinCapacityIffTimely`); without the second two producers can write one cell (`ProducersShareCell`).
- DmaProperties.Delivery: stated for power-of-two depths (or 0); what it says about drains needs a disciplined client, as `SubmissionNeedsRoom` shows.
- DmaEngine.Device.Process: the outcome of each data transfer is a parameter, one per announced submission.
