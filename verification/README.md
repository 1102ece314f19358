# veloce SPSC channels in Dafny

A sequential model of the bounded single-producer/single-consumer channel
engine of `veloce`:

- the power-of-two ring storage (`src/ring.rs`);
- the stamped slots (`src/spsc/slot.rs`);
- the shared-cursor ("Lamport") channel with its sender, receiver, draining
  iterators and async poll steps (`src/spsc/channel.rs`, `sender.rs`,
  `receiver.rs`, `lamport/receiver.rs`, `mod.rs`);
- the per-slot-stamp ("Vyukov") channel and its drop
  (`src/spsc/vyukov/channel.rs`).

Every producer step and every consumer step is one atomic step of the model.
The ring is an `array` of cells, and the channels are classes whose methods
update their fields in place. Ghost state says what the cursors mean:

- `Contents` is the queue of unread values, oldest first.
- `pending` counts values a live drain has taken but not committed.
- `senderAlive` and `receiverAlive` record which handles are gone.

A non-ghost `destroyed` sequence records every value the channel's own drop
destructs, which is what the source's drop counters observe.

Main results:

- The mask `seq & (N - 1)` is `seq % N` exactly for powers of two.
- The shared-cursor channel keeps every cell of the window `[head, head + N)`
  live exactly when its sequence is unread.
- `try_send` appends and `try_recv` removes the oldest value (FIFO).
- Drains yield the oldest values in order and commit exactly what they took.
  Draining returns the same values and the same final head as calling
  `try_recv` in a loop.
- The shared-cursor drop destructs exactly the unread values, each once.
- For the stamp protocol, the has-data test `stamp & (N - 1) == (i + 1) & (N - 1)`
  is exact for N >= 2. The drop destructs exactly the unread values, each
  once, in slot order: a rotation of the queue, proved to be a permutation.

Modules:

| file | module |
|---|---|
| `wrappers.dfy` | `Wrappers`: Option, Result, Poll |
| `errors.dfy` | `Errors`: TrySendErr, TryRecvError, CapacityError |
| `ring.dfy` | `Ring`: mask arithmetic, `RingBuffer` |
| `slot.dfy` | `Slots`: `Slot`, `SlotRing` |
| `spsc.dfy` | `Spsc`: the shared-cursor channel |
| `spsc_scenarios.dfy` | `SpscScenarios`: the tests of `src/spsc/mod.rs` and drain scenarios |
| `vyukov.dfy` | `Vyukov`: the stamp test, the stamped channel and its drop tests |
| `findings.dfy` | `Findings`: the two defects below |

The model follows the code literally where it departs from the crate's prose:

- Cursors advance with plain `+ 1`, not wrapping arithmetic.
- The drain of `src/spsc/receiver.rs` commits its head unconditionally
  (`Spsc.Drain.Commit`). Only the one of `src/spsc/lamport/receiver.rs` skips
  an empty commit (`Spsc.Drain.CommitHead`).
- "Full" is `tail - head >= N`, as the code tests it.
- The field comments at `src/spsc/channel.rs:20-23` swap the two cursors. The
  model follows the code: the sender advances `tail` and the receiver
  advances `head`.

## Model

| member | source | states |
|---|---|---|
| Ring.PowerOfTwoIsPow2 | src/ring.rs:56 | the `is_power_of_two` test holds exactly for 2^k, both directions |
| Ring.CheckCapacity | src/ring.rs:46-57 | construction succeeds iff N is a power of two (hence positive); a failure is NotPowerOfTwo, the first assert |
| Ring.Index | src/ring.rs:55-62 | `seq & (N - 1)` is below N and equals `seq % N` |
| Ring.MaskIsModulo | src/ring.rs:132-140 | for every power of two N and every sequence, the mask equals the remainder |
| Ring.MaskOfSelfZeroIffPowerOfTwo | src/ring.rs:142-147 | `N & (N - 1) == 0` iff N is a power of two; otherwise the mask disagrees with modulo at sequence N |
| Ring.TestModulo | src/ring.rs:132-148 | mask equals modulo for N = 2 at 3 and 4, and differs from it for N = 5 at 3 and 6 |
| Ring.IndexShift | src/ring.rs:59-62 | sequences N apart map to the same slot |
| Ring.IndexInjective | src/spsc/channel.rs:96-101 | within any window of N consecutive sequences, distinct sequences map to distinct slots |
| Ring.IndexUnshared | src/spsc/sender.rs:41-50 | the slot of one sequence of a window is the slot of no other sequence of that window, so a write there touches no other live value |
| Ring.WindowSeq | src/spsc/channel.rs:94-101 | every slot is the slot of exactly one sequence of the window `[lo, lo + N)` |
| Ring.RingBuffer.Wrap | src/ring.rs:42-51 | the wrapped cells form a valid power-of-two ring |
| Ring.RingBuffer.From | src/ring.rs:46-52 | the capacity error of CheckCapacity, or a valid ring over exactly the given cells |
| Ring.RingBuffer.Default | src/ring.rs:92-97 | a fresh ring of N uninitialised cells, or the capacity error |
| Ring.RingBuffer.Write | src/ring.rs:64-71 | requires an empty cell (no live value clobbered); cell i holds v, every other cell unchanged |
| Ring.RingBuffer.Read | src/ring.rs:73-80 | requires an initialised cell; returns its value and leaves it empty; every other cell unchanged |
| Ring.RingBuffer.DropInPlace | src/ring.rs:82-89 | requires an initialised cell; it becomes empty; every other cell unchanged |
| Ring.TestReadWrite | src/ring.rs:103-116 | a value written at the slot of sequence 0 reads back unchanged |
| Ring.TestPanics | src/ring.rs:118-130 | a ring of 6 cells is refused with NotPowerOfTwo |
| Slots.Slot.New | src/spsc/slot.rs:22-30 | the given stamp and no value |
| Slots.Slot.LoadStamp | src/spsc/slot.rs:32-36 | returns the current stamp |
| Slots.Slot.StoreStamp | src/spsc/slot.rs:38-42 | the stamp becomes s, the value is untouched |
| Slots.Slot.Write | src/spsc/slot.rs:47-55 | requires an empty slot; the value is stored, the stamp untouched |
| Slots.Slot.Read | src/spsc/slot.rs:57-65 | requires a value; moves it out, the stamp untouched |
| Slots.Slot.DropInPlace | src/spsc/slot.rs:67-76 | requires a value; destructs it, the stamp untouched |
| Slots.SlotRing.Wrap | src/spsc/slot.rs:79-84 | N pairwise-distinct slots form a valid ring |
| Slots.SlotRing.Default | src/spsc/slot.rs:79-84 | slot i is fresh with stamp i and no value; refused unless N is a power of two |
| Slots.TestSlotReadWrite | src/spsc/slot.rs:92-105 | write then read of the slot of sequence 0 returns the value |
| Slots.TestSlotPanics | src/spsc/slot.rs:107-118 | a stamped ring of 6 slots is refused |
| Slots.TestInitialStamps | src/spsc/slot.rs:131-139 | the default stamps of N = 4 read 0, 1, 2, 3 |
| Slots.TestStampProtocol | src/spsc/slot.rs:141-161 | stamp 0, write, stamp 1, read 42, stamp N: the writable stamp of the next lap |
| Spsc.Wakers.constructor | src/spsc/channel.rs:115-122 | both wakers empty, nothing woken |
| Spsc.Wakers.WakeSender | src/spsc/channel.rs:125-127 | the sender's stored waker is taken and woken once; the receiver's is untouched |
| Spsc.Wakers.WakeReceiver | src/spsc/channel.rs:129-131 | the receiver's stored waker is taken and woken once; the sender's is untouched |
| Spsc.Wakers.RegisterSender | src/spsc/channel.rs:133-135 | a sender waker is stored (last wins); the receiver's is untouched |
| Spsc.Wakers.RegisterReceiver | src/spsc/channel.rs:137-139 | a receiver waker is stored; the sender's is untouched |
| Spsc.Channel.Init | src/spsc/channel.rs:30-47 | head = tail = 0, open, empty queue, both handles alive, channel invariant holds |
| Spsc.Channel.Default | src/spsc/channel.rs:30-47 | an empty open channel over a fresh ring of N cells, or the ring's capacity error |
| Spsc.Channel.Split | src/spsc/channel.rs:51-56 | a fresh sender and a fresh receiver over this same channel |
| Spsc.Channel.IsClosed | src/spsc/channel.rs:58-61 | true iff a handle has been dropped |
| Spsc.Channel.Drop | src/spsc/channel.rs:88-103 | destructs exactly the unread values, in queue order, each once; afterwards no cell is live; cursors unchanged |
| Spsc.Channel.DropSeq | src/spsc/channel.rs:97-101 | destructing the slot of `head + s` kills that value only; every other window cell unchanged |
| Spsc.Sender.constructor | src/spsc/sender.rs:17-22 | a handle on the given channel |
| Spsc.Sender.TrySend | src/spsc/sender.rs:25-56 | closed: Disconnected(value), nothing changes; full: Full(value), nothing changes; else the value goes to slot `index(tail)` only, tail + 1, queue gains it at the back; invariant kept |
| Spsc.Sender.SendSpin | src/spsc/sender.rs:66-77 | never Full: Ok iff there was room, Disconnected(original value) iff closed; None only when the attempt budget ran out on a full channel |
| Spsc.Sender.Send | src/spsc/sender.rs:90-93 | a fresh future holding the value for this sender |
| Spsc.Sender.IsClosed | src/spsc/sender.rs:100-103 | true iff the receiver has been dropped |
| Spsc.Sender.Drop | src/spsc/sender.rs:106-114 | closed is set, the sender is gone, the receiver's waker is woken; the queue is untouched |
| Spsc.SendFuture.constructor | src/spsc/sender.rs:139-144 | the future holds the value |
| Spsc.SendFuture.Poll | src/spsc/sender.rs:155-191 | success: Ready(Ok), value appended, receiver woken; closed: Ready(Disconnected(value)); full: value put back, sender waker registered, Pending, and with no peer step between attempt and re-check no self-wake |
| Spsc.SendFuture.Attempt | src/spsc/sender.rs:158-176 | the three outcomes of one `try_send` with their new state: receiver woken on success, value handed back when closed, value kept and sender waker registered when full |
| Spsc.SendFuture.Recheck | src/spsc/sender.rs:178-186 | self-wake exactly when the queue (with any values a drain holds) is below N, that is when a slot is free |
| Spsc.Receiver.constructor | src/spsc/receiver.rs:17-22 | a handle on the given channel |
| Spsc.Receiver.TryRecv | src/spsc/receiver.rs:25-46 | empty: Disconnected if closed else Ok(None), nothing changes; otherwise the oldest value, even when closed, head + 1, only the slot of head emptied; invariant kept |
| Spsc.Receiver.RecvSpin | src/spsc/receiver.rs:56-66 | Ok(oldest value) iff the queue was non-empty; Disconnected iff empty and closed; None only when the budget ran out on an empty open channel |
| Spsc.Receiver.Recv | src/spsc/receiver.rs:79-82 | a fresh future on this receiver |
| Spsc.Receiver.IsClosed | src/spsc/receiver.rs:89-92 | true iff the sender has been dropped |
| Spsc.Receiver.IsEmpty | src/spsc/receiver.rs:94-97 | true iff nothing is queued and nothing is held by a live drain (head == tail) |
| Spsc.Receiver.Len | src/spsc/receiver.rs:99-102 | queued values plus uncommitted drained ones (tail - head), at most N |
| Spsc.Receiver.Drain | src/spsc/receiver.rs:104-108 | a drain over the snapshot `[head, tail)`; it will yield exactly the queued values; the queue and both shared cursors are unchanged |
| Spsc.Receiver.DrainUpTo | src/spsc/lamport/receiver.rs:140-156 | a drain that will yield exactly `min(max, tail - head)` values, comparing counts; the queue and both shared cursors are unchanged |
| Spsc.Receiver.Drop | src/spsc/receiver.rs:130-138 | closed is set, the receiver is gone, the sender's waker is woken; the queue is untouched |
| Spsc.Drain.constructor | src/spsc/lamport/receiver.rs:151-155 | the private head starts at the original head; the tail is fixed |
| Spsc.Drain.Remaining | src/spsc/lamport/receiver.rs:226-230 | the values still to yield run from the private head to the snapshot tail; there are never more than the channel's queue holds, and exactly the whole queue for a drain up to the channel's tail |
| Spsc.Drain.SizeHint | src/spsc/lamport/receiver.rs:253-257 | exact: both bounds equal `remaining`, never more than the queued values |
| Spsc.Drain.IsClosed | src/spsc/lamport/receiver.rs:220-224 | true iff the sender has been dropped |
| Spsc.Drain.Next | src/spsc/lamport/receiver.rs:237-251 | None at the snapshot tail, changing nothing; otherwise the oldest value, private head + 1, remaining - 1, only its slot emptied, shared head untouched |
| Spsc.Drain.Commit | src/spsc/receiver.rs:150-153 | the shared head becomes original head + values yielded, the drain ends, the invariant holds again |
| Spsc.Drain.CommitHead | src/spsc/lamport/receiver.rs:211-218 | the shared head ends at original head + values yielded, and is written iff at least one value was yielded |
| Spsc.CommittedWindow | src/spsc/lamport/receiver.rs:262-266 | moving the shared head over the drained values leaves every window cell live exactly when unread |
| Spsc.RecvFuture.constructor | src/spsc/receiver.rs:207-209 | the future borrows the receiver |
| Spsc.RecvFuture.Poll | src/spsc/receiver.rs:220-247 | a value: Ready(Ok(oldest)), sender woken; empty and closed: Ready(Disconnected); empty and open: receiver waker registered, Pending, and with no peer step between attempt and re-check no self-wake |
| Spsc.RecvFuture.Attempt | src/spsc/receiver.rs:223-231 | the three outcomes of one `try_recv` with their new state: the oldest value and the sender woken, Disconnected, or the receiver waker registered |
| Spsc.RecvFuture.Recheck | src/spsc/receiver.rs:233-241 | self-wake exactly when some value is queued or held by a drain (`tail != head`) |
| Spsc.NewChannel | src/spsc/mod.rs:75-77 | one sender and one receiver over one fresh, empty, open channel of capacity N, or the capacity error |
| SpscScenarios.TestFull | src/spsc/mod.rs:114-124 | after N = 4 sends without receiving, the next send is Full |
| SpscScenarios.TestDisconnected | src/spsc/mod.rs:126-138 | both halves open: neither is closed; dropping either half makes the other report closed |
| SpscScenarios.ProperConsumption | src/spsc/mod.rs:140-156 | for every power-of-two N: N values sent, sender dropped, all N come back in order, then Disconnected |
| SpscScenarios.FifoExample | src/spsc/mod.rs:50-61 | send 1 and 2: Some(1), Some(2), then None |
| SpscScenarios.DropUnreadItems | src/spsc/mod.rs:195-210 | two unread values are destructed exactly once each when both halves are gone |
| SpscScenarios.SendAll | src/spsc/mod.rs:119-121 | a run of successful sends appends the values in order |
| SpscScenarios.DrainCollect | src/spsc/lamport/receiver.rs:126-138 | a drain of up to max yields the first `min(max, len)` values in order and moves the head by exactly that many |
| SpscScenarios.TryRecvCollect | src/spsc/lamport/receiver.rs:25-46 | up to max `try_recv` calls yield the same values and the same head as DrainCollect |
| SpscScenarios.DrainMatchesTryRecv | src/spsc/lamport/receiver.rs:109-118 | for every power-of-two N, every queue that fits and every max: draining and a `try_recv` loop return equal values and equal final heads |
| SpscScenarios.SendWakeupNotMissed | src/spsc/sender.rs:171-188 | a full channel's send future registers; a consumer step (plain `try_recv` or a receive future's poll) takes the oldest value before the re-check; the re-check self-wakes, and the async consumer also wakes the registered sender once |
| SpscScenarios.RecvWakeupNotMissed | src/spsc/receiver.rs:229-243 | an empty open channel's receive future registers; a producer step (plain `try_send` or a send future's poll) publishes v before the re-check; the re-check self-wakes, and the async producer also wakes the registered receiver once |
| SpscScenarios.BatchFrom | src/spsc/lamport/receiver.rs:109-118 | a fresh channel holding xs, read by a drain or by a `try_recv` loop up to max: the first `min(max, length of xs)` values and that head, either way |
| SpscScenarios.EarlyDrainDrop | src/spsc/lamport/receiver.rs:120-124 | a drain dropped after one value commits one; the next drain yields the rest, none repeated or lost |
| SpscScenarios.DrainAfterClose | src/spsc/lamport/receiver.rs:120-124 | after the sender is dropped a drain still yields [1, 2]; the next `try_recv` is Disconnected |
| SpscScenarios.UnboundedDrain | src/spsc/receiver.rs:104-108 | the snapshot drain yields 10, 20, then None, and its commit moves head to 2 |
| Vyukov.HasDataIsModulo | src/spsc/vyukov/channel.rs:81-95 | for power-of-two N the mask test equals `stamp % N == (i + 1) % N` |
| Vyukov.FreeStampHasNoData | src/spsc/vyukov/channel.rs:83-85 | for N >= 2, a stamp congruent to the slot index fails the test |
| Vyukov.WrittenStampHasData | src/spsc/vyukov/channel.rs:83-85 | the stamp `s + 1` published after writing sequence s passes the test for the slot of s |
| Vyukov.LapStamps | src/spsc/vyukov/channel.rs:113-144 | for every slot i and lap k: `i + kN` is empty and `i + 1 + kN` has data |
| Vyukov.LastSlotEdgeCase | src/spsc/vyukov/channel.rs:146-167 | N = 4, slot 3: stamps 3 and 7 empty, 4 and 8 hold data |
| Vyukov.SameStampDifferentSlots | src/spsc/vyukov/channel.rs:273-308 | stamp 5 means data in slot 0 and none in slot 1 |
| Vyukov.StampedCapacity | src/spsc/vyukov/channel.rs:24-37 | accepted iff N is a power of two and at least 2; a power of two refused is SingleSlot |
| Vyukov.StampTestExact | src/spsc/vyukov/channel.rs:94-95 | for accepted N, for every stamp: free stamp s fails, written stamp s + 1 passes, in the slot of s |
| Vyukov.OffsetSlot | src/spsc/vyukov/channel.rs:88-89 | every slot is the slot of sequence `head + offset` |
| Vyukov.SlotOrder | src/spsc/vyukov/channel.rs:88-99 | the order a slot-index scan meets the queue: a rotation, same multiset and length |
| Vyukov.SlotOrderNoWrap | src/spsc/vyukov/channel.rs:88-99 | a queue that does not pass the last slot is met in FIFO order |
| Vyukov.ScanOrderIsPrefix | src/spsc/vyukov/channel.rs:88-99 | after slots 0 to i - 1 the scan has met exactly the closed-form prefix |
| Vyukov.ScanIsSlotOrder | src/spsc/vyukov/channel.rs:88-99 | the whole scan meets every unread value once, in slot order |
| Vyukov.Channel.Init | src/spsc/vyukov/channel.rs:24-37 | open, private cursors 0, empty queue, stamp invariant holds |
| Vyukov.Channel.Default | src/spsc/vyukov/channel.rs:24-37 | slot i fresh with stamp i and no value, open, cursors 0; refused capacities return StampedCapacity's error |
| Vyukov.Channel.TrySend | src/spsc/slot.rs:13-16 | closed: Disconnected(value); slot of tail writable (stamp == tail) iff `tail - head < N`, else Full(value) with no slot changed; success appends and stamps `tail + 1` |
| Vyukov.Channel.Publish | src/spsc/slot.rs:147-151 | write, stamp `tail + 1`, tail + 1, value appended; the stamp invariant is kept |
| Vyukov.Channel.TryRecv | src/spsc/slot.rs:153-160 | empty: Disconnected if closed else Ok(None), no slot changed; else the oldest value, stamp `head + N`, head + 1 |
| Vyukov.Channel.Drop | src/spsc/vyukov/channel.rs:79-101 | destructs exactly the unread values, each once, in slot order (a permutation of the queue); no slot holds a value after; stamps untouched |
| Vyukov.Channel.Scan | src/spsc/vyukov/channel.rs:88-99 | visiting slots 0 to N - 1 destructs exactly the found values, in scan order |
| Vyukov.Channel.ScanSlot | src/spsc/vyukov/channel.rs:89-98 | the test on slot i destructs its value iff it holds one |
| Vyukov.ScanPlan | src/spsc/vyukov/channel.rs:81-85 | in a valid channel, slot j holds a value iff its stamp passes the test, and that value is the one of its sequence |
| Vyukov.SendAll | src/spsc/vyukov/channel.rs:221-224 | successful sends append the values in order |
| Vyukov.RecvTimes | src/spsc/vyukov/channel.rs:225-227 | k receives return the k oldest values |
| Vyukov.FullLap | src/spsc/vyukov/channel.rs:221-227 | N sent then N read back in order; the queue is empty again |
| Vyukov.DropPartialConsumption | src/spsc/vyukov/channel.rs:169-203 | 3 sent, 1 read: the drop destructs the other 2 |
| Vyukov.TwoLaps | src/spsc/vyukov/channel.rs:218-236 | a full lap then 3 sent, 1 read: 6 and 7 left unread |
| Vyukov.DropAfterWraparound | src/spsc/vyukov/channel.rs:205-248 | after the wrap-around the drop destructs exactly the 2 left |
| Vyukov.DropEmpty | src/spsc/vyukov/channel.rs:250-271 | a channel never written destructs nothing |
| Vyukov.DropSameStamp | src/spsc/vyukov/channel.rs:310-348 | after a lap and one send, slots 0 and 1 both carry stamp 5; only slot 0's value is destructed |
| Vyukov.DropFull | src/spsc/vyukov/channel.rs:350-377 | a full channel destructs all 4 |
| Vyukov.WrapQueue | src/spsc/vyukov/channel.rs:88-99 | 4 sent, 3 read, 2 sent: 4, 5, 6 sit in slots 3, 0, 1 |
| Vyukov.WrappedOrder | src/spsc/vyukov/channel.rs:88-99 | that queue is met in the order 5, 6, 4 |
| Vyukov.DropWrappedQueue | src/spsc/vyukov/channel.rs:88-99 | a queue wrapping the ring's end is destructed in slot order 5, 6, 4 |
| Findings.SingleSlotAsWritten | src/spsc/vyukov/channel.rs:88-99 | with N = 1 the ring is accepted and a never-written slot passes the has-data test; after a write, the stamp is the writable one again |
| Findings.SingleSlotStampsCoincide | src/spsc/slot.rs:13-16 | with N = 1 every stamp passes the test, and 1 passes CheckCapacity but not StampedCapacity |
| Findings.SharedSend | src/spsc/sender.rs:36-53 | on the shared cursors of an open channel: with room, the window's cell of tail gets the value, every other window cell is kept and tail + 1; full means no change |
| Findings.SharedSendConsistent | src/spsc/sender.rs:36-53 | `try_send` keeps the cells consistent with the cursors |
| Findings.SharedTryRecv | src/spsc/receiver.rs:25-45 | on the shared cursors: empty means no change; otherwise the value of the cell of head, that cell emptied, every other window cell kept, head + 1, tail unchanged |
| Findings.SharedTryRecvConsistent | src/spsc/receiver.rs:25-45 | `try_recv` keeps the cells consistent with the cursors, and on a non-empty channel returns a value |
| Findings.DrainRewindsHead | src/spsc/receiver.rs:104-108 | a drain beside `try_recv` commits its stale head, leaving head 0, tail 1 and an empty cell 0: inconsistent |
| Findings.DrainReads | src/spsc/lamport/receiver.rs:237-251 | k drain reads return the cells of sequences head to head + k - 1 in order, empty exactly those cells, keep every other cell and both shared cursors |
| Findings.ExclusiveDrainCommit | src/spsc/lamport/receiver.rs:199-218 | with the exclusive drain, every value read is a real one, and committing `head + k` after k reads leaves the channel consistent |

## Left out

- Atomics and memory orderings (Relaxed, Acquire, Release) are not modelled. Each `try_send`, `try_recv`, drain step and drop is one sequential atomic step.
- Interleavings are not modelled: a producer step and a consumer step never overlap.
- `CachePadded` and the `unsafe impl Send/Sync` declarations are not modelled: layout and thread-safety markers only.
- The internals of `futures::task::AtomicWaker` are not modelled. A waker is a `WakerCell`: a stored flag and a count of wake-ups.
- `Arc` reference counting and `PhantomData` are not modelled. "Both halves dropped" is an explicit call to the channel's `Drop`.
- `capacity()` is not modelled: it returns the constant N.
- The macro-generated size aliases (`Sender4`, `channel16`, ...) are not modelled: naming only.
- The benches, `test_channel` and `test_async_channel` are not modelled: threads, timing and the tokio runtime. Only their FIFO content is kept (FifoExample, ProperConsumption).
- Cursors and stamps are unbounded `nat`s. The source's `usize` wrap-around is not modelled: the cursors advance with non-wrapping `+ 1`, and `wrapping_sub` equals plain subtraction while `tail >= head`.
- Spsc.Sender.SendSpin and Spsc.Receiver.RecvSpin take an attempt budget in place of the unbounded `spin_loop`. None means the budget ran out; the result cases of a finished spin are stated exactly.
- The Vyukov sender and receiver files are not part of this model. Vyukov.Channel.TrySend and Vyukov.Channel.TryRecv follow the stamp protocol of `src/spsc/slot.rs`, and the private cursors are fields of the channel.
- Vyukov `split`, `is_closed` and the Vyukov wakers are not modelled separately. They repeat the shared-cursor channel's, which are modelled.
- Vyukov `drain(max)` is not modelled: its source is not part of this model.
- `Cursors` (`is_empty`, `remaining`) is not part of this model. Its uses are inlined as `head == tail` and `tail - head`.
- The shared-cursor channel's ring is the plain cell ring. Its declared `RingBuffer<Slot<T>, N>` carries stamps that this protocol never reads.
- `src/ring.rs` calls the destroy operation `drop`, while `src/spsc/channel.rs` calls it `drop_in_place`, and `src/spsc/slot.rs` uses a `get` that the ring does not define. The model has one ring with `Write`, `Read` and `DropInPlace`, and indexes slots directly.
- `TryRecvError` is a unit struct in the shared-cursor receivers. The model uses its `Disconnected` variant of `src/spsc/vyukov/error.rs`. `Empty` is never produced: an empty open channel answers Ok(None).
- Spsc.Receiver.TryRecv requires that no drain is live. This is the exclusive borrow of `drain(&mut self)` in `src/spsc/lamport/receiver.rs`. The shared-borrow drain of `src/spsc/receiver.rs` would allow more, and Findings.DrainRewindsHead shows why that is wrong.
- Spsc.Receiver.RecvSpin, Spsc.RecvFuture.Poll, Spsc.RecvFuture.Attempt, Spsc.Receiver.Drain and Spsc.Receiver.DrainUpTo require that no drain is live, for the same reason. `drain(&self)` at `src/spsc/receiver.rs:104-108` lets all of these run beside a live drain, including a second drain. Two drains would both start from the same head, so both would read the value there. The model does not cover these calls.
- Findings.SharedSend models the open channel only. The closed case is in Spsc.Sender.TrySend.
- Spsc.SendFuture.Poll and Spsc.RecvFuture.Poll run their attempt and re-check with no step between them, so on their own they never self-wake. The interleaving that the re-check guards against is in SpscScenarios.SendWakeupNotMissed and SpscScenarios.RecvWakeupNotMissed, one peer step between Attempt and Recheck.
- Panics during a drain's iteration are not modelled: a panic unwinds to the drain's drop, which is the `Commit`/`CommitHead` modelled.

## Findings

| source | as written | input that shows it | evidently intended | confidence | as-written member | corrected member |
|---|---|---|---|---|---|---|
| src/spsc/vyukov/channel.rs:95 | The stamped ring accepts N = 1 (a power of two), so the mask is 0 and every stamp passes the has-data test. The stamp published after writing at tail 0 (1) is also the stamp the producer waits for at tail 1. | `channel::<T, 1>()` dropped before any send: the drop destructs the uninitialised slot 0. Or one send then a second send: the unread value is overwritten. | Refuse a capacity below 2 for the stamp protocol, where the test is exact for every stamp | not executed | Findings.SingleSlotAsWritten | Vyukov.StampTestExact |
| src/spsc/receiver.rs:104-108 | `drain(&self)` borrows the receiver shared, so `try_recv` stays callable while the drain is live. The drain's drop then stores its snapshot head unconditionally (lines 150-153, 183-186). | Send 5; open a drain (snapshot head 0); `try_recv` returns 5 and stores head 1; drop the drain: head is stored as 0 again. Now head 0, tail 1 and cell 0 empty, so the next `try_recv` reads a moved-out value. Two drains opened side by side both start at head 0, so both would read cell 0. | The drain holds the receiver exclusively (`drain(&mut self)`, as in src/spsc/lamport/receiver.rs), so commit moves the head forward by exactly the values read | not executed | Findings.DrainRewindsHead | Findings.ExclusiveDrainCommit |
