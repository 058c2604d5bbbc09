# narrator: capture firmware, throughput firmwares, host speed test and LED patterns

This project is a Dafny model of the sequential core of `narrator`, a logic-analyser style
capture system for the nRF52840 ("diegesis"). Each core source file has a module of its own:

- **Debounce**, **FuseControl**, **EncodedRing**, **Diegesis** (`diegesis.rs`):
  - the four-state start/stop button debounce with its 5 ms settle window;
  - the run / fuse / cooldown machine over `running`, `fuse_timeout` and the global `FUSE`
    flag;
  - the grant-gated encoding of one report into the 32 KiB `ENCODED_QUEUE` ring;
  - the drain of the ring into the USB serial port, which releases exactly what the port
    accepted;
  - the min/max loop-time statistics.

  `Diegesis.IdleLoop` is the idle task as a class whose fields are the loop variables and
  the statics it shares.
- **Blocks**: the 4 KiB block pool, the 64-slot (63-block) single-producer/single-consumer
  block queue, and the partial-write "work in progress" drain. `spi-perf.rs` and
  `usb-perf.rs` share all three.
- **SpiPerf** (`spi-perf.rs`): the `SpimPeriph` double-buffer state machine, `take()`, the
  `spim_p0` handler and its halting cases, block conservation and the order in which blocks
  reach the queue. `SpiPerf.SpiPerf` is a class holding the peripheral slot, the pool, the
  queue and the block in progress.
- **UsbPerf** (`usb-perf.rs`): the timer-tick producer. It covers the allocation backoff,
  the `CUR_CHAR` letter cycle, the in-place fill of a block with the 16-byte line pattern
  (an `array` method), and enqueue-or-drop. `UsbPerf.UsbPerf` is a class whose
  `Tick`/`IdlePass` keep an invariant: every block on its way to the host carries the fill
  pattern, and no block is lost.
- **Speedtest** (`host/dgs-speedtest`):
  - port selection: the last USB port whose serial number contains "diegesis";
  - the receive loop: bytes are appended to `current`, at most one zero-terminated frame
    is cut per turn, and the `bytes_rxd` / `bytes_dec` window counters are kept.

  Over any run, every received byte ends up either in a cut frame or still held.
- **Patterns** (`patterns.rs`):
  - the `ExtRgb` integer colour scaling, including the 16-bit widening of `mul_then_div`;
  - `Direction::invert`;
  - the rainbow, walker and boot plans;
  - the array routines that load one plan per LED in a direction-dependent order.

Time, USB/serial I/O, DMA completion and the foreign encoders are parameters of the model.
Every interrupt handler and idle-loop pass is one sequential step.

Where the repository's prose description and its code disagree, the model follows the code:

- `FUSE` starts out set (`AtomicBool::new(true)`, diegesis.rs:42), not clear, so capture only
  runs after a start press.
- A manual stop sets `FUSE` but starts no cooldown (diegesis.rs:352-359). Only a fuse found
  blown while running with no cooldown pending starts one (389-396).
- The handler turns `TwoPending` into `OnePending` on every successful poll (spi-perf.rs:253).
  It never stays in `TwoPending`.
- The block queues are declared with 64 slots. A heapless `spsc::Queue<_, 64>` keeps one
  slot free, so they hold at most 63 blocks.

## Model

| member | source | states |
|---|---|---|
| Debounce.Poll | firmware/diegesis-fw/src/bin/diegesis.rs:80-101 | An edge is emitted exactly when a Maybe state's reading has held for 5 ms: Low only from MaybeLow into StableLow, High only from MaybeHigh into StableHigh. A reading that flips back reverts to the stable state with no edge, even after 5 ms. Leaving a stable state records the current tick. Every other combination keeps the state and emits nothing. |
| Debounce.RunEdgesAlternate | firmware/diegesis-fw/src/bin/diegesis.rs:80-101 | Over any sequence of samples, the emitted edges alternate Low/High, starting with the edge the initial state expects. |
| FuseControl.OnEdge | firmware/diegesis-fw/src/bin/diegesis.rs:351-377 | A Low edge while running sets FUSE and stops. While stopped with a cooldown pending, it changes nothing. Otherwise it clears FUSE and starts running. No other input changes anything, and the cooldown is untouched. |
| FuseControl.Cooldown | firmware/diegesis-fw/src/bin/diegesis.rs:379-387 | A pending cooldown is cleared exactly when strictly more than 2500 ms have passed. `running` and FUSE are never changed, so FUSE is not auto-cleared. |
| FuseControl.FuseCheck | firmware/diegesis-fw/src/bin/diegesis.rs:389-396 | Running, with no cooldown and FUSE set: stop and start a cooldown stamped with the current tick. In every other case nothing changes. |
| FuseControl.ControlStep | firmware/diegesis-fw/src/bin/diegesis.rs:349-396 | FUSE goes from set to clear, and `running` from false to true, only in the start branch. A manual stop starts no cooldown. While a cooldown is pending, only its expiry changes anything. A trip while running starts a cooldown at `now`. Consistency is preserved. |
| FuseControl.CoolingHolds | firmware/diegesis-fw/src/bin/diegesis.rs:379-387 | While at most 2500 ms have passed since a cooldown started, any sequence of passes leaves the control state unchanged. |
| FuseControl.NoAutoRestart | firmware/diegesis-fw/src/bin/diegesis.rs:379-396 | Without a Low edge, a set FUSE stays set and a stopped loop stays stopped over any sequence of passes. |
| FuseControl.RunConsistent | firmware/diegesis-fw/src/bin/diegesis.rs:349-396 | The control invariant holds after any sequence of passes: a pending cooldown means FUSE is set and the loop is stopped. |
| EncodedRing.Encode | firmware/diegesis-fw/src/bin/diegesis.rs:422-438 | A report is dequeued only after the 5120-byte grant succeeds. The ring grows by exactly the encoded bytes, and the push counter by their length modulo 2^32. With no grant or no report nothing changes. A serialisation or framing failure halts. |
| EncodedRing.Drain | firmware/diegesis-fw/src/bin/diegesis.rs:442-461 | Released bytes leave the front of the ring in order, with nothing lost or duplicated. `Ok(n)` releases n bytes, capped at the grant, and adds n to the pull counter. `WouldBlock` releases nothing. Any other error releases nothing and halts. |
| Diegesis.StatsAreExtremes | firmware/diegesis-fw/src/bin/diegesis.rs:310-318 | After a window the statistics are the minimum and maximum observed loop times, each of which occurred. With no observation they hold the reset values 0xFFFFFFFF and 0. |
| Diegesis.Transfer | firmware/diegesis-fw/src/bin/diegesis.rs:421-461 | Encode, then drain the ring the encoder left. No grant or no report: no report is taken and nothing is encoded; otherwise exactly one report is taken. An encoded report commits exactly its framed bytes, and the push counter grows by their length. A serialisation or framing failure halts before anything is drained. `Ok(n)` sends Min(n, grant) bytes from the front and adds n to the pull counter. `WouldBlock`, or an empty ring, sends nothing. The firmware halts exactly on an encoder failure or on a port error with bytes to send. Nothing is lost or duplicated: the bytes the ring held, then the new ones, are the bytes sent followed by those still held, and the ring stays within its capacity. |
| Diegesis.IdleLoop.ExtremesSoFar | firmware/diegesis-fw/src/bin/diegesis.rs:310-318 | In a valid loop state, `min_ticks` and `max_ticks` are the smallest and largest loop times observed in the current window, each of which occurred, or the reset values when none was observed. |
| Diegesis.IdleLoop.constructor | firmware/diegesis-fw/src/bin/diegesis.rs:302-313 | The idle loop starts with the button StableHigh, stopped, no cooldown, FUSE set, the statistics reset and empty queues. |
| Diegesis.IdleLoop.Enqueue | firmware/diegesis-fw/src/bin/diegesis.rs:39-40 | The 32-slot report queue accepts a report at its back exactly when it is not full. |
| Diegesis.IdleLoop.TrackLoop | firmware/diegesis-fw/src/bin/diegesis.rs:316-319 | The minimum and maximum absorb the elapsed ticks, the time joins the current window, and the loop stamp is renewed. The statistics stay the extremes of the window. |
| Diegesis.IdleLoop.OnButton | firmware/diegesis-fw/src/bin/diegesis.rs:351-377 | The control state becomes `OnEdge` of the old one. |
| Diegesis.IdleLoop.ExpireCooldown | firmware/diegesis-fw/src/bin/diegesis.rs:379-387 | The control state becomes `Cooldown` of the old one. |
| Diegesis.IdleLoop.CheckFuse | firmware/diegesis-fw/src/bin/diegesis.rs:389-396 | The control state becomes `FuseCheck` of the old one, with FUSE also set by a capture source that tripped it. |
| Diegesis.IdleLoop.ProfileWindow | firmware/diegesis-fw/src/bin/diegesis.rs:398-413 | After at least 1000 ms, the statistics, the push/pull counters and the observed window reset, and the window restarts at `now`. Before that nothing changes. |
| Diegesis.IdleLoop.StartStop | firmware/diegesis-fw/src/bin/diegesis.rs:349-396 | The button becomes `Poll` of the old one. The control state becomes `ControlStep` for the edge it emitted. The invariant is kept. |
| Diegesis.IdleLoop.EncodeOne | firmware/diegesis-fw/src/bin/diegesis.rs:422-438 | The queues and counter become `Encode` of the old ones. Exactly the committed bytes are recorded as committed. |
| Diegesis.IdleLoop.DrainOne | firmware/diegesis-fw/src/bin/diegesis.rs:442-461 | The ring and counter become `Drain` of the old ones. Exactly the released bytes are recorded as delivered. |
| Diegesis.IdleLoop.Pass | firmware/diegesis-fw/src/bin/diegesis.rs:315-461 | Until the device is configured, only the loop statistics and the stamp move: the time joins the window, and the button, control state, queues, ring, counters, profile stamp and byte logs are unchanged. Once configured: the button and control move as `Poll`/`ControlStep` say; the profiling window restarts after 1000 ms, or keeps this turn's time; and the queue, ring, counters and halt are those of `Transfer` from the counters as the window left them. The committed and delivered logs grow by exactly the encoded and sent bytes, and the invariant `committed == delivered + ring` is kept unless the pass halts. |
| Diegesis.IdleLoop.ConfiguredPass | firmware/diegesis-fw/src/bin/diegesis.rs:346-461 | The configured part of a pass. The button and control state become `Poll`/`ControlStep` of the old ones, the profiling window behaves as in `ProfileWindow`, and the queue, ring, counters and logs are those of `Transfer` from the counters it left. The invariant is kept unless the pass halts. |
| Diegesis.IdleLoop.ProfiledTransport | firmware/diegesis-fw/src/bin/diegesis.rs:398-461 | The profiling window as in `ProfileWindow`, then the queue, ring, counters and logs as `Transfer` says, from the counters the window left. |
| Diegesis.IdleLoop.Transport | firmware/diegesis-fw/src/bin/diegesis.rs:416-461 | The report queue, ring, push/pull counters and halt are exactly those of `Transfer` of the old ones. The committed log grows by the encoded bytes and the delivered log by the sent ones, so the invariant is kept unless it halts. |
| Blocks.Alloc | firmware/diegesis-fw/src/bin/spi-perf.rs:229 | An empty pool has nothing to give. Otherwise the pool hands out its top block, and the rest of the pool plus that block is the old pool. |
| Blocks.EnqueueOrDrop | firmware/diegesis-fw/src/bin/spi-perf.rs:247-251 | The block joins the back of the queue exactly when fewer than 63 are queued. Otherwise it returns to the pool. No block is lost and the capacity is kept. |
| Blocks.Drain | firmware/diegesis-fw/src/bin/spi-perf.rs:303-325 | A block is dequeued, at offset 0, only when none is in progress. `Ok(n)` with at least the remaining bytes finishes and frees the block, a smaller `Ok(n)` adds n to the offset, and `WouldBlock` changes nothing. The offset stays below 4096, any other error halts, and no block is created or lost. |
| Blocks.OffsetCountsAcceptedBytes | firmware/diegesis-fw/src/bin/spi-perf.rs:303-321 | Over passes without error that accept fewer bytes than remain, the block stays in progress with offset equal to the start plus the accepted bytes, and the queue is untouched. |
| Blocks.DrainConserves | firmware/diegesis-fw/src/bin/spi-perf.rs:303-321 | Once the freed block is back in the pool, a non-halting drain keeps the multiset of pool, queue and block in progress. |
| SpiPerf.InFlight | firmware/diegesis-fw/src/bin/spi-perf.rs:338-349 | Transfers hold 0 blocks when Idle (or Unstable), 1 when OnePending and 2 when TwoPending, never more. |
| SpiPerf.StartTransfer | firmware/diegesis-fw/src/bin/spi-perf.rs:229-241 | Starting a transfer halts exactly on an empty pool or a refused DMA setup, leaving the slot Unstable. Otherwise it takes the pool's top block into a new transfer. |
| SpiPerf.StartConserves | firmware/diegesis-fw/src/bin/spi-perf.rs:229-241 | Moving the pool's top block into a transfer keeps the total of transfers, pool and queue. |
| SpiPerf.Exchange | firmware/diegesis-fw/src/bin/spi-perf.rs:243-254 | The TwoPending arm halts exactly when the first transfer is not done. Otherwise it becomes OnePending with the pending transfer and hands the first block to the queue, or drops it to the pool when the queue is full. |
| SpiPerf.ExchangeConserves | firmware/diegesis-fw/src/bin/spi-perf.rs:243-254 | The exchange keeps the total of transfers, pool and queue. |
| SpiPerf.HandleEvent | firmware/diegesis-fw/src/bin/spi-perf.rs:225-258 | The handler halts exactly when: polling Unstable; polling Idle with STOPPED set; the pool is empty in Idle or OnePending; the DMA setup is refused; or the first transfer is not done in TwoPending. It halts only then, leaving Unstable. Otherwise it maps Idle to OnePending, OnePending to TwoPending and TwoPending to OnePending with one block handed over. The queue stays within 63. |
| SpiPerf.HandleEventConserves | firmware/diegesis-fw/src/bin/spi-perf.rs:225-258 | A handler call that does not halt neither creates nor loses a block. |
| SpiPerf.HandlerKeepsInvariant | firmware/diegesis-fw/src/bin/spi-perf.rs:225-260 | A handler call that does not halt keeps the invariant: the slot is never Unstable, the queue is within capacity, and the blocks are conserved. |
| SpiPerf.StepKeepsOrder | firmware/diegesis-fw/src/bin/spi-perf.rs:225-258 | With room in the queue, one handler call either leaves the pool alone or takes its top block. Either way, the queue followed by the in-flight blocks is the old one, extended by the taken block. |
| SpiPerf.HandoverKeepsOrder | firmware/diegesis-fw/src/bin/spi-perf.rs:225-260 | The double buffer never reorders. Over handler calls that do not overflow the queue, the queue plus the in-flight blocks is the old one extended by the blocks taken from the pool, in the order they were taken. |
| SpiPerf.SpiPerf.constructor | firmware/diegesis-fw/src/bin/spi-perf.rs:73-79 | After init the peripheral is Idle, the pool holds the grown blocks, and the queue is empty with no block in progress. |
| SpiPerf.SpiPerf.Take | firmware/diegesis-fw/src/bin/spi-perf.rs:355-359 | `take()` returns the stored state and leaves Unstable in its place. |
| SpiPerf.SpiPerf.StartArm | firmware/diegesis-fw/src/bin/spi-perf.rs:229-241 | The pool and the produced state are those of `StartTransfer`. |
| SpiPerf.SpiPerf.ExchangeArm | firmware/diegesis-fw/src/bin/spi-perf.rs:243-253 | The pool, queue and produced state are those of `Exchange`. |
| SpiPerf.SpiPerf.Dispatch | firmware/diegesis-fw/src/bin/spi-perf.rs:225-258 | The match on the taken state produces what `HandleEvent` says, and Unstable exactly on a fault. |
| SpiPerf.SpiPerf.SpimP0 | firmware/diegesis-fw/src/bin/spi-perf.rs:206-261 | The handler leaves the slot, pool and queue as `HandleEvent` of the old ones. The invariant is kept when it does not halt. |
| SpiPerf.SpiPerf.Store | firmware/diegesis-fw/src/bin/spi-perf.rs:260 | `*port = new_state` stores the new state and keeps the invariant. |
| SpiPerf.SpiPerf.IdlePass | firmware/diegesis-fw/src/bin/spi-perf.rs:289-325 | Nothing changes until the device is configured. Then one `Drain` pass runs: the freed block goes back to the pool, and the invariant is kept unless the pass halts. |
| UsbPerf.NextChar | firmware/diegesis-fw/src/bin/usb-perf.rs:156-160 | 'z' and any value past it wrap round to 'a', and every other value moves on by one. A letter therefore stays a letter. |
| UsbPerf.AdvanceIsModular | firmware/diegesis-fw/src/bin/usb-perf.rs:156-160 | After n advances from a letter c, the character is 'a' + (c - 'a' + n) mod 26. |
| UsbPerf.LetterPeriod | firmware/diegesis-fw/src/bin/usb-perf.rs:156-160 | Starting from a letter, the cycle stays within 'a'..'z' and returns to the start exactly after a multiple of 26 blocks. |
| UsbPerf.BlockIsLines | firmware/diegesis-fw/src/bin/usb-perf.rs:162-165 | A filled 4096-byte block is 256 lines of fifteen letters and a newline, and its first byte is the letter. |
| UsbPerf.Fill | firmware/diegesis-fw/src/bin/usb-perf.rs:162-165 | After the in-place fill, byte i of the buffer is '\n' when i % 16 == 15 (and for the buffer's last byte) and the letter otherwise. |
| UsbPerf.ThresholdAfterFailureAsWritten | firmware/diegesis-fw/src/bin/usb-perf.rs:150 | `BACKOFF_THR += 1` on a u8 adds one below 255 and wraps 255 to 0. |
| UsbPerf.ThresholdAfterFailure | firmware/diegesis-fw/src/bin/usb-perf.rs:150 | The corrected increment adds one below 255, never decreases and is at least 1. |
| UsbPerf.BackoffStep | firmware/diegesis-fw/src/bin/usb-perf.rs:138-154 | `BACKOFF_CUR` counts down, saturating at 0, and the tick tries to allocate only when it has reached 0. A success resets both counters. A failure raises the threshold by the corrected, saturating increment and waits that many ticks. |
| UsbPerf.FailureWaits | firmware/diegesis-fw/src/bin/usb-perf.rs:138-153 | After a failure that set the wait to k, the next k-1 ticks skip the allocation and the k-th tries again, whatever the pool holds. |
| UsbPerf.FailuresLengthenWait | firmware/diegesis-fw/src/bin/usb-perf.rs:150-151 | With the corrected increment, n consecutive failures from a reset threshold set a wait of min(n, 255) ticks. |
| UsbPerf.BackoffWrapsAsWritten | firmware/diegesis-fw/src/bin/usb-perf.rs:150-151 | As written, the failure after a 255-tick wait sets the wait to 0, and the next tick tries again at once. The corrected step keeps waiting 255. |
| UsbPerf.ProducerTick | firmware/diegesis-fw/src/bin/usb-perf.rs:138-171 | Skipped and failed ticks change only the backoff, where a failure uses the corrected, saturating increment. A successful allocation takes the top block, advances the letter, and queues the block, or drops it back to the pool when the queue is full; a dropped block is never retried. The queue stays within capacity and the letter within 'a'..'z'. |
| UsbPerf.ProducerTickConserves | firmware/diegesis-fw/src/bin/usb-perf.rs:143-171 | A tick keeps the multiset of pool and queue. |
| UsbPerf.TickWaits | firmware/diegesis-fw/src/bin/usb-perf.rs:138-141 | While the countdown is above 1, a tick only decrements it. |
| UsbPerf.TickFails | firmware/diegesis-fw/src/bin/usb-perf.rs:143-154 | With an empty pool, a tick that tries sets both counters to the threshold raised by the corrected, saturating increment and changes nothing else. |
| UsbPerf.TickAllocates | firmware/diegesis-fw/src/bin/usb-perf.rs:143-171 | With a block available, a tick that tries resets the backoff, advances the letter, and queues or drops the top block depending on the queue's room. |
| UsbPerf.DrainKeepsInvariant | firmware/diegesis-fw/src/bin/usb-perf.rs:209-231 | A drain pass that does not halt keeps the producer invariant, with the freed block back in the pool. |
| UsbPerf.DrainSendsInOrder | firmware/diegesis-fw/src/bin/usb-perf.rs:209-231 | A drain pass only removes the block in progress from the front of the outgoing blocks when it finishes. The rest keep their order. |
| UsbPerf.FillOutside | firmware/diegesis-fw/src/bin/usb-perf.rs:162-165 | Filling a block that is not outgoing gives it the line pattern and leaves every outgoing block's pattern intact. |
| UsbPerf.FillTop | firmware/diegesis-fw/src/bin/usb-perf.rs:143-165 | Filling the pool's top block with the next letter leaves the state ready for either enqueue outcome. |
| UsbPerf.TakeFillOffer | firmware/diegesis-fw/src/bin/usb-perf.rs:143-171 | Allocate, advance the letter, fill, then enqueue or drop. The invariant holds for the new letter, pool and queue, and the block carries the new letter's pattern. |
| UsbPerf.UsbPerf.constructor | firmware/diegesis-fw/src/bin/usb-perf.rs:63-69 | The producer starts at 'a' with both backoff counters 0, the grown pool, and an empty queue with no block in progress. |
| UsbPerf.UsbPerf.Tick | firmware/diegesis-fw/src/bin/usb-perf.rs:130-172 | The statics, pool and queue become those of `ProducerTick`. The filled block holds the current letter's line pattern. The invariant is kept: the blocks are conserved, the letter stays a letter, and every outgoing block carries a fill pattern. |
| UsbPerf.UsbPerf.AllocatingTick | firmware/diegesis-fw/src/bin/usb-perf.rs:143-171 | The allocating branch of `Tick`, with the same postcondition. |
| UsbPerf.UsbPerf.CommitTick | firmware/diegesis-fw/src/bin/usb-perf.rs:143-171 | Stores the new letter, pool and queue, and resets both backoff counters. |
| UsbPerf.UsbPerf.IdlePass | firmware/diegesis-fw/src/bin/usb-perf.rs:180-231 | Nothing changes until the device is configured. Then one `Drain` pass runs: the freed block goes back to the pool, and the invariant is kept unless the pass halts. |
| UsbPerf.UsbPerf.Commit | firmware/diegesis-fw/src/bin/usb-perf.rs:209-231 | Stores the drain's new block in progress, queue and pool, and keeps the invariant. |
| Speedtest.ToLower | host/dgs-speedtest/src/main.rs:11 | Lower-casing keeps the length, leaves no ASCII upper-case letter, maps each upper-case letter to its lower-case form, and keeps every other character. |
| Speedtest.Contains | host/dgs-speedtest/src/main.rs:11 | True exactly when the pattern occurs at some position of the text. |
| Speedtest.SelectPort | host/dgs-speedtest/src/main.rs:6-20 | The result is empty exactly when no USB port's serial number contains "diegesis" in any letter case. Otherwise it is the name of the last such port. |
| Speedtest.FirstZero | host/dgs-speedtest/src/main.rs:80 | Returns the index of the first zero: a zero is there and none comes before it. Nothing is returned exactly when there is no zero. |
| Speedtest.SplitFrame | host/dgs-speedtest/src/main.rs:80-83 | A frame is cut exactly when there is a zero. The input is the frame, the zero and the remainder, and the frame contains no zero. |
| Speedtest.SplitFrameUnique | host/dgs-speedtest/src/main.rs:80-82 | Any decomposition into a zero-free frame, a zero and a rest is the one the split produces. |
| Speedtest.TurnMeaning | host/dgs-speedtest/src/main.rs:41-93 | One turn works as follows:<br>- a read error other than a timeout halts;<br>- the held bytes plus the new ones are the cut frame, its zero and the bytes held afterwards;<br>- a frame is cut whenever a zero has arrived, at the first one;<br>- `bytes_rxd` counts every received byte, and `bytes_dec` the decoded length of the cut frame, in a window that restarts after 250 ms;<br>- the only other way to halt is a frame the decoder rejects. |
| Speedtest.RunKeepsEveryByte | host/dgs-speedtest/src/main.rs:68-93 | Over any run that does not halt, the initially held bytes and every received byte are exactly the frames cut, each followed by its zero, then the bytes still held. No frame contains a zero. |
| Speedtest.RunCountsEveryByte | host/dgs-speedtest/src/main.rs:68-72 | Within one window, `bytes_rxd` grows by exactly the number of bytes received. |
| Speedtest.Receiver.constructor | host/dgs-speedtest/src/main.rs:28-34 | The loop starts holding no bytes with both counters at 0. |
| Speedtest.Receiver.Turn | host/dgs-speedtest/src/main.rs:40-93 | One turn of the loop halts exactly when `ReceiveTurn` does, and otherwise leaves the variables as `ReceiveTurn` says. |
| Patterns.DivChannel | firmware/diegesis-fw/src/patterns.rs:99-101 | The quotient is the largest q with q·d ≤ x. |
| Patterns.Div | firmware/diegesis-fw/src/patterns.rs:97-103 | Every channel is divided by the same nonzero divisor, rounding down. |
| Patterns.MulChannel | firmware/diegesis-fw/src/patterns.rs:106-108 | The product modulo 256, which is the exact product when that fits a byte. |
| Patterns.Mul | firmware/diegesis-fw/src/patterns.rs:104-110 | Every channel is multiplied by the same factor. The result is exact where the product fits a byte. |
| Patterns.ProductFitsU16 | firmware/diegesis-fw/src/patterns.rs:114-116 | The 16-bit product of two bytes cannot overflow. |
| Patterns.ScaleIsAtMost | firmware/diegesis-fw/src/patterns.rs:114-116 | For m ≤ d, (x·m)/d ≤ x. |
| Patterns.ScaleChannel | firmware/diegesis-fw/src/patterns.rs:114-116 | The result is (x·m)/d rounded down whenever that fits a byte. For m ≤ d it always fits and is at most x, so the cast back to u8 loses nothing. |
| Patterns.MulThenDiv | firmware/diegesis-fw/src/patterns.rs:112-118 | For m ≤ d, every channel is c·m/d rounded down and no brighter than before. |
| Patterns.Shade | firmware/diegesis-fw/src/patterns.rs:127-134 | Shade j is (j+1)/8 of the walk colour in every channel, rounded down. The eighth is the walk colour itself. |
| Patterns.Shades | firmware/diegesis-fw/src/patterns.rs:127-134 | The eight shades, in order. |
| Patterns.ShadesBrighten | firmware/diegesis-fw/src/patterns.rs:127-134 | From 1/8 to 8/8, the shades are non-decreasing in every channel. |
| Patterns.Invert | firmware/diegesis-fw/src/patterns.rs:299-304 | `invert` has no fixed point. |
| Patterns.InvertIsInvolution | firmware/diegesis-fw/src/patterns.rs:299-304 | Inverting twice gives back the direction. |
| Patterns.RainbowPlan | firmware/diegesis-fw/src/patterns.rs:11-72 | Plan k is three steps: dark for 100·k ms, a 2500 ms sine pulse (period 2500) of its table colour, then dark for 1000 - 100·k ms, each with phase 0, played once. Every plan lasts 3500 ms. |
| Patterns.RainbowPlans | firmware/diegesis-fw/src/patterns.rs:11-72 | The ten rainbow plans, in table order. |
| Patterns.WalkerPlan | firmware/diegesis-fw/src/patterns.rs:136-247 | Plan k has eight cosine steps through the shades. The first starts at phase 250·(k+1) ms and each later one carries the phase on. Seven steps last 250 ms each, and the last, in the walk colour, repeats for ever. |
| Patterns.WalkerPlanBrightens | firmware/diegesis-fw/src/patterns.rs:127-247 | Along a walker plan the colour never dims. |
| Patterns.WalkerPlans | firmware/diegesis-fw/src/patterns.rs:136-247 | The ten walker plans, in table order. |
| Patterns.BootPlan | firmware/diegesis-fw/src/patterns.rs:274-286 | A blue sine pulse of 2500 + delay ms with period 2500 + 1.5·delay, then 50 ms seeks to red, orange, yellow, green, blue and violet and a 100 ms seek to black, each with phase 0, played once. In total it lasts 2900 + delay ms. |
| Patterns.Backwards | firmware/diegesis-fw/src/patterns.rs:74 | `iter().rev()`: element i is the (n-1-i)-th of the input. |
| Patterns.Assign | firmware/diegesis-fw/src/patterns.rs:82-87 | `zip` and `for_each`: sequence i gets plan i and the behaviour for i < min(LEDS, plans). The rest are untouched. |
| Patterns.RainbowCrawler | firmware/diegesis-fw/src/patterns.rs:74-87 | Clockwise, LED i gets plan 9-i; counter-clockwise, plan i. Only the first min(LEDS, 10) LEDs change. |
| Patterns.ColorWalker | firmware/diegesis-fw/src/patterns.rs:249-262 | The opposite orientation: clockwise, LED i gets plan i; counter-clockwise, plan 9-i. Only the first min(LEDS, 10) LEDs change. |
| Patterns.BootSeq | firmware/diegesis-fw/src/patterns.rs:270-289 | Every LED i gets the boot plan for a delay of 50·i ms, so its first step lasts 2500 + 50·i ms. |

## Left out

- USB device polling, enumeration and the `Configured` check: the model takes whether the device is configured as an input to each pass.
- `usb_poll`, `rtic::pend`, interrupt priorities and ISR/idle concurrency: each handler invocation and each idle pass is modelled as one sequential step.
- Every write to the USB serial port: its outcome is an input (`Ok(n)`, `WouldBlock`, another error).
- Hardware bring-up and registers: clocks, VBUS waits, timer compare events, SPIM/TIMER/PPI/SAADC setup.
- The SPIM STOPPED event is read by the handler; the model takes it as an input.
- Whether the DMA layer accepts a transfer (`dma_transfer_split`, `enqueue_next_transfer`) and whether the first transfer is done: both are inputs.
- `millis_since` / `ticks_since` come from the external groundhog timer crate, which is not part of this model. Elapsed time is a parameter.
- The capture sources (`SpimSrc`, `SaadcSrc` and their `poll(&FUSE)`) are not part of this model. `Diegesis.IdleLoop.Enqueue` stands for their hand-over, and a `tripped` input stands for their setting `FUSE`.
- The profiler is kept only as its `bbq_push_bytes` / `bbq_pull_bytes` counters. Its other counters, `time_ticks!`, the `defmt` logging, the average computed from `idle_loop_iters`, and the `ctr` logging counter are not modelled.
- `postcard` serialisation and `kolben::rlercobs` encoding/decoding are foreign crates: they are function parameters, and no framing round-trip is claimed. The host's `DataReport` deserialisation only prints, so it is left out, and `bytes_dec` counts the decoded length whether or not it succeeds.
- The host's f64 moving averages and the printed rates are not modelled.
- The host's 1000-byte read buffer is not modelled: a read may deliver any number of bytes.
- Opening the serial port, and the exit when it fails, is not modelled.
- The host's window clock (`Instant`) is an input: the time elapsed since the window started.
- `Speedtest.ToLower`: lower-cases ASCII letters only, because Unicode case mapping has no counterpart here.
- `Speedtest.SelectPort`: returns nothing when no port matches; the tool's `unwrap` then panics.
- `Patterns.Mul`: models the wrap-around of a release build; a build with overflow checks panics instead.
- `Patterns.Div`, `Patterns.MulThenDiv`: a zero divisor panics in Rust; the model requires a nonzero one (every call passes 8).
- The choreographer engine (`Sequence::set`, `Behavior`, the `MAX_STEPS` bound) is not part of this model. `set` is modelled as giving the sequence the plan and the behaviour.
- The f32 periods are whole numbers of milliseconds in every plan, and are carried as naturals.
- The channel values of the named colours (`smart_leds::colors`) are not part of this model.
- `boot_seq`'s u32 `delay` is unbounded in the model; it would need over 85 million LEDs to overflow.
- `choreographer/src/behaviors.rs`, `choreographer/src/lib.rs`, `bin/choreo.rs` and `groundhog_nrf52.rs` are floating-point animation, macro or timer code outside the modelled core.
- Pool growth from a static byte array (`A::grow`) is the constructors' `grown` parameter: distinct 4096-byte blocks.
- `UsbPerf.UsbPerf.Tick` decides the countdown within its branches (above 1: decrement and stop) instead of first decrementing and then testing for 0; the two are equivalent for a u8 counter.
- UsbPerf.UsbPerf.Tick: uses the corrected, saturating threshold increment, not the u8 increment at usb-perf.rs:150, which wraps 255 to 0; the increment as written is modelled separately (see Findings).
- UsbPerf.BackoffStep: uses the corrected, saturating threshold increment, so the tick after a failure at threshold 255 waits 255 ticks instead of wrapping to 0 (see Findings).
- UsbPerf.ProducerTick: takes its backoff from the corrected `BackoffStep`, so it does not reproduce the wrap at usb-perf.rs:150.
- UsbPerf.TickFails: states the threshold raised by the corrected, saturating increment, not the wrap of usb-perf.rs:150.
- `Diegesis.IdleLoop.ConfiguredPass`, `Diegesis.IdleLoop.ProfiledTransport` and `Diegesis.IdleLoop.Transport` split the pass into sections to keep each proof small; they are not separate functions in the source.

## Findings

| source | as written | input that shows it | evidently intended | confidence | as-written member | corrected member |
|---|---|---|---|---|---|---|
| firmware/diegesis-fw/src/bin/usb-perf.rs:150 | `*BACKOFF_THR += 1` on a `u8` static | 256 consecutive failed allocations; the pool of 48 blocks stays empty while the host does not read. The failure after a 255-tick wait wraps the threshold to 0 (or panics with overflow checks), so the producer retries on the very next tick. | the wait keeps growing, or stays at its maximum, while the pool stays empty | not executed; medium | UsbPerf.BackoffWrapsAsWritten | UsbPerf.FailuresLengthenWait |
