/** The SPI throughput firmware (`spi-perf`): a double-buffered SPIM DMA receiver.

    The SPIM interrupt advances a three-state machine. From `Idle` it starts a transfer
    into a fresh pool block; from `OnePending` it queues a second transfer into another
    block behind the running one; from `TwoPending` it waits for the first transfer,
    swaps the pending one in as the running transfer and hands the filled block to the
    idle loop. `Unstable` is the placeholder left in the peripheral slot while a handler
    holds the old state. The idle loop drains the handed-over blocks into the USB serial
    port. */
module SpiPerf {
  import opened Common
  import opened Blocks

  /** A transfer is represented by the receive block it fills; the SPIM instance and the
      empty transmit side are not modelled. */
  datatype SpimPeriph =
    | Idle
    | OnePending(transfer: Block)
    | TwoPending(transfer: Block, pending: Block)
    | Unstable

  /** Why a handler invocation halts the firmware. */
  datatype Fault =
    | SpimError         // the slot held `Unstable`
    | StoppedWhileIdle  // `assert!(!(stopped))` in the `Idle` arm
    | PoolEmpty         // `A::alloc().unwrap()`
    | DmaRefused        // the HAL refused to start or queue the transfer
    | TransferNotDone   // `assert!(transfer.is_done())` in the `TwoPending` arm

  /** The pool blocks held by the transfers of a state, oldest transfer first. */
  function InFlight(p: SpimPeriph): (r: seq<Block>)
    ensures |r| <= 2
    ensures |r| == 0 <==> p.Idle? || p.Unstable?
    ensures |r| == 2 <==> p.TwoPending?
  {
    match p
    case Idle => []
    case OnePending(a) => [a]
    case TwoPending(a, b) => [a, b]
    case Unstable => []
  }

  /** The peripheral state, the pool and the block queue after one handler invocation,
      and the fault if it halted there. */
  datatype Handled = Handled(port: SpimPeriph, pool: seq<Block>, queue: seq<Block>, fault: Option<Fault>)

  /** The state after starting a transfer into `b`: the first one when no transfer is
      running (`running == None`), otherwise one queued behind the running transfer. */
  function Started(running: Option<Block>, b: Block): SpimPeriph
  {
    match running
    case None => OnePending(b)
    case Some(a) => TwoPending(a, b)
  }

  /** The shared shape of the `Idle` and `OnePending` arms: take a block from the pool
      and give it to a new transfer. */
  function StartTransfer(running: Option<Block>, pool: seq<Block>, queue: seq<Block>, dmaOk: bool)
    : (r: Handled)
    ensures r.fault == Some(PoolEmpty) <==> pool == []
    ensures r.fault == Some(DmaRefused) <==> pool != [] && !dmaOk
    ensures r.fault.Some? ==> r.fault == Some(PoolEmpty) || r.fault == Some(DmaRefused)
    ensures r.fault.Some? <==> r.port == Unstable
    ensures r.fault.None? ==> r == Handled(Started(running, pool[|pool| - 1]), pool[..|pool| - 1], queue, None)
  {
    match Alloc(pool)
    case None => Handled(Unstable, pool, queue, Some(PoolEmpty))
    case Some((b, rest)) =>
      if !dmaOk then Handled(Unstable, pool, queue, Some(DmaRefused))
      else Handled(Started(running, b), rest, queue, None)
  }

  lemma StartConserves(running: Option<Block>, b: Block, rest: seq<Block>, pool: seq<Block>, queue: seq<Block>)
    requires rest + [b] == pool
    ensures multiset(InFlight(Started(running, b))) + multiset(rest) + multiset(queue)
            == multiset(ToSeq(running)) + multiset(pool) + multiset(queue)
  {
    assert InFlight(Started(running, b)) == ToSeq(running) + [b];
    var lhs := multiset(InFlight(Started(running, b))) + multiset(rest) + multiset(queue);
    var rhs := multiset(ToSeq(running)) + multiset(pool) + multiset(queue);
    forall o ensures lhs[o] == rhs[o] {
      assert multiset(pool)[o] == multiset(rest)[o] + multiset([b])[o];
    }
  }

  lemma ExchangeConserves(transfer: Block, pending: Block, pool: seq<Block>, queue: seq<Block>,
                          pool': seq<Block>, queue': seq<Block>)
    requires multiset(pool') + multiset(queue') == multiset(pool) + multiset(queue) + multiset{transfer}
    ensures multiset(InFlight(OnePending(pending))) + multiset(pool') + multiset(queue')
            == multiset([transfer, pending]) + multiset(pool) + multiset(queue)
  {
    var lhs := multiset(InFlight(OnePending(pending))) + multiset(pool') + multiset(queue');
    var rhs := multiset([transfer, pending]) + multiset(pool) + multiset(queue);
    forall o ensures lhs[o] == rhs[o] {
      assert (multiset(pool') + multiset(queue'))[o] == (multiset(pool) + multiset(queue) + multiset{transfer})[o];
      assert multiset([transfer, pending])[o] == multiset{transfer}[o] + multiset{pending}[o];
    }
  }

  /** The `TwoPending` arm: wait for the first transfer, make the pending one current and
      hand the first block to the queue, or drop it back to the pool when the queue is
      full. */
  function Exchange(transfer: Block, pending: Block, pool: seq<Block>, queue: seq<Block>, done: bool)
    : (r: Handled)
    ensures r.fault.Some? <==> !done
    ensures r.fault.Some? ==> r == Handled(Unstable, pool, queue, Some(TransferNotDone))
    ensures done && |queue| < QUEUE_CAPACITY ==> r == Handled(OnePending(pending), pool, queue + [transfer], None)
    ensures done && |queue| >= QUEUE_CAPACITY ==> r == Handled(OnePending(pending), pool + [transfer], queue, None)
    ensures |queue| <= QUEUE_CAPACITY ==> |r.queue| <= QUEUE_CAPACITY
  {
    if !done then Handled(Unstable, pool, queue, Some(TransferNotDone))
    else
      var (pool', queue', _) := EnqueueOrDrop(pool, queue, transfer);
      Handled(OnePending(pending), pool', queue', None)
  }

  /** One invocation of the SPIM interrupt handler. `stopped` is the STOPPED event read
      at entry, `done` whether the running transfer has finished, and `dmaOk` whether the
      HAL accepted the new transfer. A halted handler leaves `Unstable` in the slot, since
      `take()` put it there and the new state is never stored. */
  function HandleEvent(port: SpimPeriph, pool: seq<Block>, queue: seq<Block>,
                       stopped: bool, done: bool, dmaOk: bool): (r: Handled)
    // the handler halts exactly in these cases, and only then leaves the slot Unstable
    ensures r.fault == Some(SpimError) <==> port.Unstable?
    ensures r.fault == Some(StoppedWhileIdle) <==> port.Idle? && stopped
    ensures r.fault == Some(PoolEmpty) <==> ((port.Idle? && !stopped) || port.OnePending?) && pool == []
    ensures r.fault == Some(DmaRefused) <==> ((port.Idle? && !stopped) || port.OnePending?) && pool != [] && !dmaOk
    ensures r.fault == Some(TransferNotDone) <==> port.TwoPending? && !done
    ensures r.fault.Some? <==> r.port == Unstable
    // Idle -> OnePending and OnePending -> TwoPending, each with the pool's next block
    ensures port.Idle? && r.fault.None? ==>
              r == Handled(OnePending(pool[|pool| - 1]), pool[..|pool| - 1], queue, None)
    ensures port.OnePending? && r.fault.None? ==>
              r == Handled(TwoPending(port.transfer, pool[|pool| - 1]), pool[..|pool| - 1], queue, None)
    // TwoPending -> OnePending, handing the first block over or dropping it when the queue is full
    ensures port.TwoPending? && done && |queue| < QUEUE_CAPACITY ==>
              r == Handled(OnePending(port.pending), pool, queue + [port.transfer], None)
    ensures port.TwoPending? && done && |queue| >= QUEUE_CAPACITY ==>
              r == Handled(OnePending(port.pending), pool + [port.transfer], queue, None)
    // the queue stays within its capacity
    ensures |queue| <= QUEUE_CAPACITY ==> |r.queue| <= QUEUE_CAPACITY
  {
    match port
    case Unstable => Handled(Unstable, pool, queue, Some(SpimError))
    case Idle =>
      if stopped then Handled(Unstable, pool, queue, Some(StoppedWhileIdle))
      else StartTransfer(None, pool, queue, dmaOk)
    case OnePending(a) => StartTransfer(Some(a), pool, queue, dmaOk)
    case TwoPending(a, b) => Exchange(a, b, pool, queue, done)
  }

  /** A handler invocation that does not halt neither creates nor loses a block: the
      transfers, the pool and the queue together hold what they held before. */
  lemma HandleEventConserves(port: SpimPeriph, pool: seq<Block>, queue: seq<Block>,
                             stopped: bool, done: bool, dmaOk: bool)
    ensures var r := HandleEvent(port, pool, queue, stopped, done, dmaOk);
            r.fault.None? ==>
              multiset(InFlight(r.port)) + multiset(r.pool) + multiset(r.queue)
              == multiset(InFlight(port)) + multiset(pool) + multiset(queue)
  {
    var r := HandleEvent(port, pool, queue, stopped, done, dmaOk);
    if r.fault.None? {
      match port
      case Idle =>
        StartConserves(None, pool[|pool| - 1], pool[..|pool| - 1], pool, queue);
      case OnePending(a) =>
        StartConserves(Some(a), pool[|pool| - 1], pool[..|pool| - 1], pool, queue);
      case TwoPending(a, b) =>
        var (pool', queue', _) := EnqueueOrDrop(pool, queue, a);
        ExchangeConserves(a, b, pool, queue, pool', queue');
    }
  }

  /** The firmware's invariant on values: the slot holds a real state, the queue is within
      its capacity, the block in progress is valid, and the transfers, the pool, the queue
      and the block in progress together hold every block exactly as often as `blocks` does. */
  ghost predicate Invariant(port: SpimPeriph, pool: seq<Block>, queue: seq<Block>, wip: Option<Wip>,
                            blocks: multiset<Block>)
  {
    && port != Unstable
    && |queue| <= QUEUE_CAPACITY
    && WipValid(wip)
    && multiset(InFlight(port)) + multiset(pool) + multiset(queue) + WipBlocks(wip) == blocks
  }

  /** A handler invocation that does not halt keeps the invariant. */
  lemma HandlerKeepsInvariant(port: SpimPeriph, pool: seq<Block>, queue: seq<Block>,
                              stopped: bool, done: bool, dmaOk: bool, wip: Option<Wip>, blocks: multiset<Block>)
    requires Invariant(port, pool, queue, wip, blocks)
    ensures var h := HandleEvent(port, pool, queue, stopped, done, dmaOk);
            h.fault.None? ==> Invariant(h.port, h.pool, h.queue, wip, blocks)
  {
    HandleEventConserves(port, pool, queue, stopped, done, dmaOk);
  }

  /** What one handler invocation observes. */
  datatype Event = Event(stopped: bool, done: bool, dmaOk: bool)

  /** Handler invocations in sequence, up to the first fault. */
  function Run(port: SpimPeriph, pool: seq<Block>, queue: seq<Block>, evs: seq<Event>): Handled
    decreases |evs|
  {
    if evs == [] then Handled(port, pool, queue, None)
    else
      var h := HandleEvent(port, pool, queue, evs[0].stopped, evs[0].done, evs[0].dmaOk);
      if h.fault.Some? then h else Run(h.port, h.pool, h.queue, evs[1..])
  }

  function Reversed(s: seq<Block>): seq<Block>
    decreases |s|
  {
    if s == [] then [] else [s[|s| - 1]] + Reversed(s[..|s| - 1])
  }

  lemma ReversedSnoc(s: seq<Block>, b: Block)
    ensures Reversed(s + [b]) == [b] + Reversed(s)
  {
    assert (s + [b])[..|s|] == s;
  }

  /** The sequence reasoning of one induction step of `HandoverKeepsOrder`. */
  lemma CombineOrder(before: seq<Block>, pool: seq<Block>, pool1: seq<Block>, mid: seq<Block>,
                     pool2: seq<Block>, after: seq<Block>)
    requires (pool1 == pool && mid == before)
             || (pool != [] && pool1 == pool[..|pool| - 1] && mid == before + [pool[|pool| - 1]])
    requires |pool2| <= |pool1| && pool2 == pool1[..|pool2|] && after == mid + Reversed(pool1[|pool2|..])
    ensures |pool2| <= |pool| && pool2 == pool[..|pool2|] && after == before + Reversed(pool[|pool2|..])
  {
    if pool1 != pool {
      var k := |pool2|;
      var b := pool[|pool| - 1];
      assert pool == pool1 + [b];
      assert pool[..k] == pool1[..k];
      assert pool[k..] == pool1[k..] + [b];
      ReversedSnoc(pool1[k..], b);
    }
  }

  /** One handler invocation with room in the queue either leaves the pool alone and
      moves blocks inside the pipeline, or takes the top block of the pool and appends it
      behind everything already queued or under transfer. */
  lemma StepKeepsOrder(port: SpimPeriph, pool: seq<Block>, queue: seq<Block>, e: Event)
    requires |queue| < QUEUE_CAPACITY
    ensures var h := HandleEvent(port, pool, queue, e.stopped, e.done, e.dmaOk);
            h.fault.None? ==>
              && |h.queue| <= |queue| + 1
              && ((h.pool == pool && h.queue + InFlight(h.port) == queue + InFlight(port))
                  || (pool != [] && h.pool == pool[..|pool| - 1]
                      && h.queue + InFlight(h.port) == queue + InFlight(port) + [pool[|pool| - 1]]))
  {
  }

  /** The double buffer never reorders: as long as the queue does not overflow, the
      blocks waiting in the queue followed by those still under transfer are the ones
      that were there before followed by the blocks taken from the pool, in the order they
      were taken; the pool only shrinks from its top. */
  lemma {:induction false} HandoverKeepsOrder(port: SpimPeriph, pool: seq<Block>, queue: seq<Block>, evs: seq<Event>)
    requires |queue| + |evs| <= QUEUE_CAPACITY
    ensures var r := Run(port, pool, queue, evs);
            r.fault.None? ==>
              && |r.pool| <= |pool| && r.pool == pool[..|r.pool|]
              && r.queue + InFlight(r.port) == queue + InFlight(port) + Reversed(pool[|r.pool|..])
    decreases |evs|
  {
    if evs == [] {
      assert pool[|pool|..] == [];
      assert pool[..|pool|] == pool;
    } else {
      var h := HandleEvent(port, pool, queue, evs[0].stopped, evs[0].done, evs[0].dmaOk);
      StepKeepsOrder(port, pool, queue, evs[0]);
      if h.fault.None? {
        assert Run(port, pool, queue, evs) == Run(h.port, h.pool, h.queue, evs[1..]);
        HandoverKeepsOrder(h.port, h.pool, h.queue, evs[1..]);
        var r := Run(h.port, h.pool, h.queue, evs[1..]);
        if r.fault.None? {
          CombineOrder(queue + InFlight(port), pool, h.pool, h.queue + InFlight(h.port), r.pool,
                       r.queue + InFlight(r.port));
        }
      }
    }
  }

  /** The firmware's shared state: the peripheral slot, the block pool, the block queue
      and the idle loop's block in progress. */
  class SpiPerf {
    var port: SpimPeriph
    var pool: seq<Block>
    var queue: seq<Block>
    var wip: Option<Wip>
    /** All blocks the pool was grown with. */
    ghost var blocks: multiset<Block>

    ghost predicate Valid()
      reads this
    {
      Invariant(port, pool, queue, wip, blocks)
    }

    /** After `init`: the pool grown with the given blocks, the peripheral idle. */
    constructor (grown: seq<Block>)
      ensures Valid()
      ensures port == Idle && pool == grown && queue == [] && wip == None
      ensures blocks == multiset(grown)
    {
      port := Idle;
      pool := grown;
      queue := [];
      wip := None;
      blocks := multiset(grown);
    }

    /** `SpimPeriph::take`: returns the stored state and leaves `Unstable` in its place. */
    method Take() returns (prev: SpimPeriph)
      modifies this`port
      ensures prev == old(port) && port == Unstable
    {
      prev := port;
      port := Unstable;
    }

    /** The `Idle` and `OnePending` arms after their checks on the slot: allocate a
        block and start a transfer into it; see `StartTransfer`. On a fault `next` is
        `Unstable`. */
    method StartArm(running: Option<Block>, dmaOk: bool) returns (next: SpimPeriph, fault: Option<Fault>)
      modifies this`pool
      ensures Handled(next, pool, queue, fault) == StartTransfer(running, old(pool), queue, dmaOk)
    {
      if pool == [] {
        return Unstable, Some(PoolEmpty);
      }
      var pbox := pool[|pool| - 1];
      if !dmaOk {
        return Unstable, Some(DmaRefused);
      }
      pool := pool[..|pool| - 1];
      next, fault := Started(running, pbox), None;
    }

    /** The `TwoPending` arm; see `Exchange`. */
    method ExchangeArm(transfer: Block, pending: Block, done: bool) returns (next: SpimPeriph, fault: Option<Fault>)
      modifies this`pool, this`queue
      ensures Handled(next, pool, queue, fault) == Exchange(transfer, pending, old(pool), old(queue), done)
    {
      if !done {
        return Unstable, Some(TransferNotDone);
      }
      var rxb := transfer;
      if |queue| < QUEUE_CAPACITY {
        queue := queue + [rxb];
      } else {
        // "Failed to send box!": the block is dropped and returns to the pool
        pool := pool + [rxb];
      }
      next, fault := OnePending(pending), None;
    }

    /** The handler's `match` on the state taken out of the slot. On a fault `next` is
        `Unstable`. */
    method Dispatch(prev: SpimPeriph, stopped: bool, done: bool, dmaOk: bool)
      returns (next: SpimPeriph, fault: Option<Fault>)
      modifies this`pool, this`queue
      ensures Handled(next, pool, queue, fault) == HandleEvent(prev, old(pool), old(queue), stopped, done, dmaOk)
      ensures fault.Some? <==> next == Unstable
    {
      match prev {
        case Idle =>
          if stopped {
            return Unstable, Some(StoppedWhileIdle);
          }
          next, fault := StartArm(None, dmaOk);
        case OnePending(ts) =>
          next, fault := StartArm(Some(ts), dmaOk);
        case TwoPending(transfer, pending) =>
          next, fault := ExchangeArm(transfer, pending, done);
        case Unstable =>
          return Unstable, Some(SpimError);
      }
    }

    /** The SPIM interrupt handler; see `HandleEvent`. */
    method SpimP0(stopped: bool, done: bool, dmaOk: bool) returns (fault: Option<Fault>)
      requires Valid()
      modifies this`port, this`pool, this`queue
      ensures Handled(port, pool, queue, fault) == HandleEvent(old(port), old(pool), old(queue), stopped, done, dmaOk)
      ensures fault.None? ==> Valid()
    {
      HandlerKeepsInvariant(port, pool, queue, stopped, done, dmaOk, wip, blocks);
      var prev := Take();
      var next;
      next, fault := Dispatch(prev, stopped, done, dmaOk);
      if fault.Some? {
        // the handler panics here, leaving `Unstable` in the slot
        return;
      }
      Store(next);
    }

    /** Puts the new state back into the slot. */
    method Store(next: SpimPeriph)
      requires Invariant(next, pool, queue, wip, blocks)
      modifies this`port
      ensures port == next && Valid()
    {
      port := next;
    }

    /** One idle-loop pass: nothing happens until the USB device is configured; then one
        drain step (see `Blocks.Drain`), a finished block going back to the pool. */
    method IdlePass(configured: bool, res: WriteResult) returns (halted: bool)
      requires Valid()
      modifies this`wip, this`queue, this`pool
      ensures !configured ==> !halted && wip == old(wip) && queue == old(queue) && pool == old(pool)
      ensures configured ==>
                var d := Drain(old(wip), old(queue), res);
                wip == d.wip && queue == d.queue && pool == old(pool) + ToSeq(d.freed) && halted == d.halted
      ensures !halted ==> Valid()
    {
      halted := false;
      if !configured {
        return;
      }
      var d := Drain(wip, queue, res);
      if !d.halted {
        Rebalance(multiset(InFlight(port)), multiset(pool), multiset(ToSeq(d.freed)),
                  multiset(queue), WipBlocks(wip), multiset(d.queue), WipBlocks(d.wip));
      }
      wip, queue, pool, halted := d.wip, d.queue, pool + ToSeq(d.freed), d.halted;
    }
  }
}
