/** The 4 KiB block pool, the block queue and the partial-write drain shared by the SPI
    and USB throughput firmwares.

    Blocks come from a fixed pool (`pool!(A: [u8; 4096])`); a dropped block goes back to
    it. Producers hand filled blocks to the idle loop through a single-producer /
    single-consumer queue declared with 64 slots, which holds at most 63 blocks.

    The idle loop keeps at most one block "in progress" together with the offset of its
    first unsent byte. While a block is in progress, each pass offers the rest of it to the
    USB serial port; only when none is in progress does the pass take the next block from
    the block queue, at offset 0. A finished block is dropped, which returns it to its
    pool. */
module Blocks {
  import opened Common

  /** `spsc::Queue<_, 64>` keeps one slot free, so it holds at most 63 blocks. */
  const QUEUE_CAPACITY: nat := 63

  /** `A::alloc()`: the pool hands out its most recently returned block, or nothing when
      it is empty. The result is the block and the rest of the pool. */
  function Alloc(pool: seq<Block>): (r: Option<(Block, seq<Block>)>)
    ensures r.None? <==> pool == []
    ensures r.Some? ==> r.value.1 + [r.value.0] == pool
    ensures r.Some? ==> multiset(r.value.1) + multiset{r.value.0} == multiset(pool)
  {
    if pool == [] then None
    else
      assert pool == pool[..|pool| - 1] + [pool[|pool| - 1]];
      Some((pool[|pool| - 1], pool[..|pool| - 1]))
  }

  /** `box_prod.enqueue(b)`: the block joins the back of the queue when there is room;
      otherwise the producer drops it, which returns it to the pool. Either way no block
      is lost, and a refused block is never offered again. The result is the new pool,
      the new queue and whether the queue took the block. */
  function EnqueueOrDrop(pool: seq<Block>, queue: seq<Block>, b: Block): (r: (seq<Block>, seq<Block>, bool))
    ensures r.2 <==> |queue| < QUEUE_CAPACITY
    ensures r.2 ==> r.0 == pool && r.1 == queue + [b]
    ensures !r.2 ==> r.0 == pool + [b] && r.1 == queue
    ensures |queue| <= QUEUE_CAPACITY ==> |r.1| <= QUEUE_CAPACITY
    ensures multiset(r.0) + multiset(r.1) == multiset(pool) + multiset(queue) + multiset{b}
  {
    if |queue| < QUEUE_CAPACITY then (pool, queue + [b], true)
    else (pool + [b], queue, false)
  }

  /** A block in progress and the number of its bytes already accepted by the port. */
  datatype Wip = Wip(offset: nat, box: Block)

  /** What one drain pass leaves behind: the new work in progress, the block queue, the
      block released back to the pool (if one finished), and whether the pass halted. */
  datatype Drained = Drained(wip: Option<Wip>, queue: seq<Block>, freed: Option<Block>, halted: bool)

  ghost predicate WipValid(wip: Option<Wip>)
  {
    wip.Some? ==> wip.value.offset < BLOCK_SIZE
  }

  function WipBlocks(wip: Option<Wip>): multiset<Block>
  {
    match wip
    case None => multiset{}
    case Some(w) => multiset{w.box}
  }

  /** An optional block as a sequence of none or one block. */
  function ToSeq(b: Option<Block>): seq<Block>
  {
    match b
    case None => []
    case Some(x) => [x]
  }

  /** One pass of the drain. `res` is what `serial.write(&box[offset..])` answered; it is
      only consulted when a block is in progress. */
  function Drain(wip: Option<Wip>, queue: seq<Block>, res: WriteResult): (r: Drained)
    requires WipValid(wip)
    ensures !r.halted ==> WipValid(r.wip)
    // a block is dequeued, at offset 0, only when none is in progress
    ensures wip.None? && queue != [] ==> r == Drained(Some(Wip(0, queue[0])), queue[1..], None, false)
    ensures wip.None? && queue == [] ==> r == Drained(None, [], None, false)
    ensures wip.Some? ==> r.queue == queue
    // the offset of the block in progress only grows, by exactly what the port accepted
    ensures wip.Some? && res.Written? && res.n >= BLOCK_SIZE - wip.value.offset ==>
              r == Drained(None, queue, Some(wip.value.box), false)
    ensures wip.Some? && res.Written? && res.n < BLOCK_SIZE - wip.value.offset ==>
              r == Drained(Some(Wip(wip.value.offset + res.n, wip.value.box)), queue, None, false)
    ensures wip.Some? && res.WouldBlock? ==> r == Drained(wip, queue, None, false)
    ensures wip.Some? && r.wip.Some? ==> r.wip.value.box == wip.value.box && r.wip.value.offset >= wip.value.offset
    // any other write error halts
    ensures r.halted <==> wip.Some? && res.WriteError?
    // no block is created or lost
    ensures !r.halted ==> WipBlocks(r.wip) + multiset(r.queue) + multiset(ToSeq(r.freed)) == WipBlocks(wip) + multiset(queue)
  {
    match wip
    case Some(Wip(offset, box)) =>
      var remaining := BLOCK_SIZE - offset;
      (match res
       case Written(n) =>
         if n >= remaining then Drained(None, queue, Some(box), false)
         else Drained(Some(Wip(offset + n, box)), queue, None, false)
       case WouldBlock => Drained(wip, queue, None, false)
       case WriteError => Drained(None, queue, None, true))
    case None =>
      if queue != [] then
        assert queue == [queue[0]] + queue[1..];
        Drained(Some(Wip(0, queue[0])), queue[1..], None, false)
      else Drained(None, queue, None, false)
  }

  /** The number of bytes the port accepted over a sequence of answers. */
  function Accepted(results: seq<WriteResult>): nat
  {
    if results == [] then 0
    else (if results[0].Written? then results[0].n else 0) + Accepted(results[1..])
  }

  /** One drain pass per answer, stopping early once a pass halts, finishes the block in
      progress or finds none. */
  function DrainRun(wip: Option<Wip>, queue: seq<Block>, results: seq<WriteResult>): Drained
    requires WipValid(wip)
    decreases |results|
  {
    if results == [] then Drained(wip, queue, None, false)
    else
      var d := Drain(wip, queue, results[0]);
      if d.halted || d.freed.Some? || d.wip.None? then d
      else DrainRun(d.wip, d.queue, results[1..])
  }

  /** While the port keeps answering without error and has accepted fewer bytes than the
      block has left, the block stays in progress, the queue is untouched, and the offset
      is exactly the starting offset plus the accepted bytes. */
  lemma {:induction false} OffsetCountsAcceptedBytes(w: Wip, queue: seq<Block>, results: seq<WriteResult>)
    requires w.offset < BLOCK_SIZE
    requires forall i :: 0 <= i < |results| ==> !results[i].WriteError?
    requires w.offset + Accepted(results) < BLOCK_SIZE
    ensures DrainRun(Some(w), queue, results) == Drained(Some(Wip(w.offset + Accepted(results), w.box)), queue, None, false)
    decreases |results|
  {
    if results != [] {
      var d := Drain(Some(w), queue, results[0]);
      var n := if results[0].Written? then results[0].n else 0;
      assert Accepted(results) == n + Accepted(results[1..]);
      assert d == Drained(Some(Wip(w.offset + n, w.box)), queue, None, false);
      OffsetCountsAcceptedBytes(Wip(w.offset + n, w.box), queue, results[1..]);
    }
  }

  /** A drain pass that does not halt keeps the total of the pool, the queue and the
      block in progress once the freed block is back in the pool. */
  lemma DrainConserves(pool: seq<Block>, wip: Option<Wip>, queue: seq<Block>, res: WriteResult)
    requires WipValid(wip)
    ensures var d := Drain(wip, queue, res);
            !d.halted ==>
              multiset(pool + ToSeq(d.freed)) + multiset(d.queue) + WipBlocks(d.wip)
              == multiset(pool) + multiset(queue) + WipBlocks(wip)
  {
    var d := Drain(wip, queue, res);
    if !d.halted {
      var lhs := multiset(pool + ToSeq(d.freed)) + multiset(d.queue) + WipBlocks(d.wip);
      var rhs := multiset(pool) + multiset(queue) + WipBlocks(wip);
      forall o ensures lhs[o] == rhs[o] {
        assert (WipBlocks(d.wip) + multiset(d.queue) + multiset(ToSeq(d.freed)))[o]
               == (WipBlocks(wip) + multiset(queue))[o];
      }
    }
  }

  /** Moving blocks between holders keeps the total: if the block in progress, the queue
      and the freed blocks together hold what the block in progress and the queue held,
      the pool can take the freed blocks without changing the total. Multiset equality is
      shown count by count. */
  lemma Rebalance(inFlight: multiset<Block>, pool: multiset<Block>, freed: multiset<Block>,
                  queue: multiset<Block>, wip: multiset<Block>, queue': multiset<Block>, wip': multiset<Block>)
    requires wip' + queue' + freed == wip + queue
    ensures inFlight + (pool + freed) + queue' + wip' == inFlight + pool + queue + wip
  {
    forall o ensures (inFlight + (pool + freed) + queue' + wip')[o] == (inFlight + pool + queue + wip)[o] {
      assert (wip' + queue' + freed)[o] == (wip + queue)[o];
    }
  }
}
