/** The USB throughput firmware (`usb-perf`): a synthetic block producer.

    A 200 Hz timer interrupt allocates a 4 KiB block from the pool, fills it with 256
    lines of fifteen copies of the current letter and a newline, and hands it to the idle
    loop through the block queue; the letter advances through 'a'..'z' with every block.
    When the pool is empty the producer backs off: each failure lengthens the number of
    ticks it waits before trying again. The idle loop drains the queued blocks into the
    USB serial port with the partial-write drain of `Blocks.Drain`. */
module UsbPerf {
  import opened Common
  import opened Blocks

  const LETTER_A: byte := 97   // b'a'
  const LETTER_Z: byte := 122  // b'z'
  const NEWLINE: byte := 10    // b'\n'

  /** Length of one line of the fill pattern (`chunks_mut(16)`). */
  const LINE_LEN: nat := 16

  // ---------------------------------------------------------------------------------
  // The letter cycle

  predicate IsLetter(c: byte)
  {
    LETTER_A <= c <= LETTER_Z
  }

  /** `CUR_CHAR` before each fill: any value at or above 'z' restarts at 'a', anything
      else moves on by one. */
  function NextChar(c: byte): (r: byte)
    ensures IsLetter(c) ==> IsLetter(r)
    // 'z', and any value past it, wraps round to 'a'; every other value moves on by one
    ensures c >= LETTER_Z ==> r == LETTER_A
    ensures c < LETTER_Z ==> r == c + 1
  {
    if c >= LETTER_Z then LETTER_A else c + 1
  }

  /** The letter after `n` advances. */
  function Advance(c: byte, n: nat): byte
    decreases n
  {
    if n == 0 then c else NextChar(Advance(c, n - 1))
  }

  /** Starting from a letter, `n` advances land on the letter `n` places further on in
      the alphabet, counted modulo 26. */
  lemma {:induction false} AdvanceIsModular(c: byte, n: nat)
    requires IsLetter(c)
    ensures Advance(c, n) == LETTER_A + (c - LETTER_A + n) % 26
    decreases n
  {
    if n > 0 {
      AdvanceIsModular(c, n - 1);
      var k := (c - LETTER_A + n - 1) % 26;
      assert Advance(c, n - 1) == LETTER_A + k;
      if k == 25 {
        assert (c - LETTER_A + n) % 26 == 0;
      } else {
        assert (c - LETTER_A + n) % 26 == k + 1;
      }
    }
  }

  /** The letters cycle with period exactly 26: the same letter comes back after 26
      blocks and never sooner. */
  lemma LetterPeriod(c: byte, n: nat)
    requires IsLetter(c)
    ensures IsLetter(Advance(c, n))
    ensures Advance(c, n) == c <==> n % 26 == 0
  {
    AdvanceIsModular(c, n);
    var x := c - LETTER_A;
    ModSplit(x, n);
    var m := n % 26;
    if x + m >= 26 {
      assert (x + m) % 26 == x + m - 26;
    } else {
      assert (x + m) % 26 == x + m;
    }
  }

  lemma ModSplit(x: nat, n: nat)
    ensures (x + n) % 26 == (x + n % 26) % 26
  {
    ModAddMultiple(x + n % 26, n / 26);
    assert x + n == x + n % 26 + 26 * (n / 26);
  }

  lemma {:induction false} ModAddMultiple(a: nat, q: nat)
    ensures (a + 26 * q) % 26 == a % 26
    decreases q
  {
    if q > 0 {
      ModAddMultiple(a, q - 1);
      assert a + 26 * q == (a + 26 * (q - 1)) + 26;
    }
  }

  // ---------------------------------------------------------------------------------
  // The fill pattern

  /** The content the fill gives a buffer of `len` bytes: the letter everywhere except the
      last byte of every 16-byte chunk, which is a newline. */
  function LinePattern(len: nat, c: byte): seq<byte>
  {
    seq(len, i requires 0 <= i < len => if i % LINE_LEN == LINE_LEN - 1 || i == len - 1 then NEWLINE else c)
  }

  function Line(c: byte): seq<byte>
  {
    seq(LINE_LEN, i requires 0 <= i < LINE_LEN => if i == LINE_LEN - 1 then NEWLINE else c)
  }

  /** A filled block is 256 lines, each fifteen copies of the letter and a newline, and
      its first byte tells the letter. */
  lemma BlockIsLines(c: byte)
    ensures |LinePattern(BLOCK_SIZE, c)| == 256 * LINE_LEN
    ensures forall k :: 0 <= k < 256 ==> LinePattern(BLOCK_SIZE, c)[k * LINE_LEN..(k + 1) * LINE_LEN] == Line(c)
    ensures LinePattern(BLOCK_SIZE, c)[0] == c
  {
    var s := LinePattern(BLOCK_SIZE, c);
    forall k | 0 <= k < 256 ensures s[k * LINE_LEN..(k + 1) * LINE_LEN] == Line(c) {
      var line := s[k * LINE_LEN..(k + 1) * LINE_LEN];
      forall i | 0 <= i < LINE_LEN ensures line[i] == Line(c)[i] {
        assert line[i] == s[k * LINE_LEN + i];
        assert (k * LINE_LEN + i) % LINE_LEN == i;
      }
    }
  }

  /** The fill of one block in place: every 16-byte chunk is set to the letter, then its
      last byte to a newline. */
  method Fill(block: array<byte>, c: byte)
    modifies block
    ensures block[..] == LinePattern(block.Length, c)
  {
    var start := 0;
    while start < block.Length
      invariant 0 <= start <= block.Length
      invariant start % LINE_LEN == 0 || start == block.Length
      invariant forall i :: 0 <= i < start ==> block[i] == LinePattern(block.Length, c)[i]
    {
      var end := if start + LINE_LEN <= block.Length then start + LINE_LEN else block.Length;
      var j := start;
      while j < end
        invariant start <= j <= end
        invariant forall i :: 0 <= i < start ==> block[i] == LinePattern(block.Length, c)[i]
        invariant forall i :: start <= i < j ==> block[i] == c
      {
        block[j] := c;
        j := j + 1;
      }
      block[end - 1] := NEWLINE;
      forall i | start <= i < end - 1
        ensures i % LINE_LEN != LINE_LEN - 1 && i != block.Length - 1
      {
        assert i % LINE_LEN == i - start;
      }
      assert end == block.Length || (end - 1) % LINE_LEN == LINE_LEN - 1;
      start := end;
    }
  }

  // ---------------------------------------------------------------------------------
  // The allocation backoff

  /** `BACKOFF_CUR` and `BACKOFF_THR`. */
  datatype Backoff = Backoff(cur: byte, thr: byte)

  /** `BACKOFF_THR += 1` as written: a `u8` that wraps from 255 to 0 (or, in a build with
      overflow checks, panics). */
  function ThresholdAfterFailureAsWritten(thr: byte): (r: byte)
    ensures thr < 255 ==> r == thr + 1
    ensures thr == 255 ==> r == 0
  {
    (thr + 1) % 0x100
  }

  /** The evidently intended increment: it saturates at 255. */
  function ThresholdAfterFailure(thr: byte): (r: byte)
    ensures r >= thr && r >= 1
    ensures thr < 255 ==> r == thr + 1
  {
    if thr < 255 then thr + 1 else 255
  }

  /** The backoff after one tick, and whether the tick tried to allocate. `available` is
      whether the pool had a block. */
  function BackoffStep(b: Backoff, available: bool): (r: (Backoff, bool))
    // BACKOFF_CUR counts down, saturating at 0, and the tick tries only once it reaches 0
    ensures r.1 <==> b.cur <= 1
    ensures !r.1 ==> r.0 == Backoff(b.cur - 1, b.thr)
    // a success resets the threshold
    ensures r.1 && available ==> r.0 == Backoff(0, 0)
    // a failure raises the threshold and waits that long
    ensures r.1 && !available ==> r.0.thr > b.thr || r.0.thr == 255
    ensures r.1 && !available ==> r.0.cur == r.0.thr && r.0.thr >= 1
  {
    var cur := if b.cur == 0 then 0 else b.cur - 1;
    if cur != 0 then (Backoff(cur, b.thr), false)
    else if available then (Backoff(0, 0), true)
    else
      var thr := ThresholdAfterFailure(b.thr);
      (Backoff(thr, thr), true)
  }

  /** The same step with the increment as written. */
  function BackoffStepAsWritten(b: Backoff, available: bool): (Backoff, bool)
  {
    var cur := if b.cur == 0 then 0 else b.cur - 1;
    if cur != 0 then (Backoff(cur, b.thr), false)
    else if available then (Backoff(0, 0), true)
    else
      var thr := ThresholdAfterFailureAsWritten(b.thr);
      (Backoff(thr, thr), true)
  }

  /** Which of a sequence of ticks try to allocate, given the pool's availability at each. */
  function Attempts(b: Backoff, available: seq<bool>): (r: seq<bool>)
    ensures |r| == |available|
    decreases |available|
  {
    if available == [] then []
    else
      var (b', tried) := BackoffStep(b, available[0]);
      [tried] + Attempts(b', available[1..])
  }

  /** After a failure that set the threshold to `k`, the next `k - 1` ticks skip the
      allocation and the `k`-th tries again, whatever the pool holds meanwhile. */
  lemma {:induction false} FailureWaits(k: byte, thr: byte, available: seq<bool>)
    requires 1 <= k && k <= |available|
    ensures forall j :: 0 <= j < k - 1 ==> !Attempts(Backoff(k, thr), available)[j]
    ensures Attempts(Backoff(k, thr), available)[k - 1]
    decreases k
  {
    var (b', tried) := BackoffStep(Backoff(k, thr), available[0]);
    var rest := Attempts(b', available[1..]);
    assert Attempts(Backoff(k, thr), available) == [tried] + rest;
    if k > 1 {
      assert b' == Backoff(k - 1, thr) && !tried;
      FailureWaits(k - 1, thr, available[1..]);
    }
  }

  /** Consecutive failed attempts, each after the wait the previous one set. */
  function FailAttempts(thr: byte, n: nat): byte
    decreases n
  {
    if n == 0 then thr else ThresholdAfterFailure(FailAttempts(thr, n - 1))
  }

  /** With the saturating increment the wait after `n` consecutive failures from a reset
      threshold is `n` ticks, capped at 255: it never shrinks while the pool stays empty. */
  lemma {:induction false} FailuresLengthenWait(n: nat)
    ensures FailAttempts(0, n) == Min(n, 255)
    decreases n
  {
    if n > 0 {
      FailuresLengthenWait(n - 1);
    }
  }

  /** As written, the 256th consecutive failure wraps the threshold to 0: instead of
      waiting 256 ticks, the producer tries again on the very next tick. */
  lemma BackoffWrapsAsWritten()
    ensures BackoffStepAsWritten(Backoff(1, 255), false) == (Backoff(0, 0), true)
    ensures BackoffStepAsWritten(Backoff(0, 0), false).1
    ensures BackoffStep(Backoff(1, 255), false) == (Backoff(255, 255), true)
  {
  }

  // ---------------------------------------------------------------------------------
  // The timer tick

  /** The producer's statics, the pool and the queue after one tick, and the block that
      was filled, if any. */
  datatype Produced = Produced(backoff: Backoff, curChar: byte, pool: seq<Block>, queue: seq<Block>,
                               filled: Option<Block>)

  /** One timer tick, apart from the fill itself: count the backoff down; when it allows,
      allocate, advance the letter and hand the block to the queue, or drop it back to the
      pool (never to be retried) when the queue is full. */
  function ProducerTick(b: Backoff, curChar: byte, pool: seq<Block>, queue: seq<Block>): (r: Produced)
    ensures var (b', tried) := BackoffStep(b, pool != []); r.backoff == b'
    // skipped or failed ticks change nothing but the backoff
    ensures b.cur > 1 || pool == [] ==> r == Produced(r.backoff, curChar, pool, queue, None)
    // a successful allocation takes the top block, fills it with the next letter and offers it
    ensures b.cur <= 1 && pool != [] ==>
              var bx := pool[|pool| - 1];
              && r.filled == Some(bx) && r.curChar == NextChar(curChar)
              && (|queue| < QUEUE_CAPACITY ==> r.pool == pool[..|pool| - 1] && r.queue == queue + [bx])
              && (|queue| >= QUEUE_CAPACITY ==> r.pool == pool && r.queue == queue)
    ensures |queue| <= QUEUE_CAPACITY ==> |r.queue| <= QUEUE_CAPACITY
    ensures IsLetter(curChar) ==> IsLetter(r.curChar)
  {
    var (b', tried) := BackoffStep(b, pool != []);
    if !tried then Produced(b', curChar, pool, queue, None)
    else
      match Alloc(pool)
      case None => Produced(b', curChar, pool, queue, None)
      case Some((bx, rest)) =>
        var c := NextChar(curChar);
        var (pool', queue', _) := EnqueueOrDrop(rest, queue, bx);
        assert |queue| >= QUEUE_CAPACITY ==> pool' == pool;
        Produced(b', c, pool', queue', Some(bx))
  }

  /** A tick neither creates nor loses a block: the pool and the queue together hold
      what they held before. */
  lemma ProducerTickConserves(b: Backoff, curChar: byte, pool: seq<Block>, queue: seq<Block>)
    ensures var r := ProducerTick(b, curChar, pool, queue);
            multiset(r.pool) + multiset(r.queue) == multiset(pool) + multiset(queue)
  {
    var r := ProducerTick(b, curChar, pool, queue);
    if r.filled.Some? {
      var (bx, rest) := Alloc(pool).value;
      var (pool', queue', _) := EnqueueOrDrop(rest, queue, bx);
      assert r.pool == pool' && r.queue == queue';
    }
  }

  /** A tick while the backoff is still counting down only counts. */
  lemma TickWaits(b: Backoff, curChar: byte, pool: seq<Block>, queue: seq<Block>)
    requires b.cur > 1
    ensures ProducerTick(b, curChar, pool, queue) == Produced(Backoff(b.cur - 1, b.thr), curChar, pool, queue, None)
  {
  }

  /** A tick that finds the pool empty only raises the threshold and waits for it. */
  lemma TickFails(b: Backoff, curChar: byte, queue: seq<Block>)
    requires b.cur <= 1
    ensures var thr := ThresholdAfterFailure(b.thr);
            ProducerTick(b, curChar, [], queue) == Produced(Backoff(thr, thr), curChar, [], queue, None)
  {
  }

  /** The tick that allocates, spelt out. */
  lemma TickAllocates(b: Backoff, curChar: byte, pool: seq<Block>, queue: seq<Block>)
    requires b.cur <= 1 && pool != []
    ensures |queue| < QUEUE_CAPACITY ==>
              ProducerTick(b, curChar, pool, queue)
              == Produced(Backoff(0, 0), NextChar(curChar), pool[..|pool| - 1], queue + [pool[|pool| - 1]], Some(pool[|pool| - 1]))
    ensures |queue| >= QUEUE_CAPACITY ==>
              ProducerTick(b, curChar, pool, queue)
              == Produced(Backoff(0, 0), NextChar(curChar), pool, queue, Some(pool[|pool| - 1]))
  {
  }

  /** Each block is held once and is 4 KiB long. */
  ghost predicate Distinct4K(blocks: multiset<Block>)
  {
    forall b | b in blocks :: blocks[b] == 1 && b.Length == BLOCK_SIZE
  }

  /** A 4 KiB block holding the fill pattern of the letter in its first byte. */
  ghost predicate Filled(b: Block)
    reads b
  {
    b.Length == BLOCK_SIZE && b[..] == LinePattern(BLOCK_SIZE, b[0])
  }

  /** Every block of `bs` is filled. */
  ghost predicate Patterned(bs: seq<Block>)
    reads bs
  {
    forall i | 0 <= i < |bs| :: Filled(bs[i])
  }

  lemma PatternedSuffix(bs: seq<Block>, k: nat)
    requires Patterned(bs) && k <= |bs|
    ensures Patterned(bs[k..])
  {
    assert forall i | 0 <= i < |bs| - k :: bs[k..][i] == bs[i + k];
  }

  /** The blocks on their way to the host, in the order they will be sent. */
  function OutgoingOf(wip: Option<Wip>, queue: seq<Block>): seq<Block>
  {
    ToSeq(match wip case None => None case Some(w) => Some(w.box)) + queue
  }

  ghost predicate Invariant(curChar: byte, pool: seq<Block>, queue: seq<Block>, wip: Option<Wip>, blocks: multiset<Block>)
    reads OutgoingOf(wip, queue)
  {
    && IsLetter(curChar)
    && |queue| <= QUEUE_CAPACITY
    && WipValid(wip)
    && multiset(pool) + multiset(queue) + WipBlocks(wip) == blocks
    && Distinct4K(blocks)
    // every block on its way to the host holds the fill pattern of its own letter
    && Patterned(OutgoingOf(wip, queue))
  }

  /** A drain pass that does not halt keeps the invariant: the blocks still on their way
      to the host are a suffix of those that were, and a finished block goes back to the
      pool. */
  lemma DrainKeepsInvariant(curChar: byte, pool: seq<Block>, queue: seq<Block>, wip: Option<Wip>,
                            blocks: multiset<Block>, res: WriteResult)
    requires Invariant(curChar, pool, queue, wip, blocks)
    ensures var d := Drain(wip, queue, res);
            !d.halted ==> Invariant(curChar, pool + ToSeq(d.freed), d.queue, d.wip, blocks)
  {
    var d := Drain(wip, queue, res);
    if !d.halted {
      DrainConserves(pool, wip, queue, res);
      var out := OutgoingOf(wip, queue);
      var k := if d.freed.Some? then 1 else 0;
      PatternedSuffix(out, k);
      DrainSendsInOrder(wip, queue, res);
    }
  }

  /** After a drain pass that does not halt, the blocks on their way to the host are those
      that were, less the finished block if there was one. */
  lemma DrainSendsInOrder(wip: Option<Wip>, queue: seq<Block>, res: WriteResult)
    requires WipValid(wip)
    ensures var d := Drain(wip, queue, res);
            !d.halted ==> OutgoingOf(d.wip, d.queue) == OutgoingOf(wip, queue)[(if d.freed.Some? then 1 else 0)..]
  {
    var d := Drain(wip, queue, res);
    match wip
    case None =>
      assert OutgoingOf(wip, queue) == queue;
      if queue != [] {
        assert OutgoingOf(d.wip, d.queue) == [queue[0]] + queue[1..];
      }
    case Some(w) =>
      var out := [w.box] + queue;
      assert OutgoingOf(wip, queue) == out;
      assert out[1..] == queue && out[0..] == out;
  }


  lemma PatternedAppend(bs: seq<Block>, b: Block)
    requires Patterned(bs) && Filled(b)
    ensures Patterned(bs + [b])
  {
  }

  /** Filling a block that is not on its way to the host leaves those that are as they were. */
  method FillOutside(out: seq<Block>, bx: Block, c: byte)
    requires bx.Length == BLOCK_SIZE && Patterned(out)
    requires forall i | 0 <= i < |out| :: out[i] != bx
    modifies bx
    ensures Patterned(out)
    ensures bx[..] == LinePattern(BLOCK_SIZE, c) && bx[0] == c && Filled(bx)
  {
    Fill(bx, c);
    BlockIsLines(c);
  }

  /** The invariant while a filled block `bx` is held outside the pool, the queue and the
      block in progress: it holds again once the block is dropped into the pool and, when
      there is room, once it is queued. */
  ghost predicate HoldingOf(curChar: byte, pool: seq<Block>, queue: seq<Block>, wip: Option<Wip>,
                            blocks: multiset<Block>, bx: Block)
    reads OutgoingOf(wip, queue), OutgoingOf(wip, queue + [bx])
  {
    && Invariant(curChar, pool + [bx], queue, wip, blocks)
    && (|queue| < QUEUE_CAPACITY ==> Invariant(curChar, pool, queue + [bx], wip, blocks))
  }

  lemma HoldingAfterFill(curChar: byte, pool: seq<Block>, queue: seq<Block>, wip: Option<Wip>,
                         blocks: multiset<Block>, bx: Block)
    requires IsLetter(curChar) && |queue| <= QUEUE_CAPACITY && WipValid(wip) && Distinct4K(blocks)
    requires multiset(pool + [bx]) + multiset(queue) + WipBlocks(wip) == blocks
    requires multiset(pool) + multiset(queue + [bx]) + WipBlocks(wip) == blocks
    requires Patterned(OutgoingOf(wip, queue))
    requires Filled(bx)
    ensures HoldingOf(curChar, pool, queue, wip, blocks, bx)
  {
    PatternedAppend(OutgoingOf(wip, queue), bx);
    assert OutgoingOf(wip, queue + [bx]) == OutgoingOf(wip, queue) + [bx];
  }

  /** The top block of the pool is a 4 KiB block that is not on its way to the host,
      and taking it from the pool accounts for it exactly once. */
  lemma TopNotOutgoing(curChar: byte, pool: seq<Block>, queue: seq<Block>, wip: Option<Wip>, blocks: multiset<Block>)
    requires Invariant(curChar, pool, queue, wip, blocks) && pool != []
    ensures var bx := pool[|pool| - 1];
            var rest := pool[..|pool| - 1];
            && bx.Length == BLOCK_SIZE
            && (forall i | 0 <= i < |OutgoingOf(wip, queue)| :: OutgoingOf(wip, queue)[i] != bx)
            && multiset(rest + [bx]) + multiset(queue) + WipBlocks(wip) == blocks
            && multiset(rest) + multiset(queue + [bx]) + WipBlocks(wip) == blocks
  {
    var bx := pool[|pool| - 1];
    var rest := pool[..|pool| - 1];
    assert pool == rest + [bx];
    assert bx in blocks;
    var out := OutgoingOf(wip, queue);
    assert multiset(out) == WipBlocks(wip) + multiset(queue);
    forall i | 0 <= i < |out| ensures out[i] != bx {
      var o := out[i];
      assert multiset(out)[o] >= 1;
      assert blocks[o] == multiset(pool)[o] + multiset(out)[o];
    }
    var lhs := multiset(rest) + multiset(queue + [bx]) + WipBlocks(wip);
    forall o ensures lhs[o] == blocks[o] {
      assert multiset(pool)[o] == multiset(rest)[o] + multiset([bx])[o];
    }
  }

  /** The allocation and fill of a timer tick: the top block of the pool gets the pattern
      of the next letter, and no block on its way to the host changes. */
  method FillTop(curChar: byte, pool: seq<Block>, queue: seq<Block>, wip: Option<Wip>, ghost blocks: multiset<Block>)
    requires Invariant(curChar, pool, queue, wip, blocks) && pool != []
    modifies pool[|pool| - 1]
    ensures HoldingOf(NextChar(curChar), pool[..|pool| - 1], queue, wip, blocks, pool[|pool| - 1])
    ensures pool[|pool| - 1][..] == LinePattern(BLOCK_SIZE, NextChar(curChar))
  {
    var bx := pool[|pool| - 1];
    TopNotOutgoing(curChar, pool, queue, wip, blocks);
    var c := NextChar(curChar);
    FillOutside(OutgoingOf(wip, queue), bx, c);
    HoldingAfterFill(c, pool[..|pool| - 1], queue, wip, blocks, bx);
  }

  /** Allocation, fill and hand-over of one block, on the producer's state: the new letter,
      pool and queue. */
  method TakeFillOffer(curChar: byte, pool: seq<Block>, queue: seq<Block>, wip: Option<Wip>, ghost blocks: multiset<Block>)
    returns (c: byte, pool': seq<Block>, queue': seq<Block>)
    requires Invariant(curChar, pool, queue, wip, blocks) && pool != []
    modifies pool[|pool| - 1]
    ensures Invariant(c, pool', queue', wip, blocks)
    ensures c == NextChar(curChar)
    ensures |queue| < QUEUE_CAPACITY ==> pool' == pool[..|pool| - 1] && queue' == queue + [pool[|pool| - 1]]
    ensures |queue| >= QUEUE_CAPACITY ==> pool' == pool && queue' == queue
    ensures pool[|pool| - 1][..] == LinePattern(BLOCK_SIZE, c)
  {
    var pbox := pool[|pool| - 1];
    var rest := pool[..|pool| - 1];
    FillTop(curChar, pool, queue, wip, blocks);
    c := NextChar(curChar);
    // `box_prod.enqueue(pbox)`; "Failed to send box!" drops the block back into the pool
    if |queue| < QUEUE_CAPACITY {
      pool', queue' := rest, queue + [pbox];
    } else {
      assert rest + [pbox] == pool;
      pool', queue' := pool, queue;
    }
  }

  /** The firmware's shared state. */
  class UsbPerf {
    var curChar: byte
    var backoffCur: byte
    var backoffThr: byte
    var pool: seq<Block>
    var queue: seq<Block>
    var wip: Option<Wip>
    /** All blocks the pool was grown with, each once. */
    ghost var blocks: multiset<Block>

    function Outgoing(): seq<Block>
      reads this
    {
      OutgoingOf(wip, queue)
    }

    ghost predicate Valid()
      reads this, Outgoing()
    {
      Invariant(curChar, pool, queue, wip, blocks)
    }

    /** After `init`: the pool grown with distinct 4 KiB blocks, nothing queued. */
    constructor (grown: seq<Block>)
      requires forall i, j :: 0 <= i < j < |grown| ==> grown[i] != grown[j]
      requires forall i :: 0 <= i < |grown| ==> grown[i].Length == BLOCK_SIZE
      ensures Valid()
      ensures curChar == LETTER_A && backoffCur == 0 && backoffThr == 0
      ensures pool == grown && queue == [] && wip == None && blocks == multiset(grown)
    {
      curChar := LETTER_A;
      backoffCur, backoffThr := 0, 0;
      pool, queue, wip := grown, [], None;
      blocks := multiset(grown);
      new;
      forall b | b in blocks ensures blocks[b] == 1 && b.Length == BLOCK_SIZE {
        DistinctCount(grown, b);
      }
    }

    /** The timer interrupt handler; see `ProducerTick` and `Fill`. */
    method Tick()
      requires Valid()
      modifies this, pool
      ensures Valid()
      ensures var r := ProducerTick(Backoff(old(backoffCur), old(backoffThr)), old(curChar), old(pool), old(queue));
              && Backoff(backoffCur, backoffThr) == r.backoff && curChar == r.curChar
              && pool == r.pool && queue == r.queue && wip == old(wip)
              && (r.filled.Some? ==> r.filled.value[..] == LinePattern(BLOCK_SIZE, curChar))
    {
      // `BACKOFF_CUR` counts down to 0 and the tick goes on only once it has reached 0
      if backoffCur > 1 {
        TickWaits(Backoff(backoffCur, backoffThr), curChar, pool, queue);
        backoffCur := backoffCur - 1;
      } else if pool == [] {
        // "No box available!": wait one tick longer than last time
        TickFails(Backoff(backoffCur, backoffThr), curChar, queue);
        backoffThr := ThresholdAfterFailure(backoffThr);
        backoffCur := backoffThr;
      } else {
        AllocatingTick();
      }
    }

    /** A tick whose backoff has run out and that finds a block in the pool. */
    method AllocatingTick()
      requires Valid() && backoffCur <= 1 && pool != []
      modifies this`backoffCur, this`pool, this`queue, this`backoffThr, this`curChar, pool[|pool| - 1]
      ensures Valid()
      ensures var r := ProducerTick(Backoff(old(backoffCur), old(backoffThr)), old(curChar), old(pool), old(queue));
              && Backoff(backoffCur, backoffThr) == r.backoff && curChar == r.curChar
              && pool == r.pool && queue == r.queue && wip == old(wip)
              && (r.filled.Some? ==> r.filled.value[..] == LinePattern(BLOCK_SIZE, curChar))
    {
      TickAllocates(Backoff(backoffCur, backoffThr), curChar, pool, queue);
      var c, p, q := TakeFillOffer(curChar, pool, queue, wip, blocks);
      CommitTick(c, p, q);
    }

    /** Stores the producer's new letter, pool and queue, which keep the invariant; the
        backoff has counted down to 0 and a successful allocation resets the threshold. */
    method CommitTick(c: byte, p: seq<Block>, q: seq<Block>)
      requires Invariant(c, p, q, wip, blocks)
      modifies this`curChar, this`backoffCur, this`backoffThr, this`pool, this`queue
      ensures curChar == c && backoffCur == 0 && backoffThr == 0 && pool == p && queue == q
      ensures Valid()
    {
      curChar, backoffCur, backoffThr, pool, queue := c, 0, 0, p, q;
    }

    /** One idle-loop pass: nothing happens until the USB device is configured; then one
        drain step, a finished block going back to the pool. */
    method IdlePass(configured: bool, res: WriteResult) returns (halted: bool)
      requires Valid()
      modifies this`wip, this`queue, this`pool
      ensures !configured ==> !halted && wip == old(wip) && queue == old(queue) && pool == old(pool)
      ensures configured ==>
                var d := Drain(old(wip), old(queue), res);
                wip == d.wip && queue == d.queue && pool == old(pool) + ToSeq(d.freed) && halted == d.halted
      ensures !halted ==> Valid()
    {
      halted := false;
      if !configured {
        return;
      }
      var d := Drain(wip, queue, res);
      DrainKeepsInvariant(curChar, pool, queue, wip, blocks, res);
      if !d.halted {
        Commit(d.wip, d.queue, pool + ToSeq(d.freed));
      } else {
        wip, queue, pool, halted := d.wip, d.queue, pool + ToSeq(d.freed), true;
      }
    }

    /** Stores a new pool, queue and block in progress that keep the invariant. */
    method Commit(w: Option<Wip>, q: seq<Block>, p: seq<Block>)
      requires Invariant(curChar, p, q, w, blocks)
      modifies this`wip, this`queue, this`pool
      ensures wip == w && queue == q && pool == p
      ensures Valid()
    {
      wip, queue, pool := w, q, p;
    }
  }

  lemma DistinctCount(s: seq<Block>, b: Block)
    requires forall i, j :: 0 <= i < j < |s| ==> s[i] != s[j]
    requires b in multiset(s)
    ensures multiset(s)[b] == 1
    decreases |s|
  {
    if s[|s| - 1] == b {
      assert s == s[..|s| - 1] + [b];
      assert b !in s[..|s| - 1];
    } else {
      assert s == s[..|s| - 1] + [s[|s| - 1]];
      DistinctCount(s[..|s| - 1], b);
    }
  }
}
