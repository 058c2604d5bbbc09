/** The encoding stage and the transport drain of the capture firmware's idle loop.

    Reports travel from the capture interrupts to the idle loop through a 32-slot queue
    (`POOL_QUEUE`). The idle loop encodes at most one report per pass into the 32 KiB byte
    ring (`ENCODED_QUEUE`), and only after it has obtained a write grant of 1024 + 4096
    bytes; then it offers the readable bytes of the ring to the USB serial port and
    releases exactly the bytes the port accepted.

    The ring is modelled by its committed-but-unreleased bytes, oldest first. Serialising
    a report and framing the serialised bytes are external encoders, passed in as
    functions. */
module EncodedRing {
  import opened Common

  /** Capacity of `ENCODED_QUEUE` (`BBBuffer<U32768>`). */
  const RING_CAPACITY: nat := 32768

  /** Size of the exact write grant requested before encoding one report. */
  const GRANT_SIZE: nat := 1024 + 4096

  /** Capacity of `POOL_QUEUE` (`MpMcQueue<_, 32>`). */
  const REPORT_QUEUE_CAPACITY: nat := 32

  datatype Encoded<R> = Encoded(reports: seq<R>, ring: seq<byte>, pushed: u32, halted: bool)

  /** One encode step. `grantOk` is whether `grant_exact(GRANT_SIZE)` succeeded, which
      the ring can only do while it has that much room. `serialize` stands for
      serialisation into the 5 KiB scratch buffer (`None` when it fails) and `frame` for
      the framing encoder, which fails when its output does not fit the grant. Either
      failure is an `unwrap` that halts the firmware. */
  function Encode<R>(reports: seq<R>, ring: seq<byte>, pushed: u32, grantOk: bool,
                     serialize: R -> Option<seq<byte>>, frame: seq<byte> -> seq<byte>)
    : (r: Encoded<R>)
    requires grantOk ==> |ring| + GRANT_SIZE <= RING_CAPACITY
    // no grant, or nothing queued: nothing changes
    ensures !grantOk || reports == [] ==> r == Encoded(reports, ring, pushed, false)
    // with a grant, exactly one report is taken from the front of the queue
    ensures grantOk && reports != [] ==> r.reports == reports[1..]
    ensures r.halted <==> grantOk && reports != [] &&
                          (serialize(reports[0]).None? || |frame(serialize(reports[0]).value)| > GRANT_SIZE)
    // ... and exactly its encoded bytes are committed behind what the ring held
    ensures grantOk && reports != [] && !r.halted ==>
              var bytes := frame(serialize(reports[0]).value);
              && r.ring == ring + bytes
              && r.pushed == WrappingAdd(pushed, |bytes|)
    ensures |ring| <= RING_CAPACITY ==> |r.ring| <= RING_CAPACITY
  {
    if !grantOk || reports == [] then Encoded(reports, ring, pushed, false)
    else
      match serialize(reports[0])
      case None => Encoded(reports[1..], ring, pushed, true)
      case Some(record) =>
        var bytes := frame(record);
        if |bytes| > GRANT_SIZE then Encoded(reports[1..], ring, pushed, true)
        else Encoded(reports[1..], ring + bytes, WrappingAdd(pushed, |bytes|), false)
  }

  datatype Drained = Drained(ring: seq<byte>, delivered: seq<byte>, pulled: u32, halted: bool)

  /** One drain step. When the ring holds bytes, the read grant covers its first
      `Min(contiguous, |ring|)` bytes: the contiguous readable region, which is never
      empty and may stop short of the end of the ring. The grant is offered to `write`. The
      port's answer decides how much is released: `Ok(n)` releases `n` (a release larger
      than the grant is clamped to the grant) and adds `n` to the pull counter;
      `WouldBlock` releases nothing; any other error releases nothing and halts. */
  function Drain(ring: seq<byte>, pulled: u32, contiguous: nat, res: WriteResult): (r: Drained)
    requires 0 < contiguous
    // nothing readable: nothing happens
    ensures ring == [] ==> r == Drained(ring, [], pulled, false)
    // released bytes leave from the front, in order; nothing is lost or duplicated
    ensures r.delivered + r.ring == ring
    ensures |r.delivered| <= contiguous
    ensures ring != [] && res.Written? ==>
              |r.delivered| == Min(res.n, Min(contiguous, |ring|)) && r.pulled == WrappingAdd(pulled, res.n) && !r.halted
    ensures ring != [] && res.WouldBlock? ==> r == Drained(ring, [], pulled, false)
    ensures ring != [] && res.WriteError? ==> r == Drained(ring, [], pulled, true)
  {
    if ring == [] then Drained(ring, [], pulled, false)
    else
      match res
      case Written(n) =>
        var released := Min(n, Min(contiguous, |ring|));
        Drained(ring[released..], ring[..released], WrappingAdd(pulled, n), false)
      case WouldBlock => Drained(ring, [], pulled, false)
      case WriteError => Drained(ring, [], pulled, true)
  }
}
