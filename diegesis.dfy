/** The idle task of the capture firmware (`diegesis`).

    Every turn of the idle loop records the time since the previous turn, polls the USB
    device and, once the device is configured, runs the start/stop/fuse section, encodes at
    most one report into the byte ring and drains the ring into the USB serial port. */
module Diegesis {
  import opened Common
  import opened Debounce
  import opened FuseControl
  import opened EncodedRing

  /** The profiling window, in milliseconds, after which the loop statistics restart. */
  const PROFILE_MS: nat := 1000

  // ---------------------------------------------------------------------------------
  // Loop-time statistics

  /** The statistics after a window in which the given loop times were observed,
      starting from the reset values `0xFFFFFFFF` and `0`. */
  function Stats(es: seq<u32>): (u32, u32)
    decreases |es|
  {
    if es == [] then (U32_MAX, 0)
    else
      var (lo, hi) := Stats(es[..|es| - 1]);
      (Min(lo, es[|es| - 1]), Max(hi, es[|es| - 1]))
  }

  /** After a window, `min_ticks` is the smallest observed loop time and `max_ticks` the
      largest; with no observation they hold their reset values. */
  lemma {:induction false} StatsAreExtremes(es: seq<u32>)
    ensures es == [] ==> Stats(es) == (U32_MAX, 0)
    ensures forall i :: 0 <= i < |es| ==> Stats(es).0 <= es[i] <= Stats(es).1
    ensures es != [] ==> Stats(es).0 in es && Stats(es).1 in es
    decreases |es|
  {
    if es != [] {
      var init := es[..|es| - 1];
      StatsAreExtremes(init);
      assert es == init + [es[|es| - 1]];
      forall i | 0 <= i < |es| ensures Stats(es).0 <= es[i] <= Stats(es).1 {
        if i < |es| - 1 {
          assert es[i] == init[i];
        }
      }
      if init != [] {
        assert Stats(init).0 in es && Stats(init).1 in es;
      }
    }
  }

  // ---------------------------------------------------------------------------------
  // Encoding followed by draining

  /** What the encode and drain sections together do to the report queue, the byte ring
      and the profiler's counters: `appended` is what the encoder committed behind the
      ring, `sent` what the port accepted from its front. */
  datatype Transferred<R> = Transferred(reports: seq<R>, ring: seq<byte>, pushed: u32, pulled: u32,
                                        appended: seq<byte>, sent: seq<byte>, halted: bool)

  /** The encode section fails, halting the firmware: a report was taken under a grant,
      but it did not serialise or its frame did not fit the grant. */
  predicate EncoderFails<R>(reports: seq<R>, grantOk: bool,
                            serialize: R -> Option<seq<byte>>, frame: seq<byte> -> seq<byte>)
  {
    && grantOk && reports != []
    && (serialize(reports[0]).None? || |frame(serialize(reports[0]).value)| > GRANT_SIZE)
  }

  /** The encode section and then, unless it halted, the drain section. */
  function Transfer<R>(reports: seq<R>, ring: seq<byte>, pushed: u32, pulled: u32, grantOk: bool,
                       serialize: R -> Option<seq<byte>>, frame: seq<byte> -> seq<byte>,
                       contiguous: nat, res: WriteResult): (r: Transferred<R>)
    requires grantOk ==> |ring| + GRANT_SIZE <= RING_CAPACITY
    requires 0 < contiguous
    // the bytes the ring held, then the new ones, are what was sent followed by what is held
    ensures !r.halted ==> ring + r.appended == r.sent + r.ring
    ensures |ring| <= RING_CAPACITY ==> |r.ring| <= RING_CAPACITY
    // no grant or no report: nothing is encoded and the queue is untouched
    ensures !grantOk || reports == [] ==> r.appended == [] && r.reports == reports && r.pushed == pushed
    // at most one report is taken, and never more than the read grant is sent
    ensures grantOk && reports != [] ==> r.reports == reports[1..]
    ensures |r.sent| <= contiguous
    // the encoder commits exactly the framed report, or halts before anything is drained
    ensures grantOk && reports != [] && !EncoderFails(reports, grantOk, serialize, frame) ==>
              && r.appended == frame(serialize(reports[0]).value)
              && r.pushed == WrappingAdd(pushed, |r.appended|)
    ensures EncoderFails(reports, grantOk, serialize, frame) ==>
              r.halted && r.appended == [] && r.sent == [] && r.pulled == pulled
    // the drain works on the ring as the encoder left it
    ensures !EncoderFails(reports, grantOk, serialize, frame) && res.Written? && ring + r.appended != [] ==>
              && |r.sent| == Min(res.n, Min(contiguous, |ring + r.appended|))
              && r.pulled == WrappingAdd(pulled, res.n)
    ensures !EncoderFails(reports, grantOk, serialize, frame) && (res.WouldBlock? || ring + r.appended == []) ==>
              r.sent == [] && r.pulled == pulled && r.ring == ring + r.appended
    // the firmware halts exactly on an encoder failure or a port error with bytes to send
    ensures r.halted <==> EncoderFails(reports, grantOk, serialize, frame)
                          || (res.WriteError? && ring + r.appended != [])
  {
    var e := Encode(reports, ring, pushed, grantOk, serialize, frame);
    if e.halted then Transferred(e.reports, e.ring, e.pushed, pulled, [], [], true)
    else
      var d := Drain(e.ring, pulled, contiguous, res);
      assert e.ring == ring + e.ring[|ring|..];
      Transferred(e.reports, d.ring, e.pushed, d.pulled, e.ring[|ring|..], d.delivered, d.halted)
  }

  // ---------------------------------------------------------------------------------
  // The idle-loop state, together with the statics it shares with the interrupts

  class IdleLoop<R> {
    var button: ButtonDebounce
    var running: bool
    var fuseTimeout: Option<Tick>
    /** The global `FUSE` flag. */
    var fuse: bool
    var lastLoop: Tick
    var lastProfile: Tick
    var minTicks: u32
    var maxTicks: u32
    /** `POOL_QUEUE`: reports waiting to be encoded, oldest first. */
    var reports: seq<R>
    /** `ENCODED_QUEUE`: committed bytes not yet released, oldest first. */
    var ring: seq<byte>
    /** The profiler's `bbq_push_bytes` and `bbq_pull_bytes` counters. */
    var pushBytes: u32
    var pullBytes: u32
    /** Every byte ever committed to the ring, and every byte the USB port accepted. */
    ghost var committed: seq<byte>
    ghost var delivered: seq<byte>
    /** The loop times observed since the statistics were last reset. */
    ghost var window: seq<u32>

    function Control(): Control
      reads this`running, this`fuseTimeout, this`fuse
    {
      FuseControl.Control(running, fuseTimeout, fuse)
    }

    ghost predicate Valid()
      reads this
    {
      && |reports| <= REPORT_QUEUE_CAPACITY
      && |ring| <= RING_CAPACITY
      && committed == delivered + ring
      && Consistent(Control())
      && (minTicks, maxTicks) == Stats(window)
    }

    /** `min_ticks` and `max_ticks` are the extremes of the loop times of the current
        window, or the reset values when none has been observed. */
    lemma ExtremesSoFar()
      requires Valid()
      ensures window == [] ==> minTicks == U32_MAX && maxTicks == 0
      ensures forall i :: 0 <= i < |window| ==> minTicks <= window[i] <= maxTicks
      ensures window != [] ==> minTicks in window && maxTicks in window
    {
      StatsAreExtremes(window);
    }

    /** The state when the idle task starts at tick `start`. */
    constructor (start: Tick)
      ensures Valid()
      ensures button == StableHigh && Control() == BOOT
      ensures lastLoop == start && lastProfile == start
      ensures minTicks == U32_MAX && maxTicks == 0
      ensures reports == [] && ring == [] && pushBytes == 0 && pullBytes == 0
      ensures committed == [] && delivered == [] && window == []
    {
      button := StableHigh;
      running := false;
      fuseTimeout := None;
      fuse := true;
      lastLoop, lastProfile := start, start;
      minTicks, maxTicks := U32_MAX, 0;
      reports, ring := [], [];
      pushBytes, pullBytes := 0, 0;
      committed, delivered := [], [];
      window := [];
    }

    /** A capture source hands over a report: the queue refuses it when full. The capture
        sources themselves are not part of this model. */
    method Enqueue(rpt: R) returns (accepted: bool)
      requires Valid()
      modifies this`reports
      ensures Valid()
      ensures accepted <==> |old(reports)| < REPORT_QUEUE_CAPACITY
      ensures reports == if accepted then old(reports) + [rpt] else old(reports)
    {
      accepted := |reports| < REPORT_QUEUE_CAPACITY;
      if accepted {
        reports := reports + [rpt];
      }
    }

    /** Start of every turn: fold the time since the previous turn into the statistics. */
    method TrackLoop(elapsed: u32, now: Tick)
      requires Valid()
      modifies this`minTicks, this`maxTicks, this`lastLoop, this`window
      ensures Valid()
      ensures minTicks == Min(old(minTicks), elapsed) && maxTicks == Max(old(maxTicks), elapsed)
      ensures lastLoop == now && window == old(window) + [elapsed]
    {
      assert (window + [elapsed])[..|window|] == window;
      minTicks := Min(minTicks, elapsed);
      maxTicks := Max(maxTicks, elapsed);
      lastLoop := now;
      window := window + [elapsed];
    }

    /** The button branch; see `FuseControl.OnEdge`. */
    method OnButton(edge: Option<Level>)
      modifies this`running, this`fuse
      ensures Control() == OnEdge(old(Control()), edge)
    {
      if edge == Some(Low) {
        if running {
          // stopping by blowing the fuse
          fuse := true;
          running := false;
        } else if fuseTimeout.Some? {
          // waiting for the cooldown: not starting
        } else {
          fuse := false;
          running := true;
        }
      }
    }

    /** The cooldown branch; see `FuseControl.Cooldown`. */
    method ExpireCooldown(millisSince: Tick -> nat)
      modifies this`fuseTimeout
      ensures Control() == Cooldown(old(Control()), millisSince)
    {
      if fuseTimeout.Some? {
        var tick := fuseTimeout.value;
        if millisSince(tick) > COOLDOWN_MS {
          // the cooldown is over, but the fuse stays blown until an explicit start
          fuseTimeout := None;
        }
      }
    }

    /** The fuse check, after the capture sources may have blown the fuse (`tripped`);
        see `FuseControl.FuseCheck`. */
    method CheckFuse(tripped: bool, now: Tick)
      modifies this`running, this`fuse, this`fuseTimeout
      ensures Control() == FuseCheck(old(Control()).(fuse := old(fuse) || tripped), now)
    {
      if tripped {
        fuse := true;
      }
      if running && fuseTimeout.None? && fuse {
        fuseTimeout := Some(now);
        running := false;
      }
    }

    /** Once per profiling window the statistics restart and the profiler's counters are
        cleared. */
    method ProfileWindow(now: Tick, millisSince: Tick -> nat)
      requires Valid()
      modifies this`pushBytes, this`pullBytes, this`lastProfile, this`minTicks, this`maxTicks, this`window
      ensures Valid()
      ensures millisSince(old(lastProfile)) >= PROFILE_MS ==>
                minTicks == U32_MAX && maxTicks == 0 && lastProfile == now && pushBytes == 0 && pullBytes == 0
                && window == []
      ensures millisSince(old(lastProfile)) < PROFILE_MS ==>
                minTicks == old(minTicks) && maxTicks == old(maxTicks) && lastProfile == old(lastProfile)
                && pushBytes == old(pushBytes) && pullBytes == old(pullBytes) && window == old(window)
    {
      if millisSince(lastProfile) >= PROFILE_MS {
        pushBytes, pullBytes := 0, 0;
        lastProfile := now;
        minTicks, maxTicks := U32_MAX, 0;
        window := [];
      }
    }

    /** The start/stop/fuse section: poll the button, act on a `Low` edge, expire the
        cooldown and check the fuse. */
    method StartStop(isActive: bool, now: Tick, millisSince: Tick -> nat, tripped: bool)
      requires Valid()
      modifies this`button, this`running, this`fuseTimeout, this`fuse
      ensures Valid()
      ensures var (b, edge) := Poll(old(button), isActive, now, millisSince);
              button == b && Control() == ControlStep(old(Control()), edge, millisSince, tripped, now)
    {
      var polled := Poll(button, isActive, now, millisSince);
      button := polled.0;
      OnButton(polled.1);
      ExpireCooldown(millisSince);
      CheckFuse(tripped, now);
    }

    /** The encode section: with a grant, take one report, serialise and frame it, and
        commit exactly the framed length; see `EncodedRing.Encode`. */
    method EncodeOne(grantOk: bool, serialize: R -> Option<seq<byte>>, frame: seq<byte> -> seq<byte>)
      returns (halted: bool)
      requires Valid()
      requires grantOk ==> |ring| + GRANT_SIZE <= RING_CAPACITY
      modifies this`reports, this`ring, this`pushBytes, this`committed
      ensures Encoded(reports, ring, pushBytes, halted)
              == Encode(old(reports), old(ring), old(pushBytes), grantOk, serialize, frame)
      ensures !halted ==> Valid() && committed == old(committed) + ring[|old(ring)|..]
    {
      halted := false;
      if grantOk && reports != [] {
        var rpt := reports[0];
        reports := reports[1..];
        var record := serialize(rpt);
        if record.None? {
          return true;
        }
        var bytes := frame(record.value);
        if |bytes| > GRANT_SIZE {
          return true;
        }
        ring := ring + bytes;
        committed := committed + bytes;
        pushBytes := WrappingAdd(pushBytes, |bytes|);
        assert ring[|old(ring)|..] == bytes;
      }
    }

    /** The drain section: offer the readable bytes to the port and release what it
        accepted; see `EncodedRing.Drain`. */
    method DrainOne(contiguous: nat, res: WriteResult) returns (halted: bool)
      requires Valid()
      requires 0 < contiguous
      modifies this`ring, this`pullBytes, this`delivered
      ensures var d := Drain(old(ring), old(pullBytes), contiguous, res);
              ring == d.ring && pullBytes == d.pulled && halted == d.halted
              && delivered == old(delivered) + d.delivered
      ensures Valid()
    {
      halted := false;
      if ring != [] {
        var grant := Min(contiguous, |ring|);
        match res
        case Written(n) =>
          pullBytes := WrappingAdd(pullBytes, n);
          var released := Min(n, grant);
          delivered := delivered + ring[..released];
          ring := ring[released..];
        case WouldBlock =>
        case WriteError =>
          halted := true;
      }
    }

    /** One turn of the idle loop. The inputs stand for what the hardware, the timer and
        the external encoders answer during the turn. */
    method Pass(elapsed: u32, now: Tick, configured: bool, isActive: bool,
                millisSince: Tick -> nat, tripped: bool,
                grantOk: bool, serialize: R -> Option<seq<byte>>, frame: seq<byte> -> seq<byte>,
                contiguous: nat, res: WriteResult)
      returns (halted: bool)
      requires Valid()
      requires grantOk ==> |ring| + GRANT_SIZE <= RING_CAPACITY
      requires 0 < contiguous
      modifies this
      ensures !halted ==> Valid()
      ensures lastLoop == now
      // until the device is configured only the loop statistics move
      ensures !configured ==>
                && !halted && Control() == old(Control()) && button == old(button)
                && reports == old(reports) && ring == old(ring)
                && pushBytes == old(pushBytes) && pullBytes == old(pullBytes) && lastProfile == old(lastProfile)
                && committed == old(committed) && delivered == old(delivered)
                && minTicks == Min(old(minTicks), elapsed) && maxTicks == Max(old(maxTicks), elapsed)
                && window == old(window) + [elapsed]
      ensures configured ==>
                var (b, edge) := Poll(old(button), isActive, now, millisSince);
                button == b && Control() == ControlStep(old(Control()), edge, millisSince, tripped, now)
      // the profiling window restarts, or the statistics keep this turn's time
      ensures configured && millisSince(old(lastProfile)) >= PROFILE_MS ==>
                minTicks == U32_MAX && maxTicks == 0 && lastProfile == now && window == []
      ensures configured && millisSince(old(lastProfile)) < PROFILE_MS ==>
                && minTicks == Min(old(minTicks), elapsed) && maxTicks == Max(old(maxTicks), elapsed)
                && lastProfile == old(lastProfile) && window == old(window) + [elapsed]
      // encode, then drain, from the counters as the profiling window left them
      ensures configured ==>
                var reset := millisSince(old(lastProfile)) >= PROFILE_MS;
                var t := Transfer(old(reports), old(ring), if reset then 0 else old(pushBytes),
                                  if reset then 0 else old(pullBytes), grantOk, serialize, frame, contiguous, res);
                && reports == t.reports && ring == t.ring && pushBytes == t.pushed && pullBytes == t.pulled
                && halted == t.halted
                && (!halted ==> committed == old(committed) + t.appended && delivered == old(delivered) + t.sent)
    {
      TrackLoop(elapsed, now);
      if configured {
        halted := ConfiguredPass(now, isActive, millisSince, tripped, grantOk, serialize, frame, contiguous, res);
      } else {
        halted := false;
      }
    }

    /** The part of a turn that runs once the USB device is configured: the start/stop
        section, the profiling window, then encoding and draining. */
    method ConfiguredPass(now: Tick, isActive: bool, millisSince: Tick -> nat, tripped: bool,
                          grantOk: bool, serialize: R -> Option<seq<byte>>, frame: seq<byte> -> seq<byte>,
                          contiguous: nat, res: WriteResult)
      returns (halted: bool)
      requires Valid()
      requires grantOk ==> |ring| + GRANT_SIZE <= RING_CAPACITY
      requires 0 < contiguous
      modifies this`button, this`running, this`fuseTimeout, this`fuse
      modifies this`pushBytes, this`pullBytes, this`lastProfile, this`minTicks, this`maxTicks, this`window
      modifies this`reports, this`ring, this`committed, this`delivered
      ensures !halted ==> Valid()
      ensures var (b, edge) := Poll(old(button), isActive, now, millisSince);
              button == b && Control() == ControlStep(old(Control()), edge, millisSince, tripped, now)
      ensures millisSince(old(lastProfile)) >= PROFILE_MS ==>
                minTicks == U32_MAX && maxTicks == 0 && lastProfile == now && window == []
      ensures millisSince(old(lastProfile)) < PROFILE_MS ==>
                minTicks == old(minTicks) && maxTicks == old(maxTicks) && lastProfile == old(lastProfile)
                && window == old(window)
      ensures var reset := millisSince(old(lastProfile)) >= PROFILE_MS;
              var t := Transfer(old(reports), old(ring), if reset then 0 else old(pushBytes),
                                if reset then 0 else old(pullBytes), grantOk, serialize, frame, contiguous, res);
              && reports == t.reports && ring == t.ring && pushBytes == t.pushed && pullBytes == t.pulled
              && halted == t.halted
              && (!halted ==> committed == old(committed) + t.appended && delivered == old(delivered) + t.sent)
    {
      StartStop(isActive, now, millisSince, tripped);
      halted := ProfiledTransport(now, millisSince, grantOk, serialize, frame, contiguous, res);
    }

    /** The profiling window, then encoding and draining from the counters it left. */
    method ProfiledTransport(now: Tick, millisSince: Tick -> nat,
                             grantOk: bool, serialize: R -> Option<seq<byte>>, frame: seq<byte> -> seq<byte>,
                             contiguous: nat, res: WriteResult)
      returns (halted: bool)
      requires Valid()
      requires grantOk ==> |ring| + GRANT_SIZE <= RING_CAPACITY
      requires 0 < contiguous
      modifies this`pushBytes, this`pullBytes, this`lastProfile, this`minTicks, this`maxTicks, this`window
      modifies this`reports, this`ring, this`committed, this`delivered
      ensures !halted ==> Valid()
      ensures millisSince(old(lastProfile)) >= PROFILE_MS ==>
                minTicks == U32_MAX && maxTicks == 0 && lastProfile == now && window == []
      ensures millisSince(old(lastProfile)) < PROFILE_MS ==>
                minTicks == old(minTicks) && maxTicks == old(maxTicks) && lastProfile == old(lastProfile)
                && window == old(window)
      ensures var reset := millisSince(old(lastProfile)) >= PROFILE_MS;
              var t := Transfer(old(reports), old(ring), if reset then 0 else old(pushBytes),
                                if reset then 0 else old(pullBytes), grantOk, serialize, frame, contiguous, res);
              && reports == t.reports && ring == t.ring && pushBytes == t.pushed && pullBytes == t.pulled
              && halted == t.halted
              && (!halted ==> committed == old(committed) + t.appended && delivered == old(delivered) + t.sent)
    {
      ghost var reset := millisSince(lastProfile) >= PROFILE_MS;
      ghost var pushed := if reset then 0 else pushBytes;
      ghost var pulled := if reset then 0 else pullBytes;
      ProfileWindow(now, millisSince);
      assert pushBytes == pushed && pullBytes == pulled;
      halted := Transport(grantOk, serialize, frame, contiguous, res);
    }

    /** The encode section followed, unless it halted, by the drain section. */
    method Transport(grantOk: bool, serialize: R -> Option<seq<byte>>, frame: seq<byte> -> seq<byte>,
                     contiguous: nat, res: WriteResult)
      returns (halted: bool)
      requires Valid()
      requires grantOk ==> |ring| + GRANT_SIZE <= RING_CAPACITY
      requires 0 < contiguous
      modifies this`reports, this`ring, this`pushBytes, this`pullBytes, this`committed, this`delivered
      ensures !halted ==> Valid()
      ensures var t := Transfer(old(reports), old(ring), old(pushBytes), old(pullBytes),
                                grantOk, serialize, frame, contiguous, res);
              && reports == t.reports && ring == t.ring && pushBytes == t.pushed && pullBytes == t.pulled
              && halted == t.halted
              && (!halted ==> committed == old(committed) + t.appended && delivered == old(delivered) + t.sent)
    {
      halted := EncodeOne(grantOk, serialize, frame);
      if halted {
        return;
      }
      halted := DrainOne(contiguous, res);
    }
  }
}
