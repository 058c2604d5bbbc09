/** The run / fuse / cooldown logic of the capture firmware's idle loop.

    `FUSE` is the global kill switch read by every capture source; `running` is the
    operator's view of whether capture is on; `fuseTimeout` holds the tick at which a
    cooldown began. Each idle-loop pass (when the USB device is configured) first acts on
    a debounced `Low` edge of the start/stop button, then expires a pending cooldown, then
    turns a fuse that was blown while running into a stop with a cooldown. */
module FuseControl {
  import opened Common
  import opened Debounce

  /** A cooldown ends once strictly more than this many milliseconds have passed. */
  const COOLDOWN_MS: nat := 2500

  datatype Control = Control(running: bool, fuseTimeout: Option<Tick>, fuse: bool)

  /** The state at boot: not running, no cooldown, and `FUSE` initialised to `true`. */
  const BOOT: Control := Control(false, None, true)

  /** A cooldown is only ever pending while stopped with the fuse blown. */
  ghost predicate Consistent(c: Control)
  {
    c.fuseTimeout.Some? ==> c.fuse && !c.running
  }

  /** The button branch: a `Low` edge stops a running capture by blowing the fuse, is
      ignored while a cooldown is pending, and otherwise clears the fuse and starts. */
  function OnEdge(c: Control, edge: Option<Level>): (r: Control)
    ensures edge != Some(Low) ==> r == c
    ensures edge == Some(Low) && c.running ==> r == c.(fuse := true, running := false)
    ensures edge == Some(Low) && !c.running && c.fuseTimeout.Some? ==> r == c
    ensures edge == Some(Low) && !c.running && c.fuseTimeout.None? ==> r == c.(fuse := false, running := true)
    ensures r.fuseTimeout == c.fuseTimeout
  {
    if edge == Some(Low) then
      if c.running then c.(fuse := true, running := false)
      else if c.fuseTimeout.Some? then c
      else c.(fuse := false, running := true)
    else c
  }

  /** The cooldown branch: an expired cooldown is dropped; the fuse is deliberately left
      blown, so only an explicit start clears it. */
  function Cooldown(c: Control, millisSince: Tick -> nat): (r: Control)
    ensures r.running == c.running && r.fuse == c.fuse
    ensures r.fuseTimeout.None? <==> c.fuseTimeout.None? || millisSince(c.fuseTimeout.value) > COOLDOWN_MS
    ensures r.fuseTimeout.Some? ==> r.fuseTimeout == c.fuseTimeout
  {
    match c.fuseTimeout
    case None => c
    case Some(tick) => if millisSince(tick) > COOLDOWN_MS then c.(fuseTimeout := None) else c
  }

  /** The fuse check: a fuse found blown while running stops capture and starts a
      cooldown stamped `now`. */
  function FuseCheck(c: Control, now: Tick): (r: Control)
    ensures c.running && c.fuseTimeout.None? && c.fuse ==> r == Control(false, Some(now), true)
    ensures !(c.running && c.fuseTimeout.None? && c.fuse) ==> r == c
  {
    if c.running && c.fuseTimeout.None? && c.fuse then Control(false, Some(now), true) else c
  }

  /** One pass of the control section. `tripped` says whether another context stored
      `true` into `FUSE` after the button branch and before the fuse check loaded it. */
  function ControlStep(c: Control, edge: Option<Level>, millisSince: Tick -> nat, tripped: bool, now: Tick)
    : (r: Control)
    // FUSE goes from blown to clear only in the start branch
    ensures c.fuse && !r.fuse ==> edge == Some(Low) && !c.running && c.fuseTimeout.None? && !tripped
    // running switches on only in the start branch
    ensures !c.running && r.running ==> edge == Some(Low) && c.fuseTimeout.None? && !r.fuse
    // start: fuse cleared, running; a trip in the same pass turns it into a cooldown
    ensures edge == Some(Low) && !c.running && c.fuseTimeout.None? ==>
              r == if tripped then Control(false, Some(now), true) else Control(true, None, false)
    // manual stop: fuse blown, stopped, and no cooldown is started
    ensures edge == Some(Low) && c.running && Consistent(c) ==> r == Control(false, None, true)
    // while a cooldown is pending nothing but its expiry changes
    ensures c.fuseTimeout.Some? && Consistent(c) ==> r == Cooldown(c, millisSince)
    // a fuse blown while running (no edge) stops and starts a cooldown at `now`
    ensures edge != Some(Low) && c.running && c.fuseTimeout.None? && (c.fuse || tripped) ==>
              r == Control(false, Some(now), true)
    // a started cooldown is stamped with the current tick
    ensures r.fuseTimeout.Some? && r.fuseTimeout != c.fuseTimeout ==> r.fuseTimeout == Some(now) && r.fuse && !r.running
    ensures Consistent(c) ==> Consistent(r)
  {
    var afterEdge := OnEdge(c, edge);
    var cooled := Cooldown(afterEdge, millisSince);
    var loaded := cooled.(fuse := cooled.fuse || tripped);
    FuseCheck(loaded, now)
  }

  /** The inputs of one control pass. */
  datatype PassInput = PassInput(edge: Option<Level>, now: Tick, millisSince: Tick -> nat, tripped: bool)

  function RunControl(c: Control, ins: seq<PassInput>): Control
    decreases |ins|
  {
    if ins == [] then c
    else RunControl(ControlStep(c, ins[0].edge, ins[0].millisSince, ins[0].tripped, ins[0].now), ins[1..])
  }

  /** While a cooldown has not run out, every pass leaves the whole control state as it
      is: button presses are ignored, capture stays stopped and the fuse stays blown. */
  lemma {:induction false} CoolingHolds(c: Control, ins: seq<PassInput>)
    requires c.fuseTimeout.Some? && Consistent(c)
    requires forall i :: 0 <= i < |ins| ==> ins[i].millisSince(c.fuseTimeout.value) <= COOLDOWN_MS
    ensures RunControl(c, ins) == c
    decreases |ins|
  {
    if ins != [] {
      var next := ControlStep(c, ins[0].edge, ins[0].millisSince, ins[0].tripped, ins[0].now);
      assert next == c;
      CoolingHolds(c, ins[1..]);
    }
  }

  /** No pass without a `Low` edge ever clears the fuse or starts capture: the fuse is
      re-armed only by an operator action. */
  lemma {:induction false} NoAutoRestart(c: Control, ins: seq<PassInput>)
    requires forall i :: 0 <= i < |ins| ==> ins[i].edge != Some(Low)
    ensures c.fuse ==> RunControl(c, ins).fuse
    ensures !c.running ==> !RunControl(c, ins).running
    decreases |ins|
  {
    if ins != [] {
      var next := ControlStep(c, ins[0].edge, ins[0].millisSince, ins[0].tripped, ins[0].now);
      NoAutoRestart(next, ins[1..]);
    }
  }

  /** Every state reachable from boot is consistent. */
  lemma {:induction false} RunConsistent(c: Control, ins: seq<PassInput>)
    requires Consistent(c)
    ensures Consistent(RunControl(c, ins))
    decreases |ins|
  {
    if ins != [] {
      RunConsistent(ControlStep(c, ins[0].edge, ins[0].millisSince, ins[0].tripped, ins[0].now), ins[1..]);
    }
  }
}
