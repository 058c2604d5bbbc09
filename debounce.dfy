/** The start/stop button debouncer of the capture firmware (`ButtonDebounce::poll`).

    The raw input is sampled once per idle-loop pass. A reading that differs from the
    stable level moves the machine to a `Maybe*` state stamped with the current tick;
    the new level is committed, and exactly one edge emitted, only once it has held
    for the settle window. A reading that flips back first is treated as noise. */
module Debounce {
  import opened Common

  datatype Level = Low | High

  datatype ButtonDebounce =
    | StableLow
    | StableHigh
    | MaybeLow(since: Tick)
    | MaybeHigh(since: Tick)

  /** Minimum time, in milliseconds, a new reading must hold before it is committed. */
  const SETTLE_MS: nat := 5

  function Opposite(l: Level): (r: Level)
    ensures r != l
  {
    match l
    case Low => High
    case High => Low
  }

  /** The only edge a state can emit next: a `Low` edge is reachable only through
      `MaybeLow`, which is entered only from `StableHigh`, and symmetrically. */
  function NextEdge(s: ButtonDebounce): Level
  {
    match s
    case StableHigh => Low
    case MaybeLow(_) => Low
    case StableLow => High
    case MaybeHigh(_) => High
  }

  /** One poll: `now` is the tick read by `timer.get_ticks()` and `millisSince(t)` the
      milliseconds the timer reports as elapsed since tick `t`. The match arms are tried
      in the source's order, so the revert arm wins over the timeout arm. */
  function Poll(s: ButtonDebounce, isLow: bool, now: Tick, millisSince: Tick -> nat)
    : (r: (ButtonDebounce, Option<Level>))
    // an edge is emitted exactly when leaving a Maybe state whose reading held for the window
    ensures r.1 == Some(Low) <==> s.MaybeLow? && isLow && millisSince(s.since) >= SETTLE_MS
    ensures r.1 == Some(High) <==> s.MaybeHigh? && !isLow && millisSince(s.since) >= SETTLE_MS
    ensures r.1 == Some(Low) ==> r.0 == StableLow
    ensures r.1 == Some(High) ==> r.0 == StableHigh
    // a reading that flips back reverts to the previous stable state, whatever the elapsed time
    ensures s.MaybeHigh? && isLow ==> r == (StableLow, None)
    ensures s.MaybeLow? && !isLow ==> r == (StableHigh, None)
    // leaving a stable state records the current tick
    ensures s == StableHigh && isLow ==> r == (MaybeLow(now), None)
    ensures s == StableLow && !isLow ==> r == (MaybeHigh(now), None)
    // every other combination keeps the state and emits nothing
    ensures r.0 == s <==> r.1.None? && !(s.StableHigh? && isLow) && !(s.StableLow? && !isLow)
                          && !(s.MaybeHigh? && isLow) && !(s.MaybeLow? && !isLow)
    // edges alternate: an emitted edge is the expected one, and flips the expectation
    ensures r.1.Some? ==> r.1.value == NextEdge(s) && NextEdge(r.0) == Opposite(r.1.value)
    ensures r.1.None? ==> NextEdge(r.0) == NextEdge(s)
  {
    match s
    case StableHigh => if isLow then (MaybeLow(now), None) else (s, None)
    case StableLow => if !isLow then (MaybeHigh(now), None) else (s, None)
    case MaybeHigh(start) =>
      if isLow then (StableLow, None)
      else if millisSince(start) >= SETTLE_MS then (StableHigh, Some(High))
      else (s, None)
    case MaybeLow(start) =>
      if !isLow then (StableHigh, None)
      else if millisSince(start) >= SETTLE_MS then (StableLow, Some(Low))
      else (s, None)
  }

  /** One sampled reading: the raw level, the tick at the sample and the timer's view of
      elapsed milliseconds at that moment. */
  datatype Sample = Sample(isLow: bool, now: Tick, millisSince: Tick -> nat)

  function EdgeList(e: Option<Level>): seq<Level>
  {
    match e
    case None => []
    case Some(l) => [l]
  }

  /** Polls the debouncer once per sample, returning the final state and the emitted edges. */
  function Run(s: ButtonDebounce, samples: seq<Sample>): (ButtonDebounce, seq<Level>)
    decreases |samples|
  {
    if samples == [] then (s, [])
    else
      var (s1, e) := Poll(s, samples[0].isLow, samples[0].now, samples[0].millisSince);
      var (sn, es) := Run(s1, samples[1..]);
      (sn, EdgeList(e) + es)
  }

  /** Consecutive edges differ. */
  ghost predicate Alternating(es: seq<Level>)
  {
    forall i :: 0 <= i < |es| - 1 ==> es[i + 1] == Opposite(es[i])
  }

  lemma ConsAlternating(e: Level, es: seq<Level>)
    requires Alternating(es)
    requires |es| > 0 ==> es[0] == Opposite(e)
    ensures Alternating([e] + es)
  {
    var all := [e] + es;
    forall i | 0 <= i < |all| - 1 ensures all[i + 1] == Opposite(all[i]) {
      if i > 0 {
        assert all[i] == es[i - 1] && all[i + 1] == es[i];
      }
    }
  }

  /** Over any sequence of samples the emitted edges alternate, starting with the edge
      the initial state expects; in particular two `Low` edges (two start/stop presses)
      are always separated by a `High` edge (a release). */
  lemma {:induction false} RunEdgesAlternate(s: ButtonDebounce, samples: seq<Sample>)
    ensures |Run(s, samples).1| > 0 ==> Run(s, samples).1[0] == NextEdge(s)
    ensures Alternating(Run(s, samples).1)
    ensures NextEdge(Run(s, samples).0)
            == if Run(s, samples).1 == [] then NextEdge(s) else Opposite(Run(s, samples).1[|Run(s, samples).1| - 1])
    decreases |samples|
  {
    if samples != [] {
      var p := Poll(s, samples[0].isLow, samples[0].now, samples[0].millisSince);
      var rest := Run(p.0, samples[1..]);
      RunEdgesAlternate(p.0, samples[1..]);
      assert Run(s, samples) == (rest.0, EdgeList(p.1) + rest.1);
      if p.1.Some? {
        ConsAlternating(p.1.value, rest.1);
        assert EdgeList(p.1) + rest.1 == [p.1.value] + rest.1;
      } else {
        assert EdgeList(p.1) + rest.1 == rest.1;
      }
    }
  }
}
