/** LED patterns of the capture board: integer colour scaling, the two ring directions,
    and the routines that load one animation plan per LED into a script array.

    A plan is a list of steps (an action, a colour, a duration, a period, a phase offset,
    a repeat mode); loading a plan into an LED's sequence gives it that plan and a
    behaviour. */
module Patterns {
  import opened Common

  // ---------------------------------------------------------------------------------
  // Colours

  datatype Rgb8 = Rgb8(r: byte, g: byte, b: byte)

  /** `u8 / u8`; a zero divisor panics, so callers must pass a nonzero one. */
  function DivChannel(x: byte, d: byte): (q: byte)
    requires d != 0
    ensures q * d <= x < (q + 1) * d
  {
    FloorDiv(x, d);
    x / d
  }

  /** `ExtRgb::div`: every channel divided, rounding down, by the same divisor. */
  function Div(c: Rgb8, d: byte): (r: Rgb8)
    requires d != 0
    ensures r.r * d <= c.r < (r.r + 1) * d
    ensures r.g * d <= c.g < (r.g + 1) * d
    ensures r.b * d <= c.b < (r.b + 1) * d
  {
    Rgb8(DivChannel(c.r, d), DivChannel(c.g, d), DivChannel(c.b, d))
  }

  /** `u8 * u8` as a release build computes it: the product modulo 256. */
  function MulChannel(x: byte, m: byte): (r: byte)
    ensures x * m < 0x100 ==> r == x * m
    ensures (x * m - r) % 0x100 == 0
  {
    (x * m) % 0x100
  }

  /** `ExtRgb::mul`: every channel multiplied by the same factor, wrapping at 256. */
  function Mul(c: Rgb8, m: byte): (r: Rgb8)
    ensures c.r * m < 0x100 ==> r.r == c.r * m
    ensures c.g * m < 0x100 ==> r.g == c.g * m
    ensures c.b * m < 0x100 ==> r.b == c.b * m
  {
    Rgb8(MulChannel(c.r, m), MulChannel(c.g, m), MulChannel(c.b, m))
  }

  /** The product of two `u8` values never exceeds `u16::MAX`. */
  lemma ProductFitsU16(x: byte, m: byte)
    ensures x * m <= 255 * 255
  {
    MulMonotone(x, 255, m);
    MulMonotone(m, 255, 255);
  }

  lemma MulMonotone(a: nat, b: nat, c: nat)
    requires a <= b
    ensures a * c <= b * c
  {
    assert b * c == a * c + (b - a) * c;
  }

  /** Division rounds down: the quotient times the divisor does not exceed the dividend,
      and one more would. */
  lemma FloorDiv(n: nat, d: nat)
    requires d > 0
    ensures (n / d) * d <= n < (n / d + 1) * d
  {
    var q := n / d;
    assert n == q * d + n % d;
    assert (q + 1) * d == q * d + d;
  }

  lemma DivMonotone(a: nat, b: nat, d: nat)
    requires a <= b && d > 0
    ensures a / d <= b / d
  {
    if a / d > b / d {
      MulMonotone(b / d + 1, a / d, d);
      assert false;
    }
  }

  lemma ScaleIsAtMost(x: byte, m: byte, d: byte)
    requires 0 < d && m <= d
    ensures x * m / d <= x
  {
    assert x * m <= x * d;
    DivMonotone(x * m, x * d, d);
    assert x * d / d == x;
  }

  /** `((x as u16) * (m as u16) / (d as u16)) as u8`: the product is formed in 16 bits,
      where it always fits, and the quotient is truncated back to 8 bits. When the
      factor does not exceed the divisor, the quotient is at most `x`, so the truncation
      loses nothing and the result is `x * m / d` rounded down. */
  function ScaleChannel(x: byte, m: byte, d: byte): (r: byte)
    requires d != 0
    ensures x * m / d < 0x100 ==> r == x * m / d
    ensures m <= d ==> r == x * m / d && r <= x && r * d <= x * m < (r + 1) * d
  {
    ProductFitsU16(x, m);
    var wide: u16 := x * m;
    FloorDiv(wide, d);
    if m <= d then
      ScaleIsAtMost(x, m, d);
      (wide / d) % 0x100
    else
      (wide / d) % 0x100
  }

  /** `ExtRgb::mul_then_div`: every channel scaled by `m / d`. */
  function MulThenDiv(c: Rgb8, m: byte, d: byte): (r: Rgb8)
    requires d != 0
    ensures m <= d ==> r.r == c.r * m / d && r.g == c.g * m / d && r.b == c.b * m / d
    ensures m <= d ==> r.r <= c.r && r.g <= c.g && r.b <= c.b
  {
    Rgb8(ScaleChannel(c.r, m, d), ScaleChannel(c.g, m, d), ScaleChannel(c.b, m, d))
  }

  /** Channel by channel, `a` is no brighter than `b`. */
  predicate NoBrighter(a: Rgb8, b: Rgb8)
  {
    a.r <= b.r && a.g <= b.g && a.b <= b.b
  }

  /** Shade `j` of `color_walker`, `color_(j+1)_8`: `(j + 1) / 8` of the walk colour,
      rounded down in each channel. The first is made with `div(8)`, the last is the walk
      colour itself and the others with `mul_then_div(j + 1, 8)`. */
  function Shade(w: Rgb8, j: nat): (r: Rgb8)
    requires j < 8
    ensures r.r == w.r * (j + 1) / 8 && r.g == w.g * (j + 1) / 8 && r.b == w.b * (j + 1) / 8
    ensures j == 7 ==> r == w
  {
    if j == 0 then Div(w, 8)
    else if j == 7 then w
    else MulThenDiv(w, j + 1, 8)
  }

  function Shades(w: Rgb8): (r: seq<Rgb8>)
    ensures |r| == 8 && forall j :: 0 <= j < 8 ==> r[j] == Shade(w, j)
  {
    seq(8, j requires 0 <= j < 8 => Shade(w, j))
  }

  lemma ShareMonotone(x: byte, i: nat, j: nat)
    requires i <= j
    ensures x * i / 8 <= x * j / 8
  {
    assert x * i <= x * j;
    DivMonotone(x * i, x * j, 8);
  }

  /** The shades brighten step by step in every channel. */
  lemma ShadesBrighten(w: Rgb8)
    ensures forall i, j :: 0 <= i <= j < 8 ==> NoBrighter(Shades(w)[i], Shades(w)[j])
  {
    var s := Shades(w);
    forall i, j | 0 <= i <= j < 8 ensures NoBrighter(s[i], s[j]) {
      ShareMonotone(w.r, i + 1, j + 1);
      ShareMonotone(w.g, i + 1, j + 1);
      ShareMonotone(w.b, i + 1, j + 1);
    }
  }

  // ---------------------------------------------------------------------------------
  // Directions

  datatype Direction = Clockwise | CounterClockwise

  /** `Direction::invert`: the other direction. */
  function Invert(d: Direction): (r: Direction)
    ensures r != d
  {
    match d
    case Clockwise => CounterClockwise
    case CounterClockwise => Clockwise
  }

  lemma InvertIsInvolution(d: Direction)
    ensures Invert(Invert(d)) == d
  {
  }

  // ---------------------------------------------------------------------------------
  // Plans

  datatype Action = Solid | Sin | Cos | Seek

  /** The named colours the plans use; their channel values belong to the LED library. */
  datatype Palette = Black | White | Red | Orange | Yellow | Green | Blue | Violet

  datatype Colour = Named(name: Palette) | Rgb(rgb: Rgb8)

  /** A fixed phase offset in milliseconds, or one carried on from the previous step. */
  datatype PhaseOffset = PhaseMs(ms: nat) | AutoIncr

  datatype Repeat = Once | Forever

  /** One row of a `script!` table. Every period in these plans is a whole number of
      milliseconds, carried here as one. */
  datatype Step = Step(action: Action, colour: Colour, durationMs: nat, periodMs: nat,
                       phase: PhaseOffset, repeat: Repeat)

  /** An LED's sequence after `set(plan, behavior)`. */
  datatype Sequence<B> = Sequence(steps: seq<Step>, behavior: B)

  function Duration(p: seq<Step>): nat
  {
    if p == [] then 0 else p[0].durationMs + Duration(p[1..])
  }

  /** The pulse colour of each rainbow plan, in table order. */
  const RAINBOW_COLOURS: seq<Palette> := [White, White, Red, Orange, Yellow, Green, Blue, Violet, White, White]

  /** Plan `k` of `rainbow_crawler`: dark for `100 * k` ms, a 2500 ms sine pulse of its
      colour, then dark again, for the same 3500 ms in every plan. */
  function RainbowPlan(k: nat): (p: seq<Step>)
    requires k < 10
    ensures |p| == 3 && Duration(p) == 3500
    ensures p[0] == Step(Solid, Named(Black), 100 * k, 0, PhaseMs(0), Once)
    ensures p[1] == Step(Sin, Named(RAINBOW_COLOURS[k]), 2500, 2500, PhaseMs(0), Once)
    ensures p[2] == Step(Solid, Named(Black), 1000 - 100 * k, 0, PhaseMs(0), Once)
  {
    var p := [Step(Solid, Named(Black), 100 * k, 0, PhaseMs(0), Once),
              Step(Sin, Named(RAINBOW_COLOURS[k]), 2500, 2500, PhaseMs(0), Once),
              Step(Solid, Named(Black), 1000 - 100 * k, 0, PhaseMs(0), Once)];
    assert Duration(p[2..]) == 1000 - 100 * k;
    assert Duration(p[1..]) == 3500 - 100 * k;
    p
  }

  function RainbowPlans(): (ps: seq<seq<Step>>)
    ensures |ps| == 10 && forall k :: 0 <= k < 10 ==> ps[k] == RainbowPlan(k)
  {
    seq(10, k requires 0 <= k < 10 => RainbowPlan(k))
  }

  /** Plan `k` of `color_walker`: eight cosine steps through the shades of the walk colour,
      the first starting at phase `250 * (k + 1)` ms and each later one carrying the phase
      on; the last shade is the walk colour and repeats for ever. */
  function WalkerStep(w: Rgb8, k: nat, j: nat): Step
    requires j < 8
  {
    Step(Cos, Rgb(Shade(w, j)), if j < 7 then 250 else 2000, 2000,
         if j == 0 then PhaseMs(250 * (k + 1)) else AutoIncr, if j < 7 then Once else Forever)
  }

  function WalkerPlan(w: Rgb8, k: nat): (p: seq<Step>)
    ensures |p| == 8
    ensures p[0].phase == PhaseMs(250 * (k + 1))
    ensures forall j :: 1 <= j < 8 ==> p[j].phase == AutoIncr
    ensures p[7] == Step(Cos, Rgb(w), 2000, 2000, AutoIncr, Forever)
    ensures forall j :: 0 <= j < 7 ==> p[j].repeat == Once && p[j].durationMs == 250
    ensures forall j :: 0 <= j < 8 ==> p[j].colour == Rgb(Shades(w)[j])
  {
    seq(8, j requires 0 <= j < 8 => WalkerStep(w, k, j))
  }

  /** Along a walker plan the colour only brightens, up to the walk colour. */
  lemma WalkerPlanBrightens(w: Rgb8, k: nat)
    ensures var p := WalkerPlan(w, k);
            forall i, j :: 0 <= i <= j < 8 ==> p[i].colour.Rgb? && NoBrighter(p[i].colour.rgb, p[j].colour.rgb)
  {
    ShadesBrighten(w);
  }

  function WalkerPlans(w: Rgb8): (ps: seq<seq<Step>>)
    ensures |ps| == 10 && forall k :: 0 <= k < 10 ==> ps[k] == WalkerPlan(w, k)
  {
    seq(10, k requires 0 <= k < 10 => WalkerPlan(w, k))
  }

  /** The colours the boot plan seeks through after its pulse, in order. */
  const SEEK_COLOURS: seq<Palette> := [Red, Orange, Yellow, Green, Blue, Violet, Black]

  /** The plan `boot_seq` gives the LED loaded after `delay` ms of accumulated delay:
      a blue sine pulse lasting `2500 + delay` ms, then a sweep through the rainbow
      colours, ending dark. */
  function BootPlan(delay: nat): (p: seq<Step>)
    ensures |p| == 8
    ensures p[0] == Step(Sin, Named(Blue), 2500 + delay, 2500 + delay * 3 / 2, PhaseMs(0), Once)
    // six 50 ms seeks through the rainbow, then 100 ms seeking to black
    ensures forall j :: 1 <= j < 8 ==>
              p[j] == Step(Seek, Named(SEEK_COLOURS[j - 1]), if j < 7 then 50 else 100, 0, PhaseMs(0), Once)
    ensures p[7].colour == Named(Black)
    ensures Duration(p) == 2500 + delay + 400
  {
    var p := [Step(Sin, Named(Blue), 2500 + delay, 2500 + delay * 3 / 2, PhaseMs(0), Once),
              Step(Seek, Named(Red), 50, 0, PhaseMs(0), Once),
              Step(Seek, Named(Orange), 50, 0, PhaseMs(0), Once),
              Step(Seek, Named(Yellow), 50, 0, PhaseMs(0), Once),
              Step(Seek, Named(Green), 50, 0, PhaseMs(0), Once),
              Step(Seek, Named(Blue), 50, 0, PhaseMs(0), Once),
              Step(Seek, Named(Violet), 50, 0, PhaseMs(0), Once),
              Step(Seek, Named(Black), 100, 0, PhaseMs(0), Once)];
    assert Duration(p[7..]) == 100;
    assert Duration(p[6..]) == 150;
    assert Duration(p[5..]) == 200;
    assert Duration(p[4..]) == 250;
    assert Duration(p[3..]) == 300;
    assert Duration(p[2..]) == 350;
    assert Duration(p[1..]) == 400;
    p
  }

  // ---------------------------------------------------------------------------------
  // Loading plans into the script

  /** `iter().rev()`: the plans last to first. */
  function Backwards<T>(s: seq<T>): (r: seq<T>)
    ensures |r| == |s| && forall i :: 0 <= i < |s| ==> r[i] == s[|s| - 1 - i]
    decreases |s|
  {
    if s == [] then [] else [s[|s| - 1]] + Backwards(s[..|s| - 1])
  }

  /** `script.iter_mut().zip(plans).for_each(|(scr, pla)| scr.set(pla, behavior))`: the
      first `min(script.Length, |plans|)` sequences get the plans in order, and the rest
      are left as they were. */
  method Assign<B>(script: array<Sequence<B>>, plans: seq<seq<Step>>, behavior: B)
    modifies script
    ensures forall i :: 0 <= i < script.Length && i < |plans| ==> script[i] == Sequence(plans[i], behavior)
    ensures forall i :: |plans| <= i < script.Length ==> script[i] == old(script[i])
  {
    var i := 0;
    while i < script.Length && i < |plans|
      invariant 0 <= i <= script.Length && i <= |plans|
      invariant forall k :: 0 <= k < i ==> script[k] == Sequence(plans[k], behavior)
      invariant forall k :: i <= k < script.Length ==> script[k] == old(script[k])
    {
      script[i] := Sequence(plans[i], behavior);
      i := i + 1;
    }
  }

  /** `rainbow_crawler`: clockwise, LED `i` gets plan `9 - i`; counter-clockwise, plan
      `i`. Only the first ten LEDs are loaded. */
  method RainbowCrawler<B>(script: array<Sequence<B>>, behavior: B, direction: Direction)
    modifies script
    ensures forall i :: 0 <= i < script.Length && i < 10 ==>
              script[i] == Sequence(RainbowPlan(if direction == Clockwise then 9 - i else i), behavior)
    ensures forall i :: 10 <= i < script.Length ==> script[i] == old(script[i])
  {
    var plan := RainbowPlans();
    var order := match direction
      case Clockwise => Backwards(plan)
      case CounterClockwise => plan;
    Assign(script, order, behavior);
  }

  /** `color_walker`, oriented the other way round: clockwise, LED `i` gets plan `i`;
      counter-clockwise, plan `9 - i`. Only the first ten LEDs are loaded. */
  method ColorWalker<B>(script: array<Sequence<B>>, walkColour: Rgb8, behavior: B, direction: Direction)
    modifies script
    ensures forall i :: 0 <= i < script.Length && i < 10 ==>
              script[i] == Sequence(WalkerPlan(walkColour, if direction == Clockwise then i else 9 - i), behavior)
    ensures forall i :: 10 <= i < script.Length ==> script[i] == old(script[i])
  {
    var plan := WalkerPlans(walkColour);
    var order := match direction
      case Clockwise => plan
      case CounterClockwise => Backwards(plan);
    Assign(script, order, behavior);
  }

  /** `boot_seq`: every LED is loaded, LED `i` with the plan for a delay of `50 * i` ms,
      so its first step lasts `2500 + 50 * i` ms. The direction is ignored. */
  method BootSeq<B>(script: array<Sequence<B>>, behavior: B, direction: Direction)
    modifies script
    ensures forall i :: 0 <= i < script.Length ==> script[i] == Sequence(BootPlan(50 * i), behavior)
    ensures forall i :: 0 <= i < script.Length ==> |script[i].steps| > 0 && script[i].steps[0].durationMs == 2500 + 50 * i
  {
    var delay := 0;
    var i := 0;
    while i < script.Length
      invariant 0 <= i <= script.Length && delay == 50 * i
      invariant forall k :: 0 <= k < i ==> script[k] == Sequence(BootPlan(50 * k), behavior)
    {
      script[i] := Sequence(BootPlan(delay), behavior);
      delay := delay + 50;
      i := i + 1;
    }
  }
}
