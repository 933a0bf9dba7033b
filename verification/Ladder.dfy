/**
 The arithmetic of the adaptive ladder: load to a quantised power step, and the step
 to core, frequency, GPU and package-power targets. Floating point is modelled by
 exact reals.
 */
module Ladder {
  import opened Prelude
  import opened Cpu
  import opened Backlight

  // ---------------------------------------------------------------------
  // f64 operations
  // ---------------------------------------------------------------------

  /** `f64::round`: half away from zero. */
  function Round(x: real): int {
    if x >= 0.0 then (x + 0.5).Floor else -((0.5 - x).Floor)
  }

  /** `f64::ceil`. */
  function Ceil(x: real): int {
    -((-x).Floor)
  }

  /** A float cast to an unsigned integer of `2^bits = top` values: truncating and saturating. */
  function Saturate(x: real, top: nat): (r: nat)
    requires top > 0
    ensures r < top
  {
    if x <= 0.0 then 0 else if x.Floor >= top then top - 1 else x.Floor
  }

  function MinReal(a: real, b: real): real {
    if a <= b then a else b
  }

  // ---------------------------------------------------------------------
  // The ladder
  // ---------------------------------------------------------------------

  /** Fraction of the discovered range a level may use. */
  function LevelCeiling(level: Level): (c: real)
    ensures 0.0 < c <= 1.0
  {
    match level case High => 0.4 case Medium => 0.7 case Low => 1.0
  }

  /** The load per CPU, capped at 1 and quantised to thirds. */
  function DiscretePower(load: real, ncpu: nat): (d: real)
    requires ncpu >= 1
    ensures d <= 1.0
  {
    Round(MinReal(load / ncpu as real, 1.0) * 3.0) as real / 3.0
  }

  function CoreCeiling(ncpu: nat, c: real): int {
    if ncpu <= 1 then 1 else Clamp(Ceil(Share(ncpu as real, c)), 2, ncpu)
  }

  /** The part `t` of a width `w`. */
  function Share(w: real, t: real): real {
    w * t
  }

  /** `clamp(round(1 + d * (ceiling - 1)), 1, ceiling)`. */
  function RampTo(ceiling: int, d: real): int {
    Clamp(Max(Round(1.0 + Share((ceiling - 1) as real, d)), 0), 1, ceiling)
  }

  function CoreRamp(ncpu: nat, c: real, d: real): int {
    RampTo(CoreCeiling(ncpu, c), d)
  }

  /** `lo + c * (hi - lo)`: the share of the range a level may use. */
  function RealCeiling(range: Range, c: real): real {
    range.lo as real + Share(range.hi as real - range.lo as real, c)
  }

  /** `lo + d * (top - lo)` as a `u32`. */
  function ScaleTo(lo: nat, top: real, d: real): nat {
    Saturate(lo as real + Share(top - lo as real, d), TWO_32)
  }

  /** One-stage scaling, used for the package power limits. */
  function ScaleWithin(range: Range, c: real, d: real): nat {
    Min(ScaleTo(range.lo, RealCeiling(range, c), d), range.hi)
  }

  /** Ceiling of the two-stage scaling, already truncated. */
  function StagedCeiling(range: Range, c: real): nat {
    Saturate(RealCeiling(range, c), TWO_32)
  }

  /** Two-stage scaling, used for the CPU and GPU frequencies: the ceiling is truncated first. */
  function ScaleStaged(range: Range, c: real, d: real): nat {
    ScaleTo(range.lo, StagedCeiling(range, c) as real, d)
  }

  /** Turbo threshold of a level. */
  predicate Turbo(level: Level, d: real) {
    match level
    case High => d >= 0.8
    case Medium => d >= 2.0 / 3.0
    case Low => d >= 1.0 / 3.0
  }

  // ---------------------------------------------------------------------
  // Monotonicity of the pieces
  // ---------------------------------------------------------------------

  lemma FloorMono(x: real, y: real)
    requires x <= y
    ensures x.Floor <= y.Floor
  {
  }

  lemma RoundMono(x: real, y: real)
    requires x <= y
    ensures Round(x) <= Round(y)
  {
    if x >= 0.0 {
      FloorMono(x + 0.5, y + 0.5);
    } else if y < 0.0 {
      FloorMono(0.5 - y, 0.5 - x);
    }
  }

  lemma SaturateMono(x: real, y: real, top: nat)
    requires x <= y && top > 0
    ensures Saturate(x, top) <= Saturate(y, top)
  {
    FloorMono(x, y);
  }

  lemma ShareMono(x: real, y: real, d: real, f: real)
    requires 0.0 <= d <= f && 0.0 <= x <= y
    ensures 0.0 <= Share(x, d) <= Share(y, f)
  {
    assert x * d >= 0.0;
    assert (y - x) * d >= 0.0;
    assert y * (f - d) >= 0.0;
  }

  lemma ShareOfAll(w: real, t: real)
    requires 0.0 <= t <= 1.0 && w >= 0.0
    ensures 0.0 <= Share(w, t) <= w
  {
    ShareMono(w, w, t, 1.0);
  }

  /** Shares of widths less than one apart are less than one apart. */
  lemma ShareOfLess(whole: real, kept: real, t: real)
    requires 0.0 <= t <= 1.0 && 0.0 <= kept <= whole < kept + 1.0
    ensures Share(whole, t) <= Share(kept, t) + 1.0
  {
    ShareOfAll(whole - kept, t);
    assert whole * t == kept * t + (whole - kept) * t;
  }

  lemma PowerMono(a: real, b: real, ncpu: nat)
    requires ncpu >= 1 && a <= b
    ensures DiscretePower(a, ncpu) <= DiscretePower(b, ncpu)
    ensures a >= 0.0 ==> DiscretePower(a, ncpu) >= 0.0
  {
    assert a / ncpu as real <= b / ncpu as real;
    var x, y := MinReal(a / ncpu as real, 1.0), MinReal(b / ncpu as real, 1.0);
    RoundMono(x * 3.0, y * 3.0);
    if a >= 0.0 {
      assert a / ncpu as real >= 0.0;
      assert x * 3.0 >= 0.0;
    }
  }

  /** The quantisation has exactly four steps for a non-negative load. */
  lemma FourSteps(load: real, ncpu: nat)
    requires ncpu >= 1 && load >= 0.0
    ensures DiscretePower(load, ncpu) in {0.0, 1.0 / 3.0, 2.0 / 3.0, 1.0}
  {
    PowerMono(0.0, load, ncpu);
    var x := MinReal(load / ncpu as real, 1.0);
    assert 0.0 <= x <= 1.0 by {
      assert load / ncpu as real >= 0.0;
    }
    assert Round(x * 3.0) in {0, 1, 2, 3};
  }

  /** The step is the nearest third to the capped load per CPU. */
  lemma StepIsNearestThird(load: real, ncpu: nat)
    requires ncpu >= 1
    ensures var d := DiscretePower(load, ncpu);
            d - 1.0 / 6.0 <= MinReal(load / ncpu as real, 1.0) <= d + 1.0 / 6.0
  {
  }

  // ---------------------------------------------------------------------
  // Cores
  // ---------------------------------------------------------------------

  lemma CoreCeilingMono(ncpu: nat, c: real, e: real)
    requires 0.0 <= c <= e
    ensures CoreCeiling(ncpu, c) <= CoreCeiling(ncpu, e)
  {
    ShareMono(ncpu as real, ncpu as real, c, e);
    FloorMono(-Share(ncpu as real, e), -Share(ncpu as real, c));
  }

  lemma RampEnds(ceiling: int)
    requires ceiling >= 1
    ensures RampTo(ceiling, 0.0) == 1 && RampTo(ceiling, 1.0) == ceiling
  {
    assert 1.0 + (ceiling - 1) as real == ceiling as real;
    assert Round(ceiling as real) == ceiling;
  }

  /** The ramp runs from one core to exactly the ceiling, and is never flat on two or more CPUs. */
  lemma CoreRampEnds(ncpu: nat, c: real)
    ensures CoreRamp(ncpu, c, 0.0) == 1
    ensures CoreRamp(ncpu, c, 1.0) == CoreCeiling(ncpu, c)
    ensures ncpu >= 2 ==> CoreRamp(ncpu, c, 0.0) < CoreRamp(ncpu, c, 1.0)
  {
    RampEnds(CoreCeiling(ncpu, c));
  }

  /** From two CPUs on the ceiling is the least whole number of cores, at least 2, that covers the share. */
  lemma CoreCeilingIsLeast(ncpu: nat, c: real)
    requires ncpu >= 2 && 0.0 < c <= 1.0
    ensures var ceiling := CoreCeiling(ncpu, c);
            && 2 <= ceiling <= ncpu
            && ceiling as real >= Share(ncpu as real, c)
            && (ceiling > 2 ==> (ceiling - 1) as real < Share(ncpu as real, c))
  {
    ShareOfAll(ncpu as real, c);
    var x := Share(ncpu as real, c);
    FloorMono(-(ncpu as real), -x);
  }

  /** The ramp is the nearest whole number of cores. */
  lemma RampIsNearest(ceiling: int, d: real)
    requires ceiling >= 1 && 0.0 <= d <= 1.0
    ensures var exact := 1.0 + Share((ceiling - 1) as real, d);
            exact - 0.5 <= RampTo(ceiling, d) as real <= exact + 0.5
  {
    ShareOfAll((ceiling - 1) as real, d);
  }

  lemma RampMono(k: int, m: int, d: real, f: real)
    requires 1 <= k <= m && 0.0 <= d <= f
    ensures RampTo(k, d) <= RampTo(m, f)
  {
    ShareMono((k - 1) as real, (m - 1) as real, d, f);
    RoundMono(1.0 + Share((k - 1) as real, d), 1.0 + Share((m - 1) as real, f));
  }

  // ---------------------------------------------------------------------
  // Ranges
  // ---------------------------------------------------------------------

  lemma RealCeilingInRange(range: Range, c: real)
    requires range.lo <= range.hi && 0.0 <= c <= 1.0
    ensures range.lo as real <= RealCeiling(range, c) <= range.hi as real
  {
    ShareOfAll(range.hi as real - range.lo as real, c);
  }

  lemma RealCeilingMono(range: Range, c: real, e: real)
    requires range.lo <= range.hi && 0.0 <= c <= e
    ensures RealCeiling(range, c) <= RealCeiling(range, e)
  {
    var width := range.hi as real - range.lo as real;
    ShareMono(width, width, c, e);
  }

  /** Between two integers below the top, saturation is the plain floor. */
  lemma SaturateBetween(lo: nat, x: real, hi: nat, top: nat)
    requires lo as real <= x <= hi as real && hi < top
    ensures Saturate(x, top) == x.Floor && lo <= x.Floor <= hi
  {
    FloorMono(lo as real, x);
    FloorMono(x, hi as real);
  }

  lemma ScaleToMono(lo: nat, top: real, higher: real, d: real, f: real)
    requires lo as real <= top <= higher && 0.0 <= d <= f
    ensures ScaleTo(lo, top, d) <= ScaleTo(lo, higher, f)
  {
    ShareMono(top - lo as real, higher - lo as real, d, f);
    SaturateMono(lo as real + Share(top - lo as real, d), lo as real + Share(higher - lo as real, f), TWO_32);
  }

  lemma FloorsOfScaled(lo: nat, direct: real, staged: real, hi: nat)
    requires 0.0 <= staged <= direct <= staged + 1.0 && lo as real + direct <= hi as real && hi < TWO_32
    ensures var x, y := Saturate(lo as real + direct, TWO_32), Saturate(lo as real + staged, TWO_32);
            lo <= y <= x <= hi && x <= y + 1
  {
    SaturateBetween(lo, lo as real + direct, hi, TWO_32);
    SaturateBetween(lo, lo as real + staged, hi, TWO_32);
    FloorMono(lo as real + staged, lo as real + direct);
    FloorMono(lo as real + direct, lo as real + staged + 1.0);
  }

  /** Scaling under the ceiling `top` against scaling under its integer part `cut`. */
  lemma TruncatedCeiling(lo: nat, top: real, cut: nat, hi: nat, d: real)
    requires 0.0 <= d <= 1.0 && hi < TWO_32
    requires lo <= cut && cut as real <= top < cut as real + 1.0 && top <= hi as real
    ensures lo <= ScaleTo(lo, cut as real, d) <= ScaleTo(lo, top, d) <= hi
    ensures ScaleTo(lo, top, d) <= ScaleTo(lo, cut as real, d) + 1
  {
    var whole, kept := top - lo as real, cut as real - lo as real;
    ShareOfLess(whole, kept, d);
    ShareOfAll(whole, d);
    ShareMono(kept, whole, d, d);
    FloorsOfScaled(lo, Share(whole, d), Share(kept, d), hi);
  }

  lemma StagedCeilingInRange(range: Range, c: real)
    requires range.lo <= range.hi < TWO_32 && 0.0 <= c <= 1.0
    ensures StagedCeiling(range, c) == RealCeiling(range, c).Floor
    ensures range.lo <= StagedCeiling(range, c) <= range.hi
  {
    RealCeilingInRange(range, c);
    SaturateBetween(range.lo, RealCeiling(range, c), range.hi, TWO_32);
  }

  /**
   The two formulas agree to within one unit and stay in the range: truncating the
   ceiling first can only lose, and loses at most one.
   */
  lemma StagedAgainstDirect(range: Range, c: real, d: real)
    requires range.lo <= range.hi < TWO_32 && 0.0 <= c <= 1.0 && 0.0 <= d <= 1.0
    ensures range.lo <= ScaleStaged(range, c, d) <= ScaleWithin(range, c, d) <= range.hi
    ensures ScaleWithin(range, c, d) <= ScaleStaged(range, c, d) + 1
  {
    RealCeilingInRange(range, c);
    StagedCeilingInRange(range, c);
    TruncatedCeiling(range.lo, RealCeiling(range, c), StagedCeiling(range, c), range.hi, d);
  }

  /** One-stage scaling is the truncation of the exact interpolation. */
  lemma ScaleIsTruncation(range: Range, c: real, d: real)
    requires range.lo <= range.hi < TWO_32 && 0.0 <= c <= 1.0 && 0.0 <= d <= 1.0
    ensures var exact := range.lo as real + Share(RealCeiling(range, c) - range.lo as real, d);
            ScaleWithin(range, c, d) as real <= exact < ScaleWithin(range, c, d) as real + 1.0
  {
    RealCeilingInRange(range, c);
    var width := RealCeiling(range, c) - range.lo as real;
    ShareOfAll(width, d);
    SaturateBetween(range.lo, range.lo as real + Share(width, d), range.hi, TWO_32);
  }

  lemma ScaleStagedMono(range: Range, c: real, e: real, d: real, f: real)
    requires range.lo <= range.hi < TWO_32 && 0.0 <= c <= e <= 1.0 && 0.0 <= d <= f
    ensures ScaleStaged(range, c, d) <= ScaleStaged(range, e, f)
  {
    StagedCeilingInRange(range, c);
    RealCeilingMono(range, c, e);
    SaturateMono(RealCeiling(range, c), RealCeiling(range, e), TWO_32);
    ScaleToMono(range.lo, StagedCeiling(range, c) as real, StagedCeiling(range, e) as real, d, f);
  }

  lemma ScaleWithinMono(range: Range, c: real, e: real, d: real, f: real)
    requires range.lo <= range.hi < TWO_32 && 0.0 <= c <= e <= 1.0 && 0.0 <= d <= f
    ensures ScaleWithin(range, c, d) <= ScaleWithin(range, e, f)
  {
    RealCeilingInRange(range, c);
    RealCeilingMono(range, c, e);
    ScaleToMono(range.lo, RealCeiling(range, c), RealCeiling(range, e), d, f);
  }

  // ---------------------------------------------------------------------
  // The whole ladder
  // ---------------------------------------------------------------------

  /** `a` never asks for more than `b`: level order High, Medium, Low. */
  predicate AtMostLevel(a: Level, b: Level) {
    a == b || a == High || b == Low
  }

  /**
   More load, or a more permissive level, never lowers a target: cores, CPU and GPU
   frequency, package power and turbo are all monotone in both at once.
   */
  lemma LadderIsMonotone(ncpu: nat, range: Range, a: Level, b: Level, load: real, more: real)
    requires ncpu >= 1 && range.lo <= range.hi < TWO_32
    requires AtMostLevel(a, b) && 0.0 <= load <= more
    ensures var d, f := DiscretePower(load, ncpu), DiscretePower(more, ncpu);
            var c, e := LevelCeiling(a), LevelCeiling(b);
            && CoreRamp(ncpu, c, d) <= CoreRamp(ncpu, e, f)
            && ScaleStaged(range, c, d) <= ScaleStaged(range, e, f)
            && ScaleWithin(range, c, d) <= ScaleWithin(range, e, f)
            && (Turbo(a, d) ==> Turbo(b, f))
  {
    PowerMono(load, more, ncpu);
    PowerMono(0.0, load, ncpu);
    var d, f := DiscretePower(load, ncpu), DiscretePower(more, ncpu);
    var c, e := LevelCeiling(a), LevelCeiling(b);
    CoreCeilingMono(ncpu, c, e);
    RampMono(CoreCeiling(ncpu, c), CoreCeiling(ncpu, e), d, f);
    ScaleStagedMono(range, c, e, d, f);
    ScaleWithinMono(range, c, e, d, f);
  }

  lemma ShareOfPart(w: real, t: real)
    requires w > 0.0 && 0.0 <= t <= 1.0
    ensures Share(w, t) == w <==> t == 1.0
  {
    assert w * (1.0 - t) == w - w * t;
    if t < 1.0 {
      assert w * (1.0 - t) > 0.0;
    }
  }

  /** At full load both formulas give the level's share of the range, truncated. */
  lemma FullLoad(range: Range, c: real)
    requires range.lo < range.hi < TWO_32 && 0.0 <= c <= 1.0
    ensures ScaleStaged(range, c, 1.0) == ScaleWithin(range, c, 1.0) == RealCeiling(range, c).Floor
    ensures RealCeiling(range, c) == range.hi as real <==> c == 1.0
  {
    RealCeilingInRange(range, c);
    StagedCeilingInRange(range, c);
    ShareOfPart(range.hi as real - range.lo as real, c);
    var top := RealCeiling(range, c);
    SaturateBetween(range.lo, top, range.hi, TWO_32);
    assert Share(top - range.lo as real, 1.0) == top - range.lo as real;
    var cut := top.Floor;
    assert Share(cut as real - range.lo as real, 1.0) == cut as real - range.lo as real;
    SaturateBetween(range.lo, cut as real, range.hi, TWO_32);
  }

  /** Full load reaches the top of a discovered range at the Low level and at no other. */
  lemma FullLoadReachesTheTopExactly(range: Range, level: Level)
    requires range.lo < range.hi < TWO_32
    ensures ScaleStaged(range, LevelCeiling(level), 1.0) == range.hi <==> level == Low
    ensures ScaleWithin(range, LevelCeiling(level), 1.0) == range.hi <==> level == Low
  {
    FullLoad(range, LevelCeiling(level));
    RealCeilingInRange(range, LevelCeiling(level));
  }
}
