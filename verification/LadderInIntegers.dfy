/**
 The ladder once more, as whole-number arithmetic on the load, the CPU count and the
 discovered ends: which of four steps a load falls on, and what each target then is.
 */
module LadderInIntegers {
  import opened Prelude
  import opened Sysfs
  import opened Cpu
  import opened Gpu
  import opened Rapl
  import opened Backlight
  import opened Ladder
  import opened Backend
  import opened LadderEffect

  /** The step of a load on `n` CPUs: the turning points are a sixth, a half and five sixths. */
  function StepOfLoad(load: real, n: nat): (k: nat)
    ensures k <= 3
  {
    if 6.0 * load < n as real then 0
    else if 2.0 * load < n as real then 1
    else if 6.0 * load < 5.0 * n as real then 2
    else 3
  }

  /** Percent of a range that a level may use. */
  function PercentOfLevel(level: Level): (p: nat)
    ensures p <= 100
  {
    match level case High => 40 case Medium => 70 case Low => 100
  }

  /** First step with turbo. */
  function TurboStep(level: Level): nat {
    match level case High => 3 case Medium => 2 case Low => 1
  }

  function CeilingInt(n: nat, percent: nat): nat {
    if n <= 1 then 1 else Max(2, (percent * n + 99) / 100)
  }

  function CoresInt(n: nat, percent: nat, k: nat): nat {
    1 + (2 * k * SatSub(CeilingInt(n, percent), 1) + 3) / 6
  }

  /** The ceiling is cut to a whole unit before the step is taken. */
  function StagedInt(range: Range, percent: nat, k: nat): nat
    requires range.lo <= range.hi
  {
    range.lo + k * (percent * (range.hi - range.lo) / 100) / 3
  }

  function DirectInt(range: Range, percent: nat, k: nat): nat
    requires range.lo <= range.hi
  {
    range.lo + k * percent * (range.hi - range.lo) / 300
  }

  // ---------------------------------------------------------------------
  // Reals to integers
  // ---------------------------------------------------------------------

  lemma RatioBelow(load: real, n: real, c: real)
    requires n > 0.0
    ensures load / n < c <==> load < c * n
  {
    var q := load / n;
    assert q * n == load;
    if q < c {
      assert (c - q) * n > 0.0;
    } else {
      assert (q - c) * n >= 0.0;
    }
  }

  lemma StepInThirds(load: real, n: nat)
    requires n >= 1 && load >= 0.0
    ensures DiscretePower(load, n) == StepOfLoad(load, n) as real / 3.0
  {
    RatioBelow(load, n as real, 0.0);
    RatioBelow(load, n as real, 1.0 / 6.0);
    RatioBelow(load, n as real, 0.5);
    RatioBelow(load, n as real, 5.0 / 6.0);
    var x := MinReal(load / n as real, 1.0);
    assert Round(x * 3.0) == StepOfLoad(load, n);
  }

  lemma ProductGrows(a: real, b: real, c: real)
    requires a <= b && c > 0.0
    ensures a * c <= b * c && (a < b ==> a * c < b * c)
  {
    assert b * c == a * c + (b - a) * c;
  }

  lemma FloorOfQuotient(a: nat, b: nat, x: real)
    requires b > 0 && x * b as real == a as real
    ensures x.Floor == a / b
  {
    var q, r := a / b, a % b;
    var low, high, c := q as real, q as real + 1.0, b as real;
    assert a == q * b + r;
    assert (q * b) as real == low * c;
    assert high * c == low * c + c;
    if x < low {
      ProductGrows(x, low, c);
    } else if x >= high {
      ProductGrows(high, x, c);
    }
  }

  lemma CeilOfHundredths(a: nat, x: real)
    requires x == a as real / 100.0
    ensures Ceil(x) == (a + 99) / 100
  {
    var q := (a + 99) / 100;
    assert 100 * q >= a && 100 * (q - 1) < a;
  }

  lemma ShareInPercent(w: nat, level: Level)
    ensures Share(w as real, LevelCeiling(level)) == (PercentOfLevel(level) * w) as real / 100.0
  {
  }

  lemma ShareInThirds(w: nat, k: nat)
    requires k <= 3
    ensures Share(w as real, k as real / 3.0) == (k * w) as real / 3.0
  {
  }

  // ---------------------------------------------------------------------
  // The targets
  // ---------------------------------------------------------------------

  lemma CeilingInInts(n: nat, level: Level)
    ensures CoreCeiling(n, LevelCeiling(level)) == CeilingInt(n, PercentOfLevel(level))
  {
    ShareInPercent(n, level);
    CeilOfHundredths(PercentOfLevel(level) * n, Share(n as real, LevelCeiling(level)));
  }

  lemma RampInInts(ceiling: nat, k: nat)
    requires ceiling >= 1 && k <= 3
    ensures RampTo(ceiling, k as real / 3.0) == 1 + (2 * k * (ceiling - 1) + 3) / 6
  {
    var m := k * (ceiling - 1);
    ShareInThirds(ceiling - 1, k);
    assert 2 * k * (ceiling - 1) == 2 * m;
    assert m <= 3 * (ceiling - 1);
    FloorOfQuotient(2 * m + 3, 6, m as real / 3.0 + 0.5);
  }

  lemma CeilingInUnits(range: Range, level: Level)
    requires range.lo <= range.hi < TWO_32
    ensures StagedCeiling(range, LevelCeiling(level))
         == range.lo + PercentOfLevel(level) * (range.hi - range.lo) / 100
  {
    var w := range.hi - range.lo;
    ShareInPercent(w, level);
    StagedCeilingInRange(range, LevelCeiling(level));
    var x := RealCeiling(range, LevelCeiling(level)) - range.lo as real;
    FloorOfQuotient(PercentOfLevel(level) * w, 100, x);
  }

  /** Scaling under a whole ceiling `cut` units above the floor. */
  lemma ScaleToInInts(lo: nat, cut: nat, k: nat, hi: nat)
    requires lo + cut <= hi < TWO_32 && k <= 3
    ensures ScaleTo(lo, (lo + cut) as real, k as real / 3.0) == lo + k * cut / 3
  {
    var part := Share(cut as real, k as real / 3.0);
    assert (lo + cut) as real - lo as real == cut as real;
    ShareInThirds(cut, k);
    FloorOfQuotient(k * cut, 3, part);
    ShareOfAll(cut as real, k as real / 3.0);
    SaturateBetween(lo, lo as real + part, hi, TWO_32);
  }

  lemma StagedInInts(range: Range, level: Level, k: nat)
    requires range.lo <= range.hi < TWO_32 && k <= 3
    ensures ScaleStaged(range, LevelCeiling(level), k as real / 3.0) == StagedInt(range, PercentOfLevel(level), k)
  {
    CeilingInUnits(range, level);
    StagedCeilingInRange(range, LevelCeiling(level));
    ScaleToInInts(range.lo, StagedCeiling(range, LevelCeiling(level)) - range.lo, k, range.hi);
  }

  /** A part of a part, in three hundredths. */
  lemma ShareOfShare(w: nat, level: Level, k: nat)
    requires k <= 3
    ensures Share(Share(w as real, LevelCeiling(level)), k as real / 3.0) * 300.0
         == (k * PercentOfLevel(level) * w) as real
  {
    var part := PercentOfLevel(level) * w;
    ShareInPercent(w, level);
    assert k * PercentOfLevel(level) * w == k * part;
    ThirdOfHundredths(part, k);
  }

  lemma ThirdOfHundredths(part: nat, k: nat)
    requires k <= 3
    ensures Share(part as real / 100.0, k as real / 3.0) * 300.0 == (k * part) as real
  {
  }

  lemma DirectInInts(range: Range, level: Level, k: nat)
    requires range.lo <= range.hi < TWO_32 && k <= 3
    ensures ScaleWithin(range, LevelCeiling(level), k as real / 3.0) == DirectInt(range, PercentOfLevel(level), k)
  {
    var w := range.hi - range.lo;
    var c, d := LevelCeiling(level), k as real / 3.0;
    ShareOfShare(w, level, k);
    var x := Share(Share(w as real, c), d);
    assert RealCeiling(range, c) - range.lo as real == Share(w as real, c);
    FloorOfQuotient(k * PercentOfLevel(level) * w, 300, x);
    ShareOfAll(w as real, c);
    ShareOfAll(Share(w as real, c), d);
    SaturateBetween(range.lo, range.lo as real + x, range.hi, TWO_32);
  }

  function LimitInt(bounds: Option<Range>, percent: nat, k: nat): Option<nat>
    requires bounds.Some? ==> bounds.value.lo <= bounds.value.hi
  {
    if bounds.None? then None else Some(DirectInt(bounds.value, percent, k))
  }

  function FrequencyInt(bounds: Option<Range>, percent: nat, k: nat): nat
    requires bounds.Some? ==> bounds.value.lo <= bounds.value.hi
  {
    if bounds.None? then 0 else StagedInt(bounds.value, percent, k)
  }

  lemma FrequencyInInts(bounds: Option<Range>, level: Level, k: nat)
    requires (bounds.Some? ==> bounds.value.lo < bounds.value.hi < TWO_32) && k <= 3
    ensures ScaleStaged(RangeOr(bounds, Range(0, 0)), LevelCeiling(level), k as real / 3.0)
         == FrequencyInt(bounds, PercentOfLevel(level), k)
  {
    StagedInInts(RangeOr(bounds, Range(0, 0)), level, k);
  }

  lemma CoresInInts(n: nat, level: Level, k: nat)
    requires k <= 3
    ensures CoreRamp(n, LevelCeiling(level), k as real / 3.0) == CoresInt(n, PercentOfLevel(level), k)
  {
    CeilingInInts(n, level);
    RampInInts(CeilingInt(n, PercentOfLevel(level)), k);
  }

  lemma TurboInInts(level: Level, k: nat)
    ensures Turbo(level, k as real / 3.0) <==> k >= TurboStep(level)
  {
  }

  function FoundGpu(s: Store, hw: Hardware): Option<Range> {
    if hw.hasGpu then GpuRange(s) else None
  }

  /** All targets of a tick as whole-number functions of the load, the CPU count and the ranges. */
  lemma TargetsInIntegers(s: Store, hw: Hardware, level: Level, load: real)
    requires ValidHardware(hw) && load >= 0.0
    ensures var t := TargetsOf(s, hw, level, load);
            var n, percent, k := |hw.cpus|, PercentOfLevel(level), StepOfLoad(load, |hw.cpus|);
            && t.cores == CoresInt(n, percent, k)
            && t.freq == FrequencyInt(Bounds(s, hw.cpus), percent, k)
            && t.gpu == FrequencyInt(FoundGpu(s, hw), percent, k)
            && t.turbo == (k >= TurboStep(level))
            && t.long == LimitInt(BoundsOf(s, hw.zones, LONG_TERM), percent, k)
            && t.short == LimitInt(BoundsOf(s, hw.zones, SHORT_TERM), percent, k)
  {
    var n, k := |hw.cpus|, StepOfLoad(load, |hw.cpus|);
    StepInThirds(load, n);
    CoresInInts(n, level, k);
    FrequencyInInts(Bounds(s, hw.cpus), level, k);
    FrequencyInInts(FoundGpu(s, hw), level, k);
    TurboInInts(level, k);
    LimitInInts(BoundsOf(s, hw.zones, LONG_TERM), level, k);
    LimitInInts(BoundsOf(s, hw.zones, SHORT_TERM), level, k);
  }

  lemma LimitInInts(bounds: Option<Range>, level: Level, k: nat)
    requires (bounds.Some? ==> bounds.value.lo < bounds.value.hi < TWO_32) && k <= 3
    ensures ScaledLimit(bounds, LevelCeiling(level), k as real / 3.0) == LimitInt(bounds, PercentOfLevel(level), k)
  {
    if bounds.Some? {
      DirectInInts(bounds.value, level, k);
    }
  }

  // ---------------------------------------------------------------------
  // What a tick leaves in the nodes
  // ---------------------------------------------------------------------

  lemma TurboByLoad(load: real, n: nat, level: Level)
    requires n >= 1
    ensures Turbo(level, DiscretePower(load, n))
       <==> match level
            case High => 6.0 * load >= 5.0 * n as real
            case Medium => 2.0 * load >= n as real
            case Low => 6.0 * load >= n as real
  {
    RatioBelow(load, n as real, 1.0 / 6.0);
    RatioBelow(load, n as real, 0.5);
    RatioBelow(load, n as real, 5.0 / 6.0);
  }

  /**
   Turbo after a tick, read off the node: on from five sixths of the CPUs busy at High, from
   a half at Medium, from a sixth at Low; `boost` only where there is no `no_turbo`.
   */
  lemma TurboNodeByLoad(s: Store, hw: Hardware, level: Level, load: real)
    requires ValidHardware(hw)
    ensures var u := AfterLadder(s, hw, level, load);
            var n := |hw.cpus| as real;
            var on := match level
                      case High => 6.0 * load >= 5.0 * n
                      case Medium => 2.0 * load >= n
                      case Low => 6.0 * load >= n;
            && (NoTurbo in s ==> NoTurbo in u && u[NoTurbo] == Num(if on then 0 else 1))
            && (Boost in s ==>
                  Boost in u && u[Boost] == if NoTurbo in s then s[Boost] else Num(if on then 1 else 0))
  {
    TurboByLoad(load, |hw.cpus|, level);
    TurboNodes(s, hw, TargetsOf(s, hw, level, load));
  }

  /** A number that a tick sets is what its node then holds. */
  lemma TickLeaves(s: Store, hw: Hardware, t: Targets, node: Node)
    requires ValidHardware(hw) && node in s
    ensures node in AfterTargets(s, hw, t)
    ensures AfterTargets(s, hw, t)[node] == Left(s, LadderSets(s, hw, t, node), node)
  {
    LadderClosedForm(s, hw, t, node);
  }

  lemma TurboNodes(s: Store, hw: Hardware, t: Targets)
    requires ValidHardware(hw)
    ensures NoTurbo in s ==>
              NoTurbo in AfterTargets(s, hw, t)
              && AfterTargets(s, hw, t)[NoTurbo] == Num(if t.turbo then 0 else 1)
    ensures Boost in s ==>
              Boost in AfterTargets(s, hw, t)
              && AfterTargets(s, hw, t)[Boost] == if NoTurbo in s then s[Boost] else Num(if t.turbo then 1 else 0)
  {
    TurboSets(s, hw, t);
    if NoTurbo in s {
      TickLeaves(s, hw, t, NoTurbo);
    }
    if Boost in s {
      TickLeaves(s, hw, t, Boost);
    }
  }

  lemma TurboSets(s: Store, hw: Hardware, t: Targets)
    requires ValidHardware(hw)
    ensures LadderSets(s, hw, t, NoTurbo) == Some(if t.turbo then 0 else 1)
    ensures LadderSets(s, hw, t, Boost) == if NoTurbo in s then None else Some(if t.turbo then 1 else 0)
  {
  }

  lemma FullLoadFrequencies(s: Store, hw: Hardware, level: Level, load: real)
    requires ValidHardware(hw) && load >= |hw.cpus| as real
    ensures var t := TargetsOf(s, hw, level, load);
            && (Bounds(s, hw.cpus).Some? ==> t.freq == LevelTop(Bounds(s, hw.cpus).value, level))
            && (hw.hasGpu && GpuRange(s).Some? ==> t.gpu == LevelTop(GpuRange(s).value, level))
  {
    TargetsInIntegers(s, hw, level, load);
    if Bounds(s, hw.cpus).Some? {
      TopOfLevel(Bounds(s, hw.cpus).value, level);
    }
    if hw.hasGpu && GpuRange(s).Some? {
      TopOfLevel(GpuRange(s).value, level);
    }
  }

  lemma FrequencySets(s: Store, hw: Hardware, t: Targets, cpu: nat)
    requires ValidHardware(hw)
    ensures HasWindow(s, hw, ScalingMax(cpu))
            && Bounds(s, hw.cpus).value.lo <= t.freq <= Bounds(s, hw.cpus).value.hi ==>
              LadderSets(s, hw, t, ScalingMax(cpu)) == Some(t.freq * 1000)
    ensures hw.hasGpu && GpuRange(s).Some? && GpuRange(s).value.lo <= t.gpu <= GpuRange(s).value.hi ==>
              LadderSets(s, hw, t, GtMax) == Some(t.gpu)
  {
  }

  /**
   Full load, read off the nodes: each frequency window and the GPU end at two fifths of the
   range at High, at seven tenths at Medium, at the top at Low, in whole MHz.
   */
  lemma FullLoadNodes(s: Store, hw: Hardware, level: Level, load: real, cpu: nat)
    requires ValidHardware(hw) && load >= |hw.cpus| as real
    ensures var u := AfterLadder(s, hw, level, load);
            ScalingMax(cpu) in s && HasWindow(s, hw, ScalingMax(cpu)) ==>
              ScalingMax(cpu) in u && u[ScalingMax(cpu)] == Num(LevelTop(Bounds(s, hw.cpus).value, level) * 1000)
    ensures var u := AfterLadder(s, hw, level, load);
            GtMax in s && hw.hasGpu && GpuRange(s).Some? ==>
              GtMax in u && u[GtMax] == Num(LevelTop(GpuRange(s).value, level))
  {
    FullLoadFrequencies(s, hw, level, load);
    var t := TargetsOf(s, hw, level, load);
    FrequencySets(s, hw, t, cpu);
    if ScalingMax(cpu) in s && HasWindow(s, hw, ScalingMax(cpu)) {
      TopOfLevel(Bounds(s, hw.cpus).value, level);
      TickLeaves(s, hw, t, ScalingMax(cpu));
    }
    if GtMax in s && hw.hasGpu && GpuRange(s).Some? {
      TopOfLevel(GpuRange(s).value, level);
      TickLeaves(s, hw, t, GtMax);
    }
  }

  function LevelTop(range: Range, level: Level): int {
    match level
    case High => range.lo + 2 * (range.hi - range.lo) / 5
    case Medium => range.lo + 7 * (range.hi - range.lo) / 10
    case Low => range.hi
  }

  lemma TopOfLevel(range: Range, level: Level)
    requires range.lo <= range.hi
    ensures StagedInt(range, PercentOfLevel(level), 3) == LevelTop(range, level)
    ensures range.lo <= LevelTop(range, level) <= range.hi
  {
    var w := range.hi - range.lo;
    assert 40 * w / 100 == 2 * w / 5 && 70 * w / 100 == 7 * w / 10;
  }
}
