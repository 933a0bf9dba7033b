/** Backlight brightness in percent, and the daemon loop that keeps re-applying it. */
module Backlight {
  import opened Prelude
  import opened Sysfs

  /** `max_brightness` of a device, 0 when missing or unreadable. */
  function MaxOf(s: Store, device: nat): int {
    var m := ReadI64(s, BacklightMax(device));
    if m.None? then 0 else m.value
  }

  /** The first of the devices `from..count` that declares a positive maximum. */
  function FirstUsable(s: Store, from: nat, count: nat): (r: Option<nat>)
    ensures r.Some? ==> from <= r.value < count && MaxOf(s, r.value) > 0
    ensures r.Some? ==> forall d :: from <= d < r.value ==> MaxOf(s, d) <= 0
    ensures r.None? ==> forall d :: from <= d < count ==> MaxOf(s, d) <= 0
    decreases count - from
  {
    if from >= count then None
    else if MaxOf(s, from) > 0 then Some(from)
    else FirstUsable(s, from + 1, count)
  }

  /** `external` is what the helper tool reports when no device is usable. */
  function PercentOf(s: Store, count: nat, external: nat): nat {
    var d := FirstUsable(s, 0, count);
    if d.None? then external
    else
      var cur := ReadI64(s, Brightness(d.value));
      Clamp((if cur.None? then 0 else cur.value) * 100 / MaxOf(s, d.value), 0, 255)
  }

  /** The raw value of `percent` on a device with maximum `max`. */
  function RawOf(percent: nat, max: int): (raw: int)
    ensures max > 0 ==> 0 <= raw <= max
  {
    var p := Clamp(percent, 1, 100);
    assert max > 0 ==> 0 <= p * max <= 100 * max;
    p * max / 100
  }

  function AfterPercent(s: Store, count: nat, percent: nat): Store {
    map node | node in s ::
      if node.Brightness? && node.device < count && MaxOf(s, node.device) > 0
      then Num(RawOf(percent, MaxOf(s, node.device)))
      else s[node]
  }

  class DisplayManager {
    const root: SysfsRoot
    const count: nat

    constructor (root: SysfsRoot, count: nat)
      ensures this.root == root && this.count == count
    {
      this.root := root;
      this.count := count;
    }

    method BrightnessPercent(external: nat) returns (percent: nat)
      ensures percent == PercentOf(root.nodes, count, external)
    {
      for d := 0 to count
        invariant FirstUsable(root.nodes, 0, count) == FirstUsable(root.nodes, d, count)
      {
        var max := MaxOf(root.nodes, d);
        if max > 0 {
          var cur := ReadI64(root.nodes, Brightness(d));
          return Clamp((if cur.None? then 0 else cur.value) * 100 / max, 0, 255);
        }
      }
      return external;
    }

    method SetBrightnessPercent(percent: nat)
      modifies root
      ensures root.nodes == AfterPercent(old(root.nodes), count, percent)
    {
      ghost var s := root.nodes;
      for d := 0 to count
        invariant root.nodes == AfterPercent(s, d, percent)
      {
        PercentStep(s, d, percent);
        var max := MaxOf(root.nodes, d);
        if max > 0 {
          root.WriteBestEffort(Brightness(d), RawOf(percent, max));
        }
      }
    }
  }

  lemma PercentStep(s: Store, d: nat, percent: nat)
    ensures var before := AfterPercent(s, d, percent);
            && MaxOf(before, d) == MaxOf(s, d)
            && AfterPercent(s, d + 1, percent)
               == if MaxOf(s, d) > 0 then Put(before, Brightness(d), RawOf(percent, MaxOf(s, d)))
                  else before
  {
  }

  // ---------------------------------------------------------------------
  // Round trip
  // ---------------------------------------------------------------------

  /** Dividing a product that lost `rest` by one of its factors. */
  lemma QuotientAfterLoss(x: nat, p: nat, n: nat, rest: nat)
    requires n > 0 && p >= 1 && x + rest == p * n
    ensures x / n == p <==> rest == 0
    ensures 0 <= x / n <= p
    ensures rest <= n ==> x / n >= p - 1
  {
    var d := x / n;
    var r := x % n;
    assert x == n * d + r;
    assert n * (p - d) == rest + r by {
      assert n * (p - d) == n * p - n * d;
    }
    assert p - d <= -1 ==> n * (p - d) + n <= 0;
    assert p - d >= 2 ==> n * (p - d) >= 2 * n;
    assert p - d == 0 ==> rest + r == 0;
    assert p - d >= 1 ==> n * (p - d) >= n;
  }

  /** Scaling a percentage up and back down, truncating twice. */
  lemma TruncatedTwice(p: nat, max: nat)
    requires 1 <= p <= 100 && max > 0
    ensures var back := (p * max / 100) * 100 / max;
            && 0 <= back <= p
            && (back == p <==> (p * max) % 100 == 0)
            && ((p * max) % 100 <= max ==> back >= p - 1)
  {
    var product := p * max;
    QuotientAfterLoss(product / 100 * 100, p, max, product % 100);
  }

  /**
   Setting a percentage and reading it back on a machine whose first usable device has a
   brightness node: the result is exact precisely when 100 divides `p * max`, and for a
   device with at least 100 steps it is never more than one percent low.
   */
  lemma BrightnessRoundTrip(s: Store, count: nat, percent: nat, external: nat)
    requires 1 <= percent <= 100
    requires FirstUsable(s, 0, count).Some? && Brightness(FirstUsable(s, 0, count).value) in s
    requires percent * MaxOf(s, FirstUsable(s, 0, count).value) < TWO_63
    ensures var max := MaxOf(s, FirstUsable(s, 0, count).value);
            var back := PercentOf(AfterPercent(s, count, percent), count, external);
            && (back == percent <==> (percent * max) % 100 == 0)
            && (max >= 100 ==> percent - 1 <= back <= percent)
  {
    var t := AfterPercent(s, count, percent);
    var d := FirstUsable(s, 0, count).value;
    assert SameHardware(s, t);
    SameUsable(s, t, 0, count);
    MaxIsHardware(s, t, d);
    TruncatedTwice(percent, MaxOf(s, d));
    var scaled := percent * MaxOf(s, d) / 100;
    assert t[Brightness(d)] == Num(scaled);
    assert 0 <= scaled < TWO_63;
  }

  lemma MaxIsHardware(s: Store, t: Store, device: nat)
    requires SameHardware(s, t)
    ensures MaxOf(s, device) == MaxOf(t, device)
  {
    assert !BacklightMax(device).Mutable();
  }

  lemma {:induction false} SameUsable(s: Store, t: Store, from: nat, count: nat)
    requires SameHardware(s, t)
    ensures FirstUsable(s, from, count) == FirstUsable(t, from, count)
    decreases count - from
  {
    if from < count {
      MaxIsHardware(s, t, from);
      SameUsable(s, t, from + 1, count);
    }
  }

  // ---------------------------------------------------------------------
  // The daemon's brightness loop
  // ---------------------------------------------------------------------

  datatype Level = High | Medium | Low

  /** What the active window was classified as. */
  datatype Window = Terminal | HeavyUi | Other

  function TargetPercent(window: Window, level: Level): (p: nat)
    ensures 1 <= p <= 100
  {
    var base := match window case Terminal => 12 case HeavyUi => 30 case Other => 20;
    var delta := match level case High => 0 case Medium => 10 case Low => 20;
    Clamp(base + delta, 1, 100)
  }

  class BrightnessLoop {
    const display: DisplayManager
    /** Last percentage applied, -1 before the first one. */
    var lastApplied: int

    constructor (display: DisplayManager)
      ensures this.display == display && lastApplied == -1
    {
      this.display := display;
      lastApplied := -1;
    }

    /** One tick of the loop with auto-brightness on. */
    method ApplyBrightnessStep(window: Window, level: Level, external: nat) returns (wrote: bool)
      modifies this, display.root
      ensures var s := old(display.root.nodes);
              var target := TargetPercent(window, level);
              && wrote == (old(lastApplied) != target || PercentOf(s, display.count, external) != target)
              && display.root.nodes == (if wrote then AfterPercent(s, display.count, target) else s)
              && lastApplied == target
    {
      var target := TargetPercent(window, level);
      var current := display.BrightnessPercent(external);
      wrote := lastApplied != target || current != target;
      if wrote {
        display.SetBrightnessPercent(target);
        lastApplied := target;
      }
    }
  }

  /**
   With an unchanged target and nobody else writing, the tick after a write is silent
   exactly when 100 divides `target * max`; when it is not, the rewrite changes nothing.
   */
  lemma BrightnessLoopGoesQuiet(s: Store, count: nat, window: Window, level: Level, external: nat)
    requires FirstUsable(s, 0, count).Some? && Brightness(FirstUsable(s, 0, count).value) in s
    requires 100 * MaxOf(s, FirstUsable(s, 0, count).value) < TWO_63
    ensures var target := TargetPercent(window, level);
            var t := AfterPercent(s, count, target);
            && (PercentOf(t, count, external) == target
                <==> (target * MaxOf(s, FirstUsable(s, 0, count).value)) % 100 == 0)
            && AfterPercent(t, count, target) == t
  {
    var target := TargetPercent(window, level);
    var max := MaxOf(s, FirstUsable(s, 0, count).value);
    assert target * max <= 100 * max;
    BrightnessRoundTrip(s, count, target, external);
    var t := AfterPercent(s, count, target);
    forall d: nat ensures MaxOf(t, d) == MaxOf(s, d) {
      assert !BacklightMax(d).Mutable();
    }
  }

  lemma QuotientIsExactly(x: nat, n: nat, q: nat)
    requires n > 0
    ensures x / n == q <==> q * n <= x < (q + 1) * n
  {
    assert x == n * (x / n) + x % n;
    if q * n <= x < (q + 1) * n {
      assert (q + 1) * n == q * n + n;
      DivisionIsUnique(x, n, q, x - q * n);
    }
  }

  /** The store after the node writes, with the helper tool having left `raw` on one device. */
  function AfterHelper(s: Store, count: nat, percent: nat, device: nat, raw: int): Store {
    AfterPercent(s, count, percent)[Brightness(device) := Num(raw)]
  }

  /**
   The helper tool runs after the node writes and may leave another raw value on the first
   usable device. The next tick is silent exactly when that value reads as the target.
   */
  lemma LoopIsQuietAfterHelperExactly(s: Store, count: nat, window: Window, level: Level, external: nat, raw: nat)
    requires FirstUsable(s, 0, count).Some? && Brightness(FirstUsable(s, 0, count).value) in s
    requires 100 * raw < TWO_63
    ensures var target := TargetPercent(window, level);
            var d := FirstUsable(s, 0, count).value;
            PercentOf(AfterHelper(s, count, target, d, raw), count, external) == target
            <==> target * MaxOf(s, d) <= raw * 100 < (target + 1) * MaxOf(s, d)
  {
    var target := TargetPercent(window, level);
    var d := FirstUsable(s, 0, count).value;
    var t := AfterHelper(s, count, target, d, raw);
    assert SameHardware(s, t);
    SameUsable(s, t, 0, count);
    MaxIsHardware(s, t, d);
    QuotientIsExactly(raw * 100, MaxOf(s, d), target);
  }

  // ---------------------------------------------------------------------
  // From the declared nodes
  // ---------------------------------------------------------------------

  /** The device declares the positive maximum `max`. */
  predicate DeclaresMax(s: Store, device: nat, max: int) {
    BacklightMax(device) in s && s[BacklightMax(device)] == Num(max) && 0 < max < 0x8000_0000_0000_0000
  }

  /**
   A request from what a device declares: its node ends at the largest raw value that is no
   more than the share of the maximum, for a percentage moved into 1..100. A device without
   a positive maximum keeps its content.
   */
  lemma BrightnessFromDeclared(s: Store, count: nat, percent: nat, device: nat)
    requires device < count && Brightness(device) in s
    ensures var t := AfterPercent(s, count, percent);
            var p := if percent < 1 then 1 else if percent > 100 then 100 else percent;
            && Brightness(device) in t
            && (forall max :: DeclaresMax(s, device, max) ==>
                  t[Brightness(device)].Num?
                  && t[Brightness(device)].n * 100 <= p * max < (t[Brightness(device)].n + 1) * 100)
            && ((forall max :: !DeclaresMax(s, device, max)) ==> t[Brightness(device)] == s[Brightness(device)])
  {
    if MaxOf(s, device) > 0 {
      assert DeclaresMax(s, device, MaxOf(s, device));
    }
  }

  /** A device is usable exactly when it declares a positive maximum. */
  lemma UsableExactly(s: Store, device: nat, max: int)
    ensures DeclaresMax(s, device, max) <==> MaxOf(s, device) == max && max > 0
  {
  }

  /**
   A reading from what the devices declare: the truncated percentage of the first device with
   a positive maximum, held to 255, and 0 for an unreadable brightness; else the helper's
   report.
   */
  lemma ReadingFromDeclared(s: Store, count: nat, external: nat, device: nat, max: int, cur: int)
    requires device < count && DeclaresMax(s, device, max)
    requires forall d: nat, m :: d < device ==> !DeclaresMax(s, d, m)
    requires 0 <= cur < 0x8000_0000_0000_0000
    requires if Brightness(device) in s && s[Brightness(device)].Num? then s[Brightness(device)].n == cur else cur == 0
    ensures PercentOf(s, count, external) == if cur * 100 / max > 255 then 255 else cur * 100 / max
  {
    FirstIs(s, count, device, max);
    HeldTo255(cur * 100, max);
  }

  lemma HeldTo255(x: nat, max: nat)
    requires max > 0
    ensures Clamp(x / max, 0, 255) == if x / max > 255 then 255 else x / max
  {
    var q := x / max;
    assert q >= 0;
  }

  lemma FirstIs(s: Store, count: nat, device: nat, max: int)
    requires device < count && DeclaresMax(s, device, max)
    requires forall d: nat, m :: d < device ==> !DeclaresMax(s, d, m)
    ensures FirstUsable(s, 0, count) == Some(device) && MaxOf(s, device) == max
  {
    UsableExactly(s, device, max);
    var r := FirstUsable(s, 0, count);
    if r.Some? {
      UsableExactly(s, r.value, MaxOf(s, r.value));
    }
  }

  lemma NoDeviceAsksTheHelper(s: Store, count: nat, external: nat)
    requires forall d: nat, m :: d < count ==> !DeclaresMax(s, d, m)
    ensures PercentOf(s, count, external) == external
  {
    var r := FirstUsable(s, 0, count);
    if r.Some? {
      UsableExactly(s, r.value, MaxOf(s, r.value));
    }
  }

  /** Percent by window and level: a terminal darkest, heavy pages brightest, ten more for each level down. */
  lemma TargetTable(window: Window, level: Level)
    ensures window == Terminal ==> TargetPercent(window, level) == [12, 22, 32][LevelIndex(level)]
    ensures window == Other ==> TargetPercent(window, level) == [20, 30, 40][LevelIndex(level)]
    ensures window == HeavyUi ==> TargetPercent(window, level) == [30, 40, 50][LevelIndex(level)]
  {
  }

  function LevelIndex(level: Level): (i: nat)
    ensures i < 3
  {
    match level case High => 0 case Medium => 1 case Low => 2
  }
}
