/**
 Left and right in the dashboard, item by item, read off the nodes: what a press leaves in
 terms of what the node held before.
 */
module Presses {
  import opened Prelude
  import opened Sysfs
  import opened Cpu
  import opened Gpu
  import opened Rapl
  import opened Backlight
  import opened Backend

  /** `x`, or the end of `lo..hi` that is nearer to it. */
  function Inside(x: int, lo: int, hi: int): (r: int)
    requires lo <= hi
    ensures lo <= r <= hi && (lo <= x <= hi ==> r == x)
  {
    if x < lo then lo else if x > hi then hi else x
  }

  /** One press on an unsigned 32-bit value: up wraps round, down may pass below zero and is then held. */
  function Pressed(cur: nat, step: nat, up: bool): int {
    if up then (cur + step) % 0x1_0000_0000 else cur - step
  }

  /** Stepping against the displayed bounds and clamping to a narrower range is stepping in that range. */
  lemma StepInRange(cur: nat, step: nat, shown: Range, range: Range, up: bool)
    requires shown.lo <= range.lo <= range.hi <= shown.hi
    ensures Clamp(Stepped(cur, step, shown, up), range.lo, range.hi)
         == Inside(Pressed(cur, step, up), range.lo, range.hi)
  {
  }

  // ---------------------------------------------------------------------
  // Cores
  // ---------------------------------------------------------------------

  /** Every CPU but the first can be switched, and exactly those before index `c` read 1. */
  predicate OnlineAre(s: Store, cpus: seq<nat>, c: nat) {
    forall i :: 1 <= i < |cpus| ==> CpuOnline(cpus[i]) in s && (s[CpuOnline(cpus[i])] == Num(1) <==> i < c)
  }

  lemma CountOfPrefix(s: Store, cpus: seq<nat>, c: nat)
    requires 1 <= c <= |cpus| && OnlineAre(s, cpus, c)
    ensures OnlineCount(s, cpus) == c
  {
    assert (set i | 1 <= i < |cpus| && IsOnline(s, cpus[i])) == Interval(1, c);
  }

  /** With `c` CPUs online a press leaves one more or one fewer, at least one and at most all. */
  lemma CoresPress(s: Store, hw: Hardware, c: nat, up: bool, external: nat)
    requires ValidHardware(hw) && 1 <= c <= |hw.cpus| && OnlineAre(s, hw.cpus, c)
    ensures OnlineAre(AfterAdjust(s, hw, Cores, up, external), hw.cpus,
                      if up then (if c < |hw.cpus| then c + 1 else c) else if c > 1 then c - 1 else 1)
  {
    CountOfPrefix(s, hw.cpus, c);
    var count := if up then Min(c + 1, |hw.cpus|) else Max(SatSub(c, 1), 1);
    SwitchedTo(s, hw.cpus, count);
  }

  lemma SwitchedTo(s: Store, cpus: seq<nat>, count: nat)
    requires cpus != [] && Increasing(cpus) && 1 <= count <= |cpus|
    requires forall i :: 1 <= i < |cpus| ==> CpuOnline(cpus[i]) in s
    ensures OnlineAre(AfterOnlineCores(s, cpus, count), cpus, count)
  {
    var t := AfterOnlineCores(s, cpus, count);
    forall i | 1 <= i < |cpus|
      ensures CpuOnline(cpus[i]) in t && (t[CpuOnline(cpus[i])] == Num(1) <==> i < count)
    {
      OnlineSetIsAPrefix(s, cpus, count, i);
    }
  }

  // ---------------------------------------------------------------------
  // Frequencies
  // ---------------------------------------------------------------------

  /** 100 MHz from the first CPU's limit, in every window, held inside the discovered range. */
  lemma FreqPress(s: Store, hw: Hardware, up: bool, external: nat, khz: int, range: Range, cpu: nat)
    requires ValidHardware(hw) && cpu in hw.cpus && CpufreqDir(cpu) in s && ScalingMax(cpu) in s
    requires Bounds(s, hw.cpus) == Some(range)
    requires FirstLimitIs(s, khz) && khz >= 0
    ensures var t := AfterAdjust(s, hw, FreqLimit, up, external);
            var mhz := khz / 1000 % 0x1_0000_0000;
            && ScalingMax(cpu) in t
            && t[ScalingMax(cpu)] == Num(Inside(Pressed(mhz, 100, up), range.lo, range.hi) * 1000)
  {
    LimitOfFirstCpu(s, khz);
    StepInRange(khz / 1000 % 0x1_0000_0000, 100, range, range, up);
  }

  /** The node reads as `n`, or cannot be read as a 32-bit number and `n` is 0. */
  ghost predicate Reads32(s: Store, node: Node, n: int) {
    Holds32(s, node, n) || (n == 0 && forall m :: !Holds32(s, node, m))
  }

  /** 50 MHz from the card's maximum, held inside the declared range. */
  lemma GpuPress(s: Store, hw: Hardware, up: bool, external: nat, mhz: int, lo: int, hi: int)
    requires ValidHardware(hw) && hw.hasGpu
    requires Holds32(s, GtRpn, lo) && Holds32(s, GtRp0, hi) && lo < hi && GtMax in s && Reads32(s, GtMax, mhz)
    ensures var t := AfterAdjust(s, hw, GpuFreqItem, up, external);
            mhz >= 0 && GtMax in t && t[GtMax] == Num(Inside(Pressed(mhz, 50, up), lo, hi))
  {
    var r := ReadU32(s, GtMax);
    if r.Some? {
      assert Holds32(s, GtMax, r.value);
    }
    StepInRange(mhz, 50, Range(lo, hi), Range(lo, hi), up);
  }

  // ---------------------------------------------------------------------
  // Package power
  // ---------------------------------------------------------------------

  /** What the dashboard shows covers every zone's own range. */
  lemma DisplayCoversZones(s: Store, zones: seq<nat>, name: string, zone: nat)
    requires (name == LONG_TERM || name == SHORT_TERM) && zone in zones && ZoneRange(s, zone, name).Some?
    ensures var shown, own := DisplayWatts(s, zones), ZoneRange(s, zone, name).value;
            shown.lo <= own.lo && own.hi <= shown.hi
  {
    var i :| 0 <= i < |zones| && zones[i] == zone;
    assert ZoneRange(s, zones[i], name).Some?;
  }

  /** The constraint behind a dashboard row. */
  function ConstraintOf(item: Item): string
    requires item.RaplPl1? || item.RaplPl2?
  {
    if item.RaplPl1? then "long_term" else "short_term"
  }

  /** What a limit written to a writable zone reads there. */
  lemma WrittenLimit(s: Store, zones: seq<nat>, name: string, watts: int, zone: nat)
    requires zone in zones && Writable(s, zone, name)
    ensures var t := AfterConstraint(s, zones, name, watts);
            var limit := ConstraintLimit(zone, ConstraintIndex(s, zone, name).value);
            var own := ZoneRange(s, zone, name);
            && own.Some? && own.value.lo <= own.value.hi
            && limit in t && t[limit] == Num(Clamp(watts, own.value.lo, own.value.hi) * MICRO)
  {
  }

  /** What the dashboard reads: the limit node of the first zone exposing the constraint, in whole watts. */
  lemma ReadingInWatts(s: Store, zones: seq<nat>, name: string, first: nat, uw: int)
    requires FirstExposing(s, zones, name) == Some(first)
    requires Reads64(s, ConstraintLimit(first, ConstraintIndex(s, first, name).value), uw)
    ensures uw >= 0 && LimitOf(s, zones, name) == uw / 1_000_000 % 0x1_0000_0000
  {
    LimitIsTheFirstZone(s, zones, name);
    var node := ConstraintLimit(first, ConstraintIndex(s, first, name).value);
    var r := ReadU64(s, node);
    if r.Some? {
      assert Holds(s, node, r.value);
    }
  }

  /** The node reads as `n`, or cannot be read as a 64-bit number and `n` is 0. */
  ghost predicate Reads64(s: Store, node: Node, n: int) {
    Holds(s, node, n) || (n == 0 && forall m :: !Holds(s, node, m))
  }

  lemma RaplStep(s: Store, zones: seq<nat>, name: string, up: bool, cur: nat, zone: nat)
    requires (name == LONG_TERM || name == SHORT_TERM) && zone in zones && Writable(s, zone, name)
    ensures var t := AfterConstraint(s, zones, name, Stepped(cur, 2, DisplayWatts(s, zones), up));
            var limit := ConstraintLimit(zone, ConstraintIndex(s, zone, name).value);
            var own := ZoneRange(s, zone, name);
            && own.Some? && own.value.lo <= own.value.hi && limit in t
            && t[limit] == Num(Inside(Pressed(cur, 2, up), own.value.lo, own.value.hi) * 1_000_000)
  {
    WrittenLimit(s, zones, name, Stepped(cur, 2, DisplayWatts(s, zones), up), zone);
    DisplayCoversZones(s, zones, name, zone);
    StepInRange(cur, 2, DisplayWatts(s, zones), ZoneRange(s, zone, name).value, up);
  }

  /**
   Two watts from the reading of the first zone that exposes the constraint, in every writable
   zone, each held inside its own range: the wider displayed range never shows.
   */
  lemma RaplPress(s: Store, hw: Hardware, item: Item, up: bool, external: nat, first: nat, uw: int, zone: nat)
    requires ValidHardware(hw) && (item.RaplPl1? || item.RaplPl2?)
    requires var name := ConstraintOf(item);
             && FirstExposing(s, hw.zones, name) == Some(first)
             && Reads64(s, ConstraintLimit(first, ConstraintIndex(s, first, name).value), uw)
             && zone in hw.zones && Writable(s, zone, name)
    ensures var name := ConstraintOf(item);
            var t := AfterAdjust(s, hw, item, up, external);
            var limit := ConstraintLimit(zone, ConstraintIndex(s, zone, name).value);
            var own := ZoneRange(s, zone, name);
            && own.Some? && own.value.lo <= own.value.hi && limit in t
            && t[limit] == Num(Inside(Pressed(uw / 1_000_000 % 0x1_0000_0000, 2, up),
                                      own.value.lo, own.value.hi) * 1_000_000)
  {
    var name := ConstraintOf(item);
    ReadingInWatts(s, hw.zones, name, first, uw);
    RaplStep(s, hw.zones, name, up, LimitOf(s, hw.zones, name), zone);
    AdjustsOneConstraint(s, hw, item, up, external);
  }

  lemma AdjustsOneConstraint(s: Store, hw: Hardware, item: Item, up: bool, external: nat)
    requires ValidHardware(hw) && (item.RaplPl1? || item.RaplPl2?) && hw.zones != []
    ensures var name := ConstraintOf(item);
            AfterAdjust(s, hw, item, up, external)
            == AfterConstraint(s, hw.zones, name,
                               Stepped(LimitOf(s, hw.zones, name), 2, DisplayWatts(s, hw.zones), up))
  {
  }

  // ---------------------------------------------------------------------
  // Turbo and brightness
  // ---------------------------------------------------------------------

  /** A press turns the one knob that rules over: `no_turbo` where it exists, else `boost`. */
  lemma TurboPress(s: Store, hw: Hardware, up: bool, external: nat)
    requires ValidHardware(hw)
    ensures AfterAdjust(s, hw, TurboItem, up, external)
         == if NoTurbo in s then s[NoTurbo := Num(if s[NoTurbo] == Num(0) then 1 else 0)]
            else if Boost in s then s[Boost := Num(if s[Boost] == Num(1) then 0 else 1)]
            else s
  {
  }

  /** Percent after a press: five more, wrapping at 256, or five fewer, held inside 1..100. */
  function PressedPercent(p: nat, up: bool): (q: nat)
    ensures 1 <= q <= 100
  {
    Inside(if up then (p + 5) % 256 else p - 5, 1, 100)
  }

  /** Five percent from the reading of the first usable device, in every usable device. */
  lemma BrightnessPress(s: Store, hw: Hardware, up: bool, external: nat, p: nat, device: nat, max: int)
    requires ValidHardware(hw) && device < hw.backlights && Brightness(device) in s && DeclaresMax(s, device, max)
    requires PercentOf(s, hw.backlights, external) == p
    ensures var t := AfterAdjust(s, hw, BrightnessItem, up, external);
            var q := PressedPercent(p, up);
            && Brightness(device) in t && t[Brightness(device)].Num?
            && t[Brightness(device)].n * 100 <= q * max < (t[Brightness(device)].n + 1) * 100
  {
    BrightnessFromDeclared(s, hw.backlights, NextPercent(p, up), device);
  }

  /**
   Without a discovered range, a card or a writable zone a press writes nothing: the fallback
   bounds of the display never reach a node.
   */
  lemma NoRangeNoPress(s: Store, hw: Hardware, item: Item, up: bool, external: nat)
    requires ValidHardware(hw)
    requires match item
             case FreqLimit => Bounds(s, hw.cpus) == None
             case GpuFreqItem => !hw.hasGpu || GpuRange(s) == None
             case RaplPl1 => forall zone :: zone in hw.zones ==> !Writable(s, zone, "long_term")
             case RaplPl2 => forall zone :: zone in hw.zones ==> !Writable(s, zone, "short_term")
             case BrightnessItem => forall d: nat :: d < hw.backlights ==> MaxOf(s, d) <= 0
             case _ => false
    ensures AfterAdjust(s, hw, item, up, external) == s
  {
  }
}
