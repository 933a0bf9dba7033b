/**
 The composite writers of the actuators: the daemon's ladder step, the power
 profiles and the dashboard's left/right adjustments.
 */
module Backend {
  import opened Prelude
  import opened Sysfs
  import opened Cpu
  import opened Gpu
  import opened Rapl
  import opened Backlight
  import opened Ladder

  /** What was found when the backend was built. No RAPL controller means no zones. */
  datatype Hardware = Hardware(cpus: seq<nat>, zones: seq<nat>, hasGpu: bool, backlights: nat)

  predicate ValidHardware(hw: Hardware) {
    hw.cpus != [] && Increasing(hw.cpus)
  }

  datatype Profile = Performance | Extreme | Normal | AutoExtreme

  datatype Item = Cores | FreqLimit | GpuFreqItem | RaplPl1 | RaplPl2 | TurboItem | BrightnessItem

  /** CPU frequency bounds for display, with the legacy fallback. */
  const FALLBACK_FREQ := Range(400, 1600)

  function RangeOr(r: Option<Range>, default: Range): Range {
    if r.Some? then r.value else default
  }

  // ---------------------------------------------------------------------
  // The ladder step
  // ---------------------------------------------------------------------

  /** What one tick asks for; a package limit without a discovered range is not asked for. */
  datatype Targets = Targets(
    power: real, cores: int, freq: nat, gpu: nat, turbo: bool, long: Option<nat>, short: Option<nat>)

  function ScaledLimit(bounds: Option<Range>, c: real, d: real): Option<nat> {
    if bounds.None? then None else Some(ScaleWithin(bounds.value, c, d))
  }

  function TargetsOf(s: Store, hw: Hardware, level: Level, load: real): Targets
    requires ValidHardware(hw)
  {
    var c := LevelCeiling(level);
    var d := DiscretePower(load, |hw.cpus|);
    var cpu := RangeOr(Bounds(s, hw.cpus), Range(0, 0));
    var gpu := RangeOr(if hw.hasGpu then GpuRange(s) else None, Range(0, 0));
    Targets(d, CoreRamp(|hw.cpus|, c, d), ScaleStaged(cpu, c, d), ScaleStaged(gpu, c, d), Turbo(level, d),
            ScaledLimit(BoundsOf(s, hw.zones, LONG_TERM), c, d),
            ScaledLimit(BoundsOf(s, hw.zones, SHORT_TERM), c, d))
  }

  function AfterLimit(s: Store, zones: seq<nat>, name: string, watts: Option<nat>): Store {
    if watts.None? then s else AfterConstraint(s, zones, name, watts.value)
  }

  function AfterControls(s: Store, hw: Hardware, t: Targets): Store
    requires ValidHardware(hw)
  {
    var s1 := AfterOnlineCores(s, hw.cpus, t.cores);
    var s2 := AfterFreqLimit(s1, hw.cpus, t.freq);
    var s3 := if hw.hasGpu then AfterGpuFreq(s2, t.gpu) else s2;
    AfterTurbo(s3, t.turbo)
  }

  /** The writes of a tick, in the order the daemon makes them. */
  function AfterTargets(s: Store, hw: Hardware, t: Targets): Store
    requires ValidHardware(hw)
  {
    var s1 := AfterLimit(s, hw.zones, LONG_TERM, t.long);
    AfterControls(AfterLimit(s1, hw.zones, SHORT_TERM, t.short), hw, t)
  }

  function AfterLadder(s: Store, hw: Hardware, level: Level, load: real): Store
    requires ValidHardware(hw)
  {
    AfterTargets(s, hw, TargetsOf(s, hw, level, load))
  }

  // ---------------------------------------------------------------------
  // Profiles
  // ---------------------------------------------------------------------

  function End(r: Range, top: bool): nat {
    if top then r.hi else r.lo
  }

  function AfterConstraintEnd(s: Store, zones: seq<nat>, name: string, top: bool): Store {
    match BoundsOf(s, zones, name)
    case None => s
    case Some(b) => AfterConstraint(s, zones, name, End(b, top))
  }

  function AfterCpuEnd(s: Store, cpus: seq<nat>, top: bool, cores: nat): Store
    requires cpus != []
  {
    var s1 := AfterOnlineCores(s, cpus, cores);
    var range := Bounds(s1, cpus);
    AfterTurbo(if range.Some? then AfterFreqLimit(s1, cpus, End(range.value, top)) else s1, top)
  }

  function AfterGpuEnd(s: Store, hw: Hardware, top: bool): Store {
    var range := if hw.hasGpu then GpuRange(s) else None;
    if range.Some? then AfterGpuFreq(s, End(range.value, top)) else s
  }

  /** Every control at one end of its discovered range. */
  function AfterExtremes(s: Store, hw: Hardware, top: bool, cores: nat, percent: nat): Store
    requires ValidHardware(hw)
  {
    var s1 := AfterCpuEnd(s, hw.cpus, top, cores);
    var s2 := AfterConstraintEnd(s1, hw.zones, LONG_TERM, top);
    var s3 := AfterConstraintEnd(s2, hw.zones, SHORT_TERM, top);
    var s4 := AfterGpuEnd(s3, hw, top);
    AfterPercent(s4, hw.backlights, percent)
  }

  function AfterProfile(s: Store, hw: Hardware, profile: Profile): Store
    requires ValidHardware(hw)
  {
    match profile
    case Performance => AfterExtremes(s, hw, true, |hw.cpus|, 100)
    case Normal => AfterExtremes(s, hw, true, |hw.cpus|, 100)
    case Extreme => AfterExtremes(s, hw, false, Min(2, |hw.cpus|), 10)
    case AutoExtreme => s
  }

  // ---------------------------------------------------------------------
  // Dashboard adjustments
  // ---------------------------------------------------------------------

  /** One step up or down from `cur`, stopped at the displayed bounds. */
  function Stepped(cur: nat, step: nat, range: Range, up: bool): nat {
    if up then Min(U32(cur + step), range.hi) else Max(SatSub(cur, step), range.lo)
  }

  /** Five percent up or down, on a `u8`. */
  function NextPercent(cur: nat, up: bool): nat {
    if up then Min((cur + 5) % 256, 100) else Max(SatSub(cur, 5), 1)
  }

  function AfterAdjust(s: Store, hw: Hardware, item: Item, up: bool, external: nat): Store
    requires ValidHardware(hw)
  {
    match item
    case Cores =>
      var cur := OnlineCount(s, hw.cpus);
      AfterOnlineCores(s, hw.cpus, if up then Min(cur + 1, |hw.cpus|) else Max(SatSub(cur, 1), 1))
    case FreqLimit =>
      AfterFreqLimit(s, hw.cpus, Stepped(FreqLimitOf(s), 100, RangeOr(Bounds(s, hw.cpus), FALLBACK_FREQ), up))
    case GpuFreqItem =>
      if hw.hasGpu then AfterGpuFreq(s, Stepped(GpuFreq(s), 50, DisplayRange(s), up)) else s
    case RaplPl1 => AfterRaplAdjust(s, hw, LONG_TERM, up)
    case RaplPl2 => AfterRaplAdjust(s, hw, SHORT_TERM, up)
    case TurboItem => AfterTurbo(s, !TurboEnabledIn(s))
    case BrightnessItem =>
      if hw.backlights == 0 then s
      else
        AfterPercent(s, hw.backlights, NextPercent(PercentOf(s, hw.backlights, external), up))
  }

  function AfterRaplAdjust(s: Store, hw: Hardware, name: string, up: bool): Store {
    if hw.zones == [] then s
    else AfterConstraint(s, hw.zones, name, Stepped(LimitOf(s, hw.zones, name), 2, DisplayWatts(s, hw.zones), up))
  }

  // ---------------------------------------------------------------------
  // The backend object
  // ---------------------------------------------------------------------

  class LinuxBackend {
    const root: SysfsRoot
    const cpu: CpuGovernor
    const gpu: Option<GpuController>
    const rapl: Option<RaplController>
    const backlight: Option<DisplayManager>

    ghost predicate Valid() {
      && cpu.Valid() && cpu.root == root
      && (gpu.Some? ==> gpu.value.root == root)
      && (rapl.Some? ==> rapl.value.root == root && rapl.value.zones != [])
      && (backlight.Some? ==> backlight.value.root == root && backlight.value.count > 0)
    }

    ghost function Discovered(): (hw: Hardware)
      requires Valid()
      ensures ValidHardware(hw)
    {
      Hardware(cpu.CpuIds(),
               if rapl.Some? then rapl.value.zones else [],
               gpu.Some?,
               if backlight.Some? then backlight.value.count else 0)
    }

    constructor (root: SysfsRoot, cpu: CpuGovernor, gpu: Option<GpuController>,
                 rapl: Option<RaplController>, backlight: Option<DisplayManager>)
      requires cpu.Valid() && cpu.root == root
      requires gpu.Some? ==> gpu.value.root == root
      requires rapl.Some? ==> rapl.value.root == root && rapl.value.zones != []
      requires backlight.Some? ==> backlight.value.root == root && backlight.value.count > 0
      ensures Valid() && this.root == root
    {
      this.root := root;
      this.cpu := cpu;
      this.gpu := gpu;
      this.rapl := rapl;
      this.backlight := backlight;
    }

    /** One tick of the adaptive ladder; a disabled mode touches nothing. */
    method ApplyLogicStep(enabled: bool, level: Level, load: real) returns (targets: Targets)
      requires Valid()
      modifies root
      ensures !enabled ==> root.nodes == old(root.nodes)
                           && targets == Targets(1.0, |Discovered().cpus|, 0, 0, true, None, None)
      ensures enabled ==>
                && targets == TargetsOf(old(root.nodes), Discovered(), level, load)
                && root.nodes == AfterLadder(old(root.nodes), Discovered(), level, load)
    {
      if !enabled {
        return Targets(1.0, |cpu.CpuIds()|, 0, 0, true, None, None);
      }
      targets := ApplyLadder(level, load);
    }

    /** The enabled tick. */
    method ApplyLadder(level: Level, load: real) returns (targets: Targets)
      requires Valid()
      modifies root
      ensures targets == TargetsOf(old(root.nodes), Discovered(), level, load)
      ensures root.nodes == AfterLadder(old(root.nodes), Discovered(), level, load)
    {
      var ncpu := |cpu.CpuIds()|;
      var d := DiscretePower(load, ncpu);
      var c := LevelCeiling(level);
      var found := cpu.DiscoveredFreqBounds();
      var freq := ScaleStaged(RangeOr(found, Range(0, 0)), c, d);
      var gpuFreq := ScaleStaged(RangeOr(if gpu.Some? then GpuRange(root.nodes) else None, Range(0, 0)), c, d);
      var cores := CoreRamp(ncpu, c, d);
      ghost var s := root.nodes;
      var long, short := ApplyPackageLimits(c, d);
      targets := Targets(d, cores, freq, gpuFreq, Turbo(level, d), long, short);
      assert targets == TargetsOf(s, Discovered(), level, load);
      ApplyControls(targets);
    }

    /** Cores, frequencies and turbo of a tick, after its package limits. */
    method ApplyControls(targets: Targets)
      requires Valid()
      modifies root
      ensures root.nodes == AfterControls(old(root.nodes), Discovered(), targets)
    {
      cpu.SetOnlineCores(Max(targets.cores, 0));
      cpu.SetFreqLimit(targets.freq);
      if gpu.Some? {
        gpu.value.SetGpuFreq(targets.gpu);
      }
      cpu.SetTurboEnabled(targets.turbo);
    }

    /** The package limits of a tick, each scaled inside its own discovered range. */
    method ApplyPackageLimits(c: real, d: real) returns (long: Option<nat>, short: Option<nat>)
      requires Valid()
      modifies root
      ensures long == ScaledLimit(BoundsOf(old(root.nodes), Discovered().zones, LONG_TERM), c, d)
      ensures short == ScaledLimit(BoundsOf(old(root.nodes), Discovered().zones, SHORT_TERM), c, d)
      ensures root.nodes == AfterLimit(AfterLimit(old(root.nodes), Discovered().zones, LONG_TERM, long),
                                       Discovered().zones, SHORT_TERM, short)
    {
      ghost var s := root.nodes;
      long, short := None, None;
      if rapl.Some? {
        long := ScaledLimit(BoundsOf(root.nodes, rapl.value.zones, LONG_TERM), c, d);
        if long.Some? {
          var _ := rapl.value.WriteConstraint(LONG_TERM, long.value);
        }
        BoundsOfAreHardware(s, root.nodes, rapl.value.zones, SHORT_TERM);
        short := ScaledLimit(BoundsOf(root.nodes, rapl.value.zones, SHORT_TERM), c, d);
        if short.Some? {
          var _ := rapl.value.WriteConstraint(SHORT_TERM, short.value);
        }
      }
    }

    method ApplyProfile(profile: Profile)
      requires Valid()
      modifies root
      ensures root.nodes == AfterProfile(old(root.nodes), Discovered(), profile)
    {
      match profile
      case Performance => ApplyExtremes(true, |cpu.CpuIds()|, 100);
      case Normal => ApplyExtremes(true, |cpu.CpuIds()|, 100);
      case Extreme => ApplyExtremes(false, Min(2, |cpu.CpuIds()|), 10);
      case AutoExtreme =>
    }

    method ApplyExtremes(top: bool, cores: nat, percent: nat)
      requires Valid()
      modifies root
      ensures root.nodes == AfterExtremes(old(root.nodes), Discovered(), top, cores, percent)
    {
      ApplyCpuEnd(top, cores);
      ApplyConstraintEnd(LONG_TERM, top);
      ApplyConstraintEnd(SHORT_TERM, top);
      ApplyGpuEnd(top);
      ApplyBrightness(percent);
    }

    method ApplyGpuEnd(top: bool)
      requires Valid()
      modifies root
      ensures root.nodes == AfterGpuEnd(old(root.nodes), Discovered(), top)
    {
      if gpu.Some? {
        var g := GpuRange(root.nodes);
        if g.Some? {
          gpu.value.SetGpuFreq(End(g.value, top));
        }
      }
    }

    method ApplyBrightness(percent: nat)
      requires Valid()
      modifies root
      ensures root.nodes == AfterPercent(old(root.nodes), Discovered().backlights, percent)
    {
      if backlight.Some? {
        backlight.value.SetBrightnessPercent(percent);
      } else {
        assert AfterPercent(root.nodes, 0, percent) == root.nodes;
      }
    }

    method ApplyCpuEnd(top: bool, cores: nat)
      requires Valid()
      modifies root
      ensures root.nodes == AfterCpuEnd(old(root.nodes), Discovered().cpus, top, cores)
    {
      cpu.SetOnlineCores(cores);
      var range := cpu.DiscoveredFreqBounds();
      if range.Some? {
        cpu.SetFreqLimit(End(range.value, top));
      }
      cpu.SetTurboEnabled(top);
    }

    method ApplyConstraintEnd(name: string, top: bool)
      requires Valid()
      modifies root
      ensures root.nodes == AfterConstraintEnd(old(root.nodes), Discovered().zones, name, top)
    {
      if rapl.Some? {
        var range := BoundsOf(root.nodes, rapl.value.zones, name);
        if range.Some? {
          var _ := rapl.value.WriteConstraint(name, End(range.value, top));
        }
      }
    }

    /** Left (`up` false) or right (`up` true) on one dashboard row. */
    method Adjust(item: Item, up: bool, external: nat)
      requires Valid()
      modifies root
      ensures root.nodes == AfterAdjust(old(root.nodes), Discovered(), item, up, external)
    {
      match item {
        case Cores =>
          var cur := cpu.OnlineCores();
          cpu.SetOnlineCores(if up then Min(cur + 1, |cpu.CpuIds()|) else Max(SatSub(cur, 1), 1));
        case FreqLimit =>
          var found := cpu.DiscoveredFreqBounds();
          cpu.SetFreqLimit(Stepped(FreqLimitOf(root.nodes), 100, RangeOr(found, FALLBACK_FREQ), up));
        case GpuFreqItem =>
          if gpu.Some? {
            gpu.value.SetGpuFreq(Stepped(GpuFreq(root.nodes), 50, DisplayRange(root.nodes), up));
          }
        case RaplPl1 => AdjustRapl(LONG_TERM, up);
        case RaplPl2 => AdjustRapl(SHORT_TERM, up);
        case TurboItem => cpu.SetTurboEnabled(!TurboEnabledIn(root.nodes));
        case BrightnessItem =>
          if backlight.Some? {
            var cur := backlight.value.BrightnessPercent(external);
            backlight.value.SetBrightnessPercent(NextPercent(cur, up));
          }
      }
    }

    method AdjustRapl(name: string, up: bool)
      requires Valid()
      modifies root
      ensures root.nodes == AfterRaplAdjust(old(root.nodes), Discovered(), name, up)
    {
      if rapl.Some? {
        var zones := rapl.value.zones;
        var cur := LimitOf(root.nodes, zones, name);
        var _ := rapl.value.WriteConstraint(name, Stepped(cur, 2, DisplayWatts(root.nodes, zones), up));
      }
    }
  }
}
