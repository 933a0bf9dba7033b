/**
 What a power profile leaves in the store, in closed form: every control it finds sits at
 one end of its own discovered range.
 */
module ProfileEffect {
  import opened Prelude
  import opened Sysfs
  import opened Cpu
  import opened Gpu
  import opened Rapl
  import opened Backlight
  import opened Ladder
  import opened Backend
  import opened NoRatchet
  import opened LadderEffect

  /** The end of the zone's own range, for a slot that carries one of the two limits. */
  function LimitSets(s: Store, hw: Hardware, top: bool, zone: nat, slot: nat): Option<int> {
    if IsLimitOf(s, hw, LONG_TERM, zone, slot) || IsLimitOf(s, hw, SHORT_TERM, zone, slot)
    then
      var own := SlotRange(s, zone, slot).value;
      Some((if top then own.hi else own.lo) * 1_000_000)
    else None
  }

  /** What a profile puts in `node`; `None` where it has no business. */
  function ProfileSets(s: Store, hw: Hardware, top: bool, cores: nat, percent: nat, node: Node): Option<int>
    requires ValidHardware(hw)
  {
    match node
    case CpuOnline(cpu) =>
      var n := Clamp(cores, 1, |hw.cpus|);
      if cpu in hw.cpus[1..n] then Some(1) else if cpu in hw.cpus[n..] then Some(0) else None
    case ScalingMin(cpu) =>
      if HasWindow(s, hw, node) then Some(Bounds(s, hw.cpus).value.lo * 1000) else None
    case ScalingMax(cpu) =>
      if HasWindow(s, hw, node)
      then Some((if top then Bounds(s, hw.cpus).value.hi else Bounds(s, hw.cpus).value.lo) * 1000) else None
    case GtMin =>
      if hw.hasGpu && GpuRange(s).Some? then Some(GpuRange(s).value.lo) else None
    case GtMax =>
      if hw.hasGpu && GpuRange(s).Some?
      then Some(if top then GpuRange(s).value.hi else GpuRange(s).value.lo) else None
    case ConstraintLimit(zone, slot) => LimitSets(s, hw, top, zone, slot)
    case NoTurbo => Some(if top then 0 else 1)
    case Boost => if NoTurbo in s then None else Some(if top then 1 else 0)
    case Brightness(device) =>
      if device < hw.backlights && MaxOf(s, device) > 0 then Some(RawOf(percent, MaxOf(s, device))) else None
    case _ => None
  }

  // ---------------------------------------------------------------------
  // One stage at a time
  // ---------------------------------------------------------------------

  lemma ProfileSetsAreHardware(s: Store, u: Store, hw: Hardware, top: bool, cores: nat, percent: nat, node: Node)
    requires ValidHardware(hw) && SameHardware(s, u) && SameKnob(s, u, node)
    ensures ProfileSets(s, hw, top, cores, percent, node) == ProfileSets(u, hw, top, cores, percent, node)
  {
    match node {
      case ScalingMin(_) => BoundsAreHardware(s, u, hw.cpus);
      case ScalingMax(_) => BoundsAreHardware(s, u, hw.cpus);
      case GtMin => GpuRangeIsHardware(s, u);
      case GtMax => GpuRangeIsHardware(s, u);
      case ConstraintLimit(zone, slot) => LimitSetsAreHardware(s, u, hw, top, zone, slot);
      case Brightness(device) => MaxIsHardware(s, u, device);
      case _ =>
    }
  }

  lemma LimitSetsAreHardware(s: Store, u: Store, hw: Hardware, top: bool, zone: nat, slot: nat)
    requires SameHardware(s, u)
    ensures LimitSets(s, hw, top, zone, slot) == LimitSets(u, hw, top, zone, slot)
  {
    LimitIsHardware(s, u, hw, LONG_TERM, zone, slot);
    LimitIsHardware(s, u, hw, SHORT_TERM, zone, slot);
  }

  predicate IsCpuNode(node: Node) {
    node.CpuOnline? || node.ScalingMin? || node.ScalingMax? || node.NoTurbo? || node.Boost?
  }

  /** The targets of a tick that asks for the same ends of the CPU controls. */
  function CpuTargets(s: Store, hw: Hardware, top: bool, cores: nat): Targets {
    var b := Bounds(s, hw.cpus);
    Targets(1.0, cores, if b.Some? then End(b.value, top) else 0, 0, top, None, None)
  }

  lemma CpuSetsAgree(s: Store, hw: Hardware, top: bool, cores: nat, percent: nat, node: Node)
    requires ValidHardware(hw) && IsCpuNode(node)
    ensures LadderSets(s, hw, CpuTargets(s, hw, top, cores), node) == ProfileSets(s, hw, top, cores, percent, node)
  {
  }

  lemma CpuEndIsThreeSetters(s: Store, hw: Hardware, top: bool, cores: nat)
    requires ValidHardware(hw)
    ensures AfterCpuEnd(s, hw.cpus, top, cores)
         == AfterTurbo(AfterFreqLimit(AfterOnlineCores(s, hw.cpus, cores), hw.cpus,
                                      CpuTargets(s, hw, top, cores).freq), top)
  {
    var s1 := AfterOnlineCores(s, hw.cpus, cores);
    OnlineWrites(s, hw, cores);
    ToolWritesKeepHardware(s, hw, s1);
    BoundsAreHardware(s, s1, hw.cpus);
  }

  lemma TurboStage(s: Store, hw: Hardware, t: Targets, node: Node)
    requires ValidHardware(hw) && node in s
    ensures var u := AfterTurbo(s, t.turbo);
            && u.Keys == s.Keys && SameHardware(s, u)
            && u[node] == if node.NoTurbo? || node.Boost? then Left(s, LadderSets(s, hw, t, node), node) else s[node]
  {
  }

  lemma CpuStage(s: Store, hw: Hardware, top: bool, cores: nat, percent: nat, node: Node)
    requires ValidHardware(hw) && node in s
    ensures var u := AfterCpuEnd(s, hw.cpus, top, cores);
            && u.Keys == s.Keys && SameHardware(s, u)
            && u[node] == if IsCpuNode(node) then Left(s, ProfileSets(s, hw, top, cores, percent, node), node)
                          else s[node]
  {
    var t := CpuTargets(s, hw, top, cores);
    var s2 := AfterFreqLimit(AfterOnlineCores(s, hw.cpus, cores), hw.cpus, t.freq);
    CpuEndIsThreeSetters(s, hw, top, cores);
    CoresAndFreq(s, hw, t, node);
    TurboStage(s2, hw, t, node);
    SameHardwareIsTransitive(s, s2, AfterTurbo(s2, top));
    if IsCpuNode(node) {
      CpuSetsAgree(s, hw, top, cores, percent, node);
      SetsAreHardware(s, s2, hw, t, node);
    }
  }

  /** The union's end, clamped into one zone's range, is that range's own end. */
  lemma EndOfZone(s: Store, zones: seq<nat>, name: string, zone: nat, top: bool)
    requires zone in zones && ZoneRange(s, zone, name).Some?
    ensures BoundsOf(s, zones, name).Some?
    ensures var r := ZoneRange(s, zone, name).value;
            Clamp(End(BoundsOf(s, zones, name).value, top), r.lo, r.hi) == End(r, top)
  {
    var i :| 0 <= i < |zones| && zones[i] == zone;
    assert ZoneRange(s, zones[i], name).Some?;
  }

  lemma LimitStage(s: Store, hw: Hardware, name: string, top: bool, node: Node)
    requires node in s && (name == LONG_TERM || name == SHORT_TERM)
    ensures var u := AfterConstraintEnd(s, hw.zones, name, top);
            && u.Keys == s.Keys && SameHardware(s, u)
            && u[node] == if node.ConstraintLimit? && IsLimitOf(s, hw, name, node.zone, node.slot)
                          then Num(End(SlotRange(s, node.zone, node.slot).value, top) * MICRO) else s[node]
  {
    var b := BoundsOf(s, hw.zones, name);
    OneLimit(s, hw, name, if b.Some? then Some(End(b.value, top)) else None, node);
    if node.ConstraintLimit? && IsLimitOf(s, hw, name, node.zone, node.slot) {
      EndOfZone(s, hw.zones, name, node.zone, top);
    }
  }

  lemma LimitStages(s: Store, hw: Hardware, top: bool, node: Node)
    requires ValidHardware(hw) && node in s
    ensures var u := AfterConstraintEnd(AfterConstraintEnd(s, hw.zones, LONG_TERM, top), hw.zones, SHORT_TERM, top);
            && u.Keys == s.Keys && SameHardware(s, u)
            && u[node] == if node.ConstraintLimit? then Left(s, LimitSets(s, hw, top, node.zone, node.slot), node)
                          else s[node]
  {
    var s1 := AfterConstraintEnd(s, hw.zones, LONG_TERM, top);
    LimitStage(s, hw, LONG_TERM, top, node);
    LimitStage(s1, hw, SHORT_TERM, top, node);
    SameHardwareIsTransitive(s, s1, AfterConstraintEnd(s1, hw.zones, SHORT_TERM, top));
    if node.ConstraintLimit? {
      LimitIsHardware(s, s1, hw, SHORT_TERM, node.zone, node.slot);
    }
  }

  lemma GpuStage(s: Store, hw: Hardware, top: bool, cores: nat, percent: nat, node: Node)
    requires ValidHardware(hw) && node in s
    ensures var u := AfterGpuEnd(s, hw, top);
            && u.Keys == s.Keys && SameHardware(s, u)
            && u[node] == if node.GtMin? || node.GtMax?
                          then Left(s, ProfileSets(s, hw, top, cores, percent, node), node) else s[node]
  {
  }

  lemma BrightnessStage(s: Store, hw: Hardware, top: bool, cores: nat, percent: nat, node: Node)
    requires ValidHardware(hw) && node in s
    ensures var u := AfterPercent(s, hw.backlights, percent);
            && u.Keys == s.Keys
            && u[node] == if node.Brightness? then Left(s, ProfileSets(s, hw, top, cores, percent, node), node)
                          else s[node]
  {
  }

  lemma GpuAndBrightness(s: Store, hw: Hardware, top: bool, cores: nat, percent: nat, node: Node)
    requires ValidHardware(hw) && node in s
    ensures var u := AfterPercent(AfterGpuEnd(s, hw, top), hw.backlights, percent);
            && u.Keys == s.Keys
            && u[node] == if node.GtMin? || node.GtMax? || node.Brightness?
                          then Left(s, ProfileSets(s, hw, top, cores, percent, node), node) else s[node]
  {
    var g := AfterGpuEnd(s, hw, top);
    GpuStage(s, hw, top, cores, percent, node);
    BrightnessStage(g, hw, top, cores, percent, node);
    if node.Brightness? {
      ProfileSetsAreHardware(s, g, hw, top, cores, percent, node);
    }
  }

  // ---------------------------------------------------------------------
  // The theorems
  // ---------------------------------------------------------------------

  lemma SetsOfLimit(s: Store, hw: Hardware, top: bool, cores: nat, percent: nat, node: Node)
    requires ValidHardware(hw) && node.ConstraintLimit?
    ensures ProfileSets(s, hw, top, cores, percent, node) == LimitSets(s, hw, top, node.zone, node.slot)
  {
  }

  /** Two stages that write different nodes, put together. */
  lemma LimitsAfterCpu(s: Store, s1: Store, s3: Store, hw: Hardware, top: bool, cores: nat, percent: nat, node: Node)
    requires ValidHardware(hw) && node in s && s1.Keys == s.Keys && s3.Keys == s.Keys
    requires SameHardware(s, s1) && SameHardware(s1, s3)
    requires s1[node] == if IsCpuNode(node) then Left(s, ProfileSets(s, hw, top, cores, percent, node), node)
                         else s[node]
    requires s3[node] == if node.ConstraintLimit? then Left(s1, LimitSets(s1, hw, top, node.zone, node.slot), node)
                         else s1[node]
    ensures SameHardware(s, s3)
    ensures s3[node] == if IsCpuNode(node) || node.ConstraintLimit?
                        then Left(s, ProfileSets(s, hw, top, cores, percent, node), node) else s[node]
  {
    SameHardwareIsTransitive(s, s1, s3);
    if node.ConstraintLimit? {
      LimitSetsAreHardware(s, s1, hw, top, node.zone, node.slot);
      SetsOfLimit(s, hw, top, cores, percent, node);
    }
  }

  lemma CpuAndLimits(s: Store, hw: Hardware, top: bool, cores: nat, percent: nat, node: Node)
    requires ValidHardware(hw) && node in s
    ensures var s1 := AfterCpuEnd(s, hw.cpus, top, cores);
            var u := AfterConstraintEnd(AfterConstraintEnd(s1, hw.zones, LONG_TERM, top), hw.zones, SHORT_TERM, top);
            && u.Keys == s.Keys && SameHardware(s, u)
            && u[node] == if IsCpuNode(node) || node.ConstraintLimit?
                          then Left(s, ProfileSets(s, hw, top, cores, percent, node), node) else s[node]
  {
    var s1 := AfterCpuEnd(s, hw.cpus, top, cores);
    var u := AfterConstraintEnd(AfterConstraintEnd(s1, hw.zones, LONG_TERM, top), hw.zones, SHORT_TERM, top);
    CpuStage(s, hw, top, cores, percent, node);
    LimitStages(s1, hw, top, node);
    LimitsAfterCpu(s, s1, u, hw, top, cores, percent, node);
  }

  /** The closed form is exactly what the sequence of setters leaves behind. */
  lemma ExtremesClosedForm(s: Store, hw: Hardware, top: bool, cores: nat, percent: nat, node: Node)
    requires ValidHardware(hw)
    ensures var u := AfterExtremes(s, hw, top, cores, percent);
            && u.Keys == s.Keys
            && (node in s ==> u[node] == Left(s, ProfileSets(s, hw, top, cores, percent, node), node))
  {
    ExtremesWrite(s, hw, top, cores, percent);
    if node in s {
      var s1 := AfterCpuEnd(s, hw.cpus, top, cores);
      var s3 := AfterConstraintEnd(AfterConstraintEnd(s1, hw.zones, LONG_TERM, top), hw.zones, SHORT_TERM, top);
      CpuAndLimits(s, hw, top, cores, percent, node);
      GpuAndBrightness(s3, hw, top, cores, percent, node);
      GpuAfterLimits(s, s3, AfterExtremes(s, hw, top, cores, percent), hw, top, cores, percent, node);
    }
  }

  lemma GpuAfterLimits(s: Store, s3: Store, u: Store, hw: Hardware, top: bool, cores: nat, percent: nat, node: Node)
    requires ValidHardware(hw) && node in s && s3.Keys == s.Keys && u.Keys == s.Keys && SameHardware(s, s3)
    requires s3[node] == if IsCpuNode(node) || node.ConstraintLimit?
                         then Left(s, ProfileSets(s, hw, top, cores, percent, node), node) else s[node]
    requires u[node] == if node.GtMin? || node.GtMax? || node.Brightness?
                        then Left(s3, ProfileSets(s3, hw, top, cores, percent, node), node) else s3[node]
    ensures u[node] == Left(s, ProfileSets(s, hw, top, cores, percent, node), node)
  {
    ProfileSetsAreHardware(s, s3, hw, top, cores, percent, node);
    UntouchedNode(s, hw, top, cores, percent, node);
  }

  lemma UntouchedNode(s: Store, hw: Hardware, top: bool, cores: nat, percent: nat, node: Node)
    requires ValidHardware(hw)
    ensures ProfileSets(s, hw, top, cores, percent, node).Some? ==>
              IsCpuNode(node) || node.ConstraintLimit? || node.GtMin? || node.GtMax? || node.Brightness?
  {
  }

  /** What a profile asks for; `AutoExtreme` asks nothing of the modelled nodes. */
  function Sets(s: Store, hw: Hardware, profile: Profile, node: Node): Option<int>
    requires ValidHardware(hw)
  {
    match profile
    case Performance => ProfileSets(s, hw, true, |hw.cpus|, 100, node)
    case Normal => ProfileSets(s, hw, true, |hw.cpus|, 100, node)
    case Extreme => ProfileSets(s, hw, false, Min(2, |hw.cpus|), 10, node)
    case AutoExtreme => None
  }

  /**
   Node by node, what a profile leaves: all cores or the first two, each frequency window,
   GPU window and package limit at the top or the bottom of its own range (a zone's own, not
   the union's), turbo on or off, each backlight at its share. Nothing else changes.
   */
  lemma ProfileClosedForm(s: Store, hw: Hardware, profile: Profile, node: Node)
    requires ValidHardware(hw)
    ensures var u := AfterProfile(s, hw, profile);
            && u.Keys == s.Keys
            && (node in s ==> u[node] == Left(s, Sets(s, hw, profile, node), node))
  {
    match profile {
      case Performance => ExtremesClosedForm(s, hw, true, |hw.cpus|, 100, node);
      case Normal => ExtremesClosedForm(s, hw, true, |hw.cpus|, 100, node);
      case Extreme => ExtremesClosedForm(s, hw, false, Min(2, |hw.cpus|), 10, node);
      case AutoExtreme =>
    }
  }

  /** A profile has no memory: after any run it leaves in each of its nodes what it would have left before. */
  lemma ProfileForgetsTheRun(s: Store, hw: Hardware, run: seq<Action>, profile: Profile, node: Node)
    requires ValidHardware(hw) && node in s && node in Run(s, hw, run) && SameKnob(s, Run(s, hw, run), node)
    requires Sets(s, hw, profile, node).Some?
    ensures var early := AfterProfile(s, hw, profile);
            var late := AfterProfile(Run(s, hw, run), hw, profile);
            node in early && node in late && late[node] == early[node]
  {
    var u := Run(s, hw, run);
    RunKeepsHardware(s, hw, run);
    SetsSurvive(s, u, hw, profile, node);
    ProfileClosedForm(s, hw, profile, node);
    ProfileClosedForm(u, hw, profile, node);
  }

  lemma SetsSurvive(s: Store, u: Store, hw: Hardware, profile: Profile, node: Node)
    requires ValidHardware(hw) && SameHardware(s, u) && SameKnob(s, u, node)
    ensures Sets(s, hw, profile, node) == Sets(u, hw, profile, node)
  {
    match profile {
      case Performance => ProfileSetsAreHardware(s, u, hw, true, |hw.cpus|, 100, node);
      case Normal => ProfileSetsAreHardware(s, u, hw, true, |hw.cpus|, 100, node);
      case Extreme => ProfileSetsAreHardware(s, u, hw, false, Min(2, |hw.cpus|), 10, node);
      case AutoExtreme =>
    }
  }

  // ---------------------------------------------------------------------
  // The ladder at full load
  // ---------------------------------------------------------------------

  /** The upper end of a discovered range. */
  function Top(range: Option<Range>): Option<nat> {
    if range.Some? then Some(range.value.hi) else None
  }

  /** The targets are all cores, the top of every range, and turbo. */
  predicate AskForAll(s: Store, hw: Hardware, t: Targets) {
    && t.cores == |hw.cpus| && t.turbo
    && (Bounds(s, hw.cpus).Some? ==> t.freq == Bounds(s, hw.cpus).value.hi)
    && (hw.hasGpu && GpuRange(s).Some? ==> t.gpu == GpuRange(s).value.hi)
    && t.long == Top(BoundsOf(s, hw.zones, LONG_TERM)) && t.short == Top(BoundsOf(s, hw.zones, SHORT_TERM))
  }

  /** At full load level Low asks for everything. */
  lemma FullLoadTargets(s: Store, hw: Hardware, load: real)
    requires ValidHardware(hw) && load >= |hw.cpus| as real
    ensures AskForAll(s, hw, TargetsOf(s, hw, Low, load))
  {
    var n := |hw.cpus|;
    FullStep(load, n);
    CoreRampEnds(n, 1.0);
    AllCores(n);
    var cpu, gpu := Bounds(s, hw.cpus), GpuRange(s);
    if cpu.Some? {
      FullLoadReachesTheTopExactly(cpu.value, Low);
    }
    if hw.hasGpu && gpu.Some? {
      FullLoadReachesTheTopExactly(gpu.value, Low);
    }
    FullLimit(BoundsOf(s, hw.zones, LONG_TERM));
    FullLimit(BoundsOf(s, hw.zones, SHORT_TERM));
  }

  lemma FullStep(load: real, n: nat)
    requires n >= 1 && load >= n as real
    ensures DiscretePower(load, n) == 1.0
  {
    PowerMono(n as real, load, n);
    assert n as real / n as real == 1.0;
  }

  lemma AllCores(n: nat)
    requires n >= 1
    ensures CoreCeiling(n, 1.0) == n
  {
    assert Share(n as real, 1.0) == n as real;
  }

  lemma FullLimit(bounds: Option<Range>)
    requires bounds.Some? ==> bounds.value.lo < bounds.value.hi < TWO_32
    ensures ScaledLimit(bounds, LevelCeiling(Low), 1.0) == Top(bounds)
  {
    if bounds.Some? {
      FullLoadReachesTheTopExactly(bounds.value, Low);
    }
  }

  /** Requesting `watts` of constraint `name` brings its slot of the zone to the zone's own top. */
  predicate TopsZone(s: Store, hw: Hardware, name: string, watts: Option<nat>, zone: nat, slot: nat) {
    IsLimitOf(s, hw, name, zone, slot) ==>
      watts.Some? && ZoneLimit(s, zone, slot, watts.value) == End(SlotRange(s, zone, slot).value, true) * MICRO
  }

  lemma TopOfUnionTopsZone(s: Store, hw: Hardware, name: string, zone: nat, slot: nat)
    ensures TopsZone(s, hw, name, Top(BoundsOf(s, hw.zones, name)), zone, slot)
  {
    if IsLimitOf(s, hw, name, zone, slot) {
      EndOfZone(s, hw.zones, name, zone, true);
    }
  }

  lemma LimitSetsWhenTopped(s: Store, hw: Hardware, t: Targets, zone: nat, slot: nat)
    requires ValidHardware(hw)
    requires TopsZone(s, hw, LONG_TERM, t.long, zone, slot) && TopsZone(s, hw, SHORT_TERM, t.short, zone, slot)
    ensures LadderSets(s, hw, t, ConstraintLimit(zone, slot)) == LimitSets(s, hw, true, zone, slot)
  {
  }

  lemma FullLimitSets(s: Store, hw: Hardware, t: Targets, zone: nat, slot: nat)
    requires ValidHardware(hw)
    requires t.long == Top(BoundsOf(s, hw.zones, LONG_TERM)) && t.short == Top(BoundsOf(s, hw.zones, SHORT_TERM))
    ensures LadderSets(s, hw, t, ConstraintLimit(zone, slot)) == LimitSets(s, hw, true, zone, slot)
  {
    TopOfUnionTopsZone(s, hw, LONG_TERM, zone, slot);
    TopOfUnionTopsZone(s, hw, SHORT_TERM, zone, slot);
    LimitSetsWhenTopped(s, hw, t, zone, slot);
  }

  lemma AllCpuSets(s: Store, hw: Hardware, t: Targets, percent: nat, node: Node)
    requires ValidHardware(hw) && AskForAll(s, hw, t) && IsCpuNode(node)
    ensures LadderSets(s, hw, t, node) == ProfileSets(s, hw, true, |hw.cpus|, percent, node)
  {
  }

  lemma AllGpuSets(s: Store, hw: Hardware, t: Targets, percent: nat, node: Node)
    requires ValidHardware(hw) && AskForAll(s, hw, t) && (node.GtMin? || node.GtMax?)
    ensures LadderSets(s, hw, t, node) == ProfileSets(s, hw, true, |hw.cpus|, percent, node)
  {
  }

  lemma AllSets(s: Store, hw: Hardware, t: Targets, percent: nat, node: Node)
    requires ValidHardware(hw) && AskForAll(s, hw, t) && !node.Brightness?
    ensures LadderSets(s, hw, t, node) == ProfileSets(s, hw, true, |hw.cpus|, percent, node)
  {
    if IsCpuNode(node) {
      AllCpuSets(s, hw, t, percent, node);
    } else if node.GtMin? || node.GtMax? {
      AllGpuSets(s, hw, t, percent, node);
    } else if node.ConstraintLimit? {
      FullLimitSets(s, hw, t, node.zone, node.slot);
      SetsOfLimit(s, hw, true, |hw.cpus|, percent, node);
    } else {
      UntouchedNode(s, hw, true, |hw.cpus|, percent, node);
      TickSparesNode(s, hw, t, node);
    }
  }

  lemma TickSparesNode(s: Store, hw: Hardware, t: Targets, node: Node)
    requires ValidHardware(hw)
    ensures LadderSets(s, hw, t, node).Some? ==>
              IsCpuNode(node) || node.ConstraintLimit? || node.GtMin? || node.GtMax?
  {
  }

  /**
   Under full load level Low is the Performance profile: a tick leaves every modelled node,
   the backlights aside, exactly as that profile does.
   */
  lemma LowAtFullLoadIsPerformance(s: Store, hw: Hardware, load: real, node: Node)
    requires ValidHardware(hw) && node in s && load >= |hw.cpus| as real && !node.Brightness?
    ensures var u, v := AfterLadder(s, hw, Low, load), AfterProfile(s, hw, Performance);
            node in u && node in v && u[node] == v[node]
  {
    LadderClosedForm(s, hw, TargetsOf(s, hw, Low, load), node);
    ProfileClosedForm(s, hw, Performance, node);
    FullLoadTargets(s, hw, load);
    AllSets(s, hw, TargetsOf(s, hw, Low, load), 100, node);
  }
}
