/**
 What one ladder tick leaves in the store, in closed form, and what follows: the
 tick forgets every earlier write, repeating it changes nothing, and a higher load
 or a more permissive level never tightens any limit node.
 */
module LadderEffect {
  import opened Prelude
  import opened Sysfs
  import opened Cpu
  import opened Gpu
  import opened Rapl
  import opened Backlight
  import opened Ladder
  import opened Backend
  import opened NoRatchet

  /** What a tick with targets `t` puts in `node`; `None` where the ladder has no business. */
  function LadderSets(s: Store, hw: Hardware, t: Targets, node: Node): Option<int>
    requires ValidHardware(hw)
  {
    match node
    case CpuOnline(cpu) =>
      var n := Clamp(t.cores, 1, |hw.cpus|);
      if cpu in hw.cpus[1..n] then Some(1) else if cpu in hw.cpus[n..] then Some(0) else None
    case ScalingMin(cpu) =>
      var b := Bounds(s, hw.cpus);
      if cpu in hw.cpus && CpufreqDir(cpu) in s && b.Some? then Some(b.value.lo * 1000) else None
    case ScalingMax(cpu) =>
      var b := Bounds(s, hw.cpus);
      if cpu in hw.cpus && CpufreqDir(cpu) in s && b.Some?
      then Some(Clamp(t.freq, b.value.lo, b.value.hi) * 1000) else None
    case GtMin =>
      var b := GpuRange(s);
      if hw.hasGpu && b.Some? then Some(b.value.lo) else None
    case GtMax =>
      var b := GpuRange(s);
      if hw.hasGpu && b.Some? then Some(Clamp(t.gpu, b.value.lo, b.value.hi)) else None
    case ConstraintLimit(zone, slot) =>
      if IsLimitOf(s, hw, LONG_TERM, zone, slot) && t.long.Some? then Some(ZoneLimit(s, zone, slot, t.long.value))
      else if IsLimitOf(s, hw, SHORT_TERM, zone, slot) && t.short.Some?
      then Some(ZoneLimit(s, zone, slot, t.short.value))
      else None
    case NoTurbo => Some(if t.turbo then 0 else 1)
    case Boost => if NoTurbo in s then None else Some(if t.turbo then 1 else 0)
    case _ => None
  }

  /** Slot `slot` of listed zone `zone` is constraint `name`, with a usable range. */
  predicate IsLimitOf(s: Store, hw: Hardware, name: string, zone: nat, slot: nat) {
    zone in hw.zones && ConstraintIndex(s, zone, name) == Some(slot) && SlotRange(s, zone, slot).Some?
  }

  function ZoneLimit(s: Store, zone: nat, slot: nat, watts: int): int
    requires SlotRange(s, zone, slot).Some?
  {
    var range := SlotRange(s, zone, slot).value;
    Clamp(watts, range.lo, range.hi) * MICRO
  }

  /** The number the ladder leaves in `node`, or the old content where it sets none. */
  function Left(s: Store, set': Option<int>, node: Node): Content
    requires node in s
  {
    if set'.Some? then Num(set'.value) else s[node]
  }

  // ---------------------------------------------------------------------
  // One stage at a time
  // ---------------------------------------------------------------------

  lemma OneLimit(s: Store, hw: Hardware, name: string, watts: Option<nat>, node: Node)
    requires node in s && (name == LONG_TERM || name == SHORT_TERM)
    ensures var t := AfterLimit(s, hw.zones, name, watts);
            && t.Keys == s.Keys && SameHardware(s, t)
            && t[node] == if watts.Some? && node.ConstraintLimit? && IsLimitOf(s, hw, name, node.zone, node.slot)
                          then Num(ZoneLimit(s, node.zone, node.slot, watts.value))
                          else s[node]
  {
    LimitWrites(s, hw, name, watts);
    ToolWritesKeepHardware(s, hw, AfterLimit(s, hw.zones, name, watts));
  }

  lemma LimitIsHardware(s: Store, t: Store, hw: Hardware, name: string, zone: nat, slot: nat)
    requires SameHardware(s, t)
    ensures IsLimitOf(s, hw, name, zone, slot) == IsLimitOf(t, hw, name, zone, slot)
    ensures SlotRange(s, zone, slot) == SlotRange(t, zone, slot)
  {
    ZoneIsHardware(s, t, zone, name);
    assert !ConstraintMax(zone, slot).Mutable() && !ConstraintMin(zone, slot).Mutable();
  }

  lemma BothLimits(s: Store, hw: Hardware, t: Targets, node: Node)
    requires ValidHardware(hw) && node in s
    ensures var s2 := AfterLimit(AfterLimit(s, hw.zones, LONG_TERM, t.long), hw.zones, SHORT_TERM, t.short);
            && s2.Keys == s.Keys && SameHardware(s, s2)
            && s2[node] == if node.ConstraintLimit? then Left(s, LadderSets(s, hw, t, node), node) else s[node]
  {
    var s1 := AfterLimit(s, hw.zones, LONG_TERM, t.long);
    var s2 := AfterLimit(s1, hw.zones, SHORT_TERM, t.short);
    OneLimit(s, hw, LONG_TERM, t.long, node);
    OneLimit(s1, hw, SHORT_TERM, t.short, node);
    SameHardwareIsTransitive(s, s1, s2);
    if node.ConstraintLimit? {
      LimitIsHardware(s, s1, hw, SHORT_TERM, node.zone, node.slot);
      OneNamePerSlot(s, hw, node.zone, node.slot);
    }
  }

  lemma OneNamePerSlot(s: Store, hw: Hardware, zone: nat, slot: nat)
    ensures !(IsLimitOf(s, hw, LONG_TERM, zone, slot) && IsLimitOf(s, hw, SHORT_TERM, zone, slot))
  {
    assert LONG_TERM[0] != SHORT_TERM[0];
  }

  /** The node carries a frequency window the tool may write. */
  predicate HasWindow(s: Store, hw: Hardware, node: Node) {
    (node.ScalingMin? || node.ScalingMax?)
    && node.cpu in hw.cpus && CpufreqDir(node.cpu) in s && Bounds(s, hw.cpus).Some?
  }

  lemma OnlineStage(s: Store, hw: Hardware, t: Targets, node: Node)
    requires ValidHardware(hw) && node in s
    ensures var u := AfterOnlineCores(s, hw.cpus, t.cores);
            && u.Keys == s.Keys && SameHardware(s, u)
            && (!HasWindow(s, hw, node) ==>
                  u[node] == if node.CpuOnline? then Left(s, LadderSets(s, hw, t, node), node) else s[node])
  {
    var u := WithOnlinePrefix(s, hw.cpus, Clamp(t.cores, 1, |hw.cpus|));
    assert SameHardware(s, u);
    BoundsAreHardware(s, u, hw.cpus);
    OnlineWrites(s, hw, t.cores);
    ToolWritesKeepHardware(s, hw, AfterOnlineCores(s, hw.cpus, t.cores));
  }

  lemma FreqStage(s: Store, hw: Hardware, t: Targets, node: Node)
    requires ValidHardware(hw) && node in s
    ensures var u := AfterFreqLimit(s, hw.cpus, t.freq);
            && u.Keys == s.Keys && SameHardware(s, u)
            && u[node] == if HasWindow(s, hw, node) then Left(s, LadderSets(s, hw, t, node), node) else s[node]
  {
    FreqLimitWrites(s, hw, t.freq);
    ToolWritesKeepHardware(s, hw, AfterFreqLimit(s, hw.cpus, t.freq));
  }

  /** Hotplug and then the frequency limit: cores as asked, every window as asked. */
  lemma CoresAndFreq(s: Store, hw: Hardware, t: Targets, node: Node)
    requires ValidHardware(hw) && node in s
    ensures var u := AfterFreqLimit(AfterOnlineCores(s, hw.cpus, t.cores), hw.cpus, t.freq);
            && u.Keys == s.Keys && SameHardware(s, u)
            && u[node] == if node.CpuOnline? || node.ScalingMin? || node.ScalingMax?
                          then Left(s, LadderSets(s, hw, t, node), node) else s[node]
  {
    var cores := AfterOnlineCores(s, hw.cpus, t.cores);
    OnlineStage(s, hw, t, node);
    FreqStage(cores, hw, t, node);
    SameHardwareIsTransitive(s, cores, AfterFreqLimit(cores, hw.cpus, t.freq));
    SetsAreHardware(s, cores, hw, t, node);
    BoundsAreHardware(s, cores, hw.cpus);
  }

  lemma GpuAndTurbo(s: Store, hw: Hardware, t: Targets, node: Node)
    requires ValidHardware(hw) && node in s
    ensures var u := AfterTurbo(if hw.hasGpu then AfterGpuFreq(s, t.gpu) else s, t.turbo);
            && node in u
            && u[node] == if node.GtMin? || node.GtMax? || node.NoTurbo? || node.Boost?
                          then Left(s, LadderSets(s, hw, t, node), node) else s[node]
  {
  }

  /** The two stores agree on which turbo knob rules: `no_turbo` hides `boost`. */
  predicate SameKnob(s: Store, u: Store, node: Node) {
    node.Boost? ==> (NoTurbo in s <==> NoTurbo in u)
  }

  /** What a target leaves depends on the hardware and, for `boost`, on whether `no_turbo` exists. */
  lemma SetsAreHardware(s: Store, u: Store, hw: Hardware, t: Targets, node: Node)
    requires ValidHardware(hw) && SameHardware(s, u) && SameKnob(s, u, node)
    ensures LadderSets(s, hw, t, node) == LadderSets(u, hw, t, node)
  {
    match node {
      case ScalingMin(_) => BoundsAreHardware(s, u, hw.cpus);
      case ScalingMax(_) => BoundsAreHardware(s, u, hw.cpus);
      case GtMin => GpuRangeIsHardware(s, u);
      case GtMax => GpuRangeIsHardware(s, u);
      case ConstraintLimit(zone, slot) =>
        LimitIsHardware(s, u, hw, LONG_TERM, zone, slot);
        LimitIsHardware(s, u, hw, SHORT_TERM, zone, slot);
      case _ =>
    }
  }

  lemma TargetsAreHardware(s: Store, u: Store, hw: Hardware, level: Level, load: real)
    requires ValidHardware(hw) && SameHardware(s, u)
    ensures TargetsOf(s, hw, level, load) == TargetsOf(u, hw, level, load)
  {
    BoundsAreHardware(s, u, hw.cpus);
    GpuRangeIsHardware(s, u);
    BoundsOfAreHardware(s, u, hw.zones, LONG_TERM);
    BoundsOfAreHardware(s, u, hw.zones, SHORT_TERM);
  }

  /** The closed form is exactly what the sequence of setters leaves behind. */
  lemma LadderClosedForm(s: Store, hw: Hardware, t: Targets, node: Node)
    requires ValidHardware(hw)
    ensures AfterTargets(s, hw, t).Keys == s.Keys
    ensures node in s ==> AfterTargets(s, hw, t)[node] == Left(s, LadderSets(s, hw, t, node), node)
  {
    TargetsWrite(s, hw, t);
    if node in s {
      var s2 := AfterLimit(AfterLimit(s, hw.zones, LONG_TERM, t.long), hw.zones, SHORT_TERM, t.short);
      var s4 := AfterFreqLimit(AfterOnlineCores(s2, hw.cpus, t.cores), hw.cpus, t.freq);
      BothLimits(s, hw, t, node);
      CoresAndFreq(s2, hw, t, node);
      GpuAndTurbo(s4, hw, t, node);
      SameHardwareIsTransitive(s, s2, s4);
      SetsAreHardware(s, s2, hw, t, node);
      SetsAreHardware(s, s4, hw, t, node);
    }
  }

  // ---------------------------------------------------------------------
  // Consequences
  // ---------------------------------------------------------------------

  /**
   The ladder has no memory: after any run, whatever nodes it added or removed, a tick leaves
   in each of its nodes that is still there the very number it would have left at the start;
   for `boost`, while `no_turbo` has neither come nor gone. Writes never accumulate, up or
   down.
   */
  lemma LadderForgetsTheRun(s: Store, hw: Hardware, run: seq<Action>, level: Level, load: real, node: Node)
    requires ValidHardware(hw) && node in s && node in Run(s, hw, run) && SameKnob(s, Run(s, hw, run), node)
    requires LadderSets(s, hw, TargetsOf(s, hw, level, load), node).Some?
    ensures var early := AfterLadder(s, hw, level, load);
            var late := AfterLadder(Run(s, hw, run), hw, level, load);
            node in early && node in late && late[node] == early[node]
  {
    var u := Run(s, hw, run);
    var t := TargetsOf(s, hw, level, load);
    RunKeepsHardware(s, hw, run);
    TargetsAreHardware(s, u, hw, level, load);
    SetsAreHardware(s, u, hw, t, node);
    LadderClosedForm(s, hw, t, node);
    LadderClosedForm(u, hw, t, node);
  }

  /** When `no_turbo` has appeared meanwhile, the tick leaves `boost` to whoever wrote it last. */
  lemma HiddenBoostIsLeft(s: Store, hw: Hardware, run: seq<Action>, level: Level, load: real)
    requires ValidHardware(hw) && Boost in Run(s, hw, run) && NoTurbo in Run(s, hw, run)
    ensures var late := AfterLadder(Run(s, hw, run), hw, level, load);
            Boost in late && late[Boost] == Run(s, hw, run)[Boost]
  {
    var u := Run(s, hw, run);
    LadderClosedForm(u, hw, TargetsOf(u, hw, level, load), Boost);
  }

  /** Repeating a tick under the same load changes nothing. */
  lemma LadderIsIdempotent(s: Store, hw: Hardware, level: Level, load: real)
    requires ValidHardware(hw)
    ensures var once := AfterLadder(s, hw, level, load);
            AfterLadder(once, hw, level, load) == once
  {
    var t := TargetsOf(s, hw, level, load);
    var once := AfterLadder(s, hw, level, load);
    TargetsWrite(s, hw, t);
    ToolWritesKeepHardware(s, hw, once);
    TargetsAreHardware(s, once, hw, level, load);
    var twice := AfterTargets(once, hw, t);
    TargetsWrite(once, hw, t);
    forall node | node in s ensures twice[node] == once[node] {
      LadderClosedForm(s, hw, t, node);
      LadderClosedForm(once, hw, t, node);
      SetsAreHardware(s, once, hw, t, node);
    }
  }

  /** One tick asks for at most what another asks for. */
  predicate AsksNoMore(t: Targets, u: Targets) {
    && t.cores <= u.cores && t.freq <= u.freq && t.gpu <= u.gpu && (t.turbo ==> u.turbo)
    && (t.long.Some? <==> u.long.Some?) && (t.long.Some? ==> t.long.value <= u.long.value)
    && (t.short.Some? <==> u.short.Some?) && (t.short.Some? ==> t.short.value <= u.short.value)
  }

  lemma LimitIsMonotone(bounds: Option<Range>, ncpu: nat, a: Level, b: Level, load: real, more: real)
    requires ncpu >= 1 && AtMostLevel(a, b) && 0.0 <= load <= more
    requires bounds.Some? ==> bounds.value.lo < bounds.value.hi < TWO_32
    ensures bounds.Some? ==>
              ScaledLimit(bounds, LevelCeiling(a), DiscretePower(load, ncpu)).value
              <= ScaledLimit(bounds, LevelCeiling(b), DiscretePower(more, ncpu)).value
  {
    if bounds.Some? {
      LadderIsMonotone(ncpu, bounds.value, a, b, load, more);
    }
  }

  lemma TargetsAreMonotone(s: Store, hw: Hardware, a: Level, b: Level, load: real, more: real)
    requires ValidHardware(hw) && AtMostLevel(a, b) && 0.0 <= load <= more
    ensures AsksNoMore(TargetsOf(s, hw, a, load), TargetsOf(s, hw, b, more))
  {
    var n := |hw.cpus|;
    LadderIsMonotone(n, RangeOr(Bounds(s, hw.cpus), Range(0, 0)), a, b, load, more);
    LadderIsMonotone(n, RangeOr(if hw.hasGpu then GpuRange(s) else None, Range(0, 0)), a, b, load, more);
    LimitIsMonotone(BoundsOf(s, hw.zones, LONG_TERM), n, a, b, load, more);
    LimitIsMonotone(BoundsOf(s, hw.zones, SHORT_TERM), n, a, b, load, more);
  }

  lemma SetsAreMonotone(s: Store, hw: Hardware, t: Targets, u: Targets, node: Node)
    requires ValidHardware(hw) && AsksNoMore(t, u) && LadderSets(s, hw, t, node).Some?
    ensures LadderSets(s, hw, u, node).Some?
    ensures var x, y := LadderSets(s, hw, t, node).value, LadderSets(s, hw, u, node).value;
            if node.NoTurbo? then x >= y else x <= y
  {
    if node.CpuOnline? {
      OnlineIsMonotone(hw.cpus, Clamp(t.cores, 1, |hw.cpus|), Clamp(u.cores, 1, |hw.cpus|), node.cpu);
    }
  }

  /**
   More load, or a more permissive level, never tightens a limit: node by node, the number
   a tick leaves is at least as generous (for `no_turbo`, where 1 forbids turbo, at most).
   */
  lemma LadderNodesAreMonotone(s: Store, hw: Hardware, a: Level, b: Level, load: real, more: real, node: Node)
    requires ValidHardware(hw) && AtMostLevel(a, b) && 0.0 <= load <= more && node in s
    requires LadderSets(s, hw, TargetsOf(s, hw, a, load), node).Some?
    ensures var x, y := AfterLadder(s, hw, a, load), AfterLadder(s, hw, b, more);
            && node in x && node in y && x[node].Num? && y[node].Num?
            && if node.NoTurbo? then x[node].n >= y[node].n else x[node].n <= y[node].n
  {
    var t, u := TargetsOf(s, hw, a, load), TargetsOf(s, hw, b, more);
    TargetsAreMonotone(s, hw, a, b, load, more);
    SetsAreMonotone(s, hw, t, u, node);
    LadderClosedForm(s, hw, t, node);
    LadderClosedForm(s, hw, u, node);
  }

  lemma OnlineIsMonotone(cpus: seq<nat>, m: int, n: int, cpu: nat)
    requires Increasing(cpus) && 1 <= m <= n <= |cpus|
    requires cpu in cpus[1..m] || cpu in cpus[m..]
    ensures cpu in cpus[1..n] || cpu in cpus[n..]
    ensures cpu in cpus[1..m] ==> cpu in cpus[1..n]
  {
    if cpu in cpus[1..m] {
      var i :| 1 <= i < m && cpus[i] == cpu;
      assert cpus[1..n][i - 1] == cpu;
    } else {
      var i :| m <= i < |cpus| && cpus[i] == cpu;
      if i < n {
        assert cpus[1..n][i - 1] == cpu;
      } else {
        assert cpus[n..][i - n] == cpu;
      }
    }
  }
}
