/**
 Whole runs of the actuators. Any interleaving of ladder ticks, profiles,
 dashboard presses, brightness ticks and outside interference with the mutable
 nodes: the discovered ranges never move, every value the tool writes lies in the
 range the hardware declared, and a control without a range is never written.
 */
module NoRatchet {
  import opened Prelude
  import opened Sysfs
  import opened Cpu
  import opened Gpu
  import opened Rapl
  import opened Backlight
  import opened Backend

  // ---------------------------------------------------------------------
  // Steps and runs
  // ---------------------------------------------------------------------

  datatype Action =
    | Tick(level: Level, load: real)
    | Apply(profile: Profile)
    | Press(item: Item, up: bool, external: nat)
    | Brighten(percent: nat)
    /** Firmware or another tool sets, adds (`Some`) or removes (`None`) mutable nodes. */
    | Outside(changes: map<Node, Option<Content>>)

  predicate Touches(changes: map<Node, Option<Content>>, node: Node) {
    node in changes && node.Mutable()
  }

  function AfterOutside(s: Store, changes: map<Node, Option<Content>>): Store {
    map node | node in s.Keys + changes.Keys
               && (if Touches(changes, node) then changes[node].Some? else node in s)
      :: if Touches(changes, node) then changes[node].value else s[node]
  }

  function Step(s: Store, hw: Hardware, a: Action): Store
    requires ValidHardware(hw)
  {
    match a
    case Tick(level, load) => AfterLadder(s, hw, level, load)
    case Apply(profile) => AfterProfile(s, hw, profile)
    case Press(item, up, external) => AfterAdjust(s, hw, item, up, external)
    case Brighten(percent) => AfterPercent(s, hw.backlights, percent)
    case Outside(changes) => AfterOutside(s, changes)
  }

  function Run(s: Store, hw: Hardware, run: seq<Action>): Store
    requires ValidHardware(hw)
  {
    if run == [] then s else Step(Run(s, hw, run[..|run| - 1]), hw, run[|run| - 1])
  }

  // ---------------------------------------------------------------------
  // What the hardware allows
  // ---------------------------------------------------------------------

  /** Slot `slot` of a listed zone is the one the tool uses for one of its two limits. */
  predicate IsPowerSlot(s: Store, hw: Hardware, zone: nat, slot: nat) {
    && zone in hw.zones
    && (ConstraintIndex(s, zone, LONG_TERM) == Some(slot) || ConstraintIndex(s, zone, SHORT_TERM) == Some(slot))
    && SlotRange(s, zone, slot).Some?
  }

  /** The node belongs to a control whose range (where it has one) was discovered. */
  predicate Controlled(s: Store, hw: Hardware, node: Node) {
    match node
    case ScalingMin(cpu) => cpu in hw.cpus && Bounds(s, hw.cpus).Some?
    case ScalingMax(cpu) => cpu in hw.cpus && Bounds(s, hw.cpus).Some?
    case GtMin => hw.hasGpu && GpuRange(s).Some?
    case GtMax => hw.hasGpu && GpuRange(s).Some?
    case ConstraintLimit(zone, slot) => IsPowerSlot(s, hw, zone, slot)
    case CpuOnline(cpu) => cpu in hw.cpus
    case NoTurbo => true
    case Boost => true
    case Brightness(device) => device < hw.backlights && MaxOf(s, device) > 0
    case _ => false
  }

  /** The least and greatest number the tool may put in a controlled node. */
  function Envelope(s: Store, hw: Hardware, node: Node): (int, int)
    requires Controlled(s, hw, node)
  {
    match node
    case ScalingMin(cpu) =>
      var b := Bounds(s, hw.cpus).value; (b.lo * 1000, b.lo * 1000)
    case ScalingMax(cpu) =>
      var b := Bounds(s, hw.cpus).value; (b.lo * 1000, b.hi * 1000)
    case GtMin =>
      var b := GpuRange(s).value; (b.lo, b.lo)
    case GtMax =>
      var b := GpuRange(s).value; (b.lo, b.hi)
    case ConstraintLimit(zone, slot) =>
      var b := SlotRange(s, zone, slot).value; (b.lo * MICRO, b.hi * MICRO)
    case Brightness(device) => (0, MaxOf(s, device))
    case _ => (0, 1)
  }

  predicate InEnvelope(s: Store, hw: Hardware, node: Node, content: Content) {
    Controlled(s, hw, node) && content.Num?
    && Envelope(s, hw, node).0 <= content.n <= Envelope(s, hw, node).1
  }

  /** `t` differs from `s` only by in-envelope numbers in controlled nodes that exist. */
  ghost predicate ToolWrites(s: Store, hw: Hardware, t: Store) {
    t.Keys == s.Keys
    && forall node :: node in s ==> t[node] == s[node] || InEnvelope(s, hw, node, t[node])
  }

  lemma PowerSlotIsHardware(s: Store, t: Store, hw: Hardware, zone: nat, slot: nat)
    requires SameHardware(s, t)
    ensures IsPowerSlot(s, hw, zone, slot) == IsPowerSlot(t, hw, zone, slot)
    ensures SlotRange(s, zone, slot) == SlotRange(t, zone, slot)
  {
    ZoneIsHardware(s, t, zone, LONG_TERM);
    ZoneIsHardware(s, t, zone, SHORT_TERM);
    assert !ConstraintMax(zone, slot).Mutable() && !ConstraintMin(zone, slot).Mutable();
  }

  lemma EnvelopeIsHardware(s: Store, t: Store, hw: Hardware, node: Node)
    requires SameHardware(s, t)
    ensures Controlled(s, hw, node) == Controlled(t, hw, node)
    ensures Controlled(s, hw, node) ==> Envelope(s, hw, node) == Envelope(t, hw, node)
  {
    match node {
      case ScalingMin(_) => BoundsAreHardware(s, t, hw.cpus);
      case ScalingMax(_) => BoundsAreHardware(s, t, hw.cpus);
      case GtMin => GpuRangeIsHardware(s, t);
      case GtMax => GpuRangeIsHardware(s, t);
      case ConstraintLimit(zone, slot) => PowerSlotIsHardware(s, t, hw, zone, slot);
      case Brightness(device) => MaxIsHardware(s, t, device);
      case _ =>
    }
  }

  lemma ToolWritesKeepHardware(s: Store, hw: Hardware, t: Store)
    requires ToolWrites(s, hw, t)
    ensures SameHardware(s, t)
  {
  }

  lemma ToolWritesCompose(s: Store, hw: Hardware, t: Store, u: Store)
    requires ToolWrites(s, hw, t) && ToolWrites(t, hw, u)
    ensures ToolWrites(s, hw, u)
  {
    ToolWritesKeepHardware(s, hw, t);
    forall node | node in s ensures u[node] == s[node] || InEnvelope(s, hw, node, u[node]) {
      EnvelopeIsHardware(s, t, hw, node);
    }
  }

  // ---------------------------------------------------------------------
  // Every setter only makes tool writes
  // ---------------------------------------------------------------------

  lemma FreqLimitWrites(s: Store, hw: Hardware, mhz: int)
    ensures ToolWrites(s, hw, AfterFreqLimit(s, hw.cpus, mhz))
  {
  }

  lemma OnlineWrites(s: Store, hw: Hardware, count: int)
    requires ValidHardware(hw)
    ensures ToolWrites(s, hw, AfterOnlineCores(s, hw.cpus, count))
  {
    var t := WithOnlinePrefix(s, hw.cpus, Clamp(count, 1, |hw.cpus|));
    assert ToolWrites(s, hw, t);
    FreqLimitWrites(t, hw, FreqLimitOf(t));
    ToolWritesCompose(s, hw, t, AfterFreqLimit(t, hw.cpus, FreqLimitOf(t)));
  }

  lemma TurboWrites(s: Store, hw: Hardware, enabled: bool)
    ensures ToolWrites(s, hw, AfterTurbo(s, enabled))
  {
  }

  lemma GpuWrites(s: Store, hw: Hardware, mhz: int)
    requires hw.hasGpu
    ensures ToolWrites(s, hw, AfterGpuFreq(s, mhz))
  {
  }

  lemma ConstraintWrite(s: Store, hw: Hardware, name: string, watts: int, node: Node)
    requires name == LONG_TERM || name == SHORT_TERM
    requires node in s
    ensures var t := AfterConstraint(s, hw.zones, name, watts);
            t[node] == s[node] || InEnvelope(s, hw, node, t[node])
  {
    if node.ConstraintLimit? && node.zone in hw.zones && Writable(s, node.zone, name)
       && ConstraintIndex(s, node.zone, name) == Some(node.slot) {
      var range := SlotRange(s, node.zone, node.slot).value;
      assert IsPowerSlot(s, hw, node.zone, node.slot);
      assert range.lo <= ZoneWatts(s, node.zone, name, watts) <= range.hi;
    } else {
      OtherNodesAreKept(s, hw.zones, name, watts, node);
    }
  }

  lemma ConstraintWrites(s: Store, hw: Hardware, name: string, watts: int)
    requires name == LONG_TERM || name == SHORT_TERM
    ensures ToolWrites(s, hw, AfterConstraint(s, hw.zones, name, watts))
  {
    var t := AfterConstraint(s, hw.zones, name, watts);
    forall node | node in s ensures t[node] == s[node] || InEnvelope(s, hw, node, t[node]) {
      ConstraintWrite(s, hw, name, watts, node);
    }
  }

  lemma PercentWrites(s: Store, hw: Hardware, percent: nat)
    ensures ToolWrites(s, hw, AfterPercent(s, hw.backlights, percent))
  {
  }

  lemma TargetsWrite(s: Store, hw: Hardware, t: Targets)
    requires ValidHardware(hw)
    ensures ToolWrites(s, hw, AfterTargets(s, hw, t))
  {
    var s1 := AfterLimit(s, hw.zones, LONG_TERM, t.long);
    var s2 := AfterLimit(s1, hw.zones, SHORT_TERM, t.short);
    var s3 := AfterOnlineCores(s2, hw.cpus, t.cores);
    var s4 := AfterFreqLimit(s3, hw.cpus, t.freq);
    var s5 := if hw.hasGpu then AfterGpuFreq(s4, t.gpu) else s4;
    LimitWrites(s, hw, LONG_TERM, t.long);
    LimitWrites(s1, hw, SHORT_TERM, t.short);
    ToolWritesCompose(s, hw, s1, s2);
    OnlineWrites(s2, hw, t.cores);
    ToolWritesCompose(s, hw, s2, s3);
    FreqLimitWrites(s3, hw, t.freq);
    ToolWritesCompose(s, hw, s3, s4);
    if hw.hasGpu {
      GpuWrites(s4, hw, t.gpu);
    }
    ToolWritesCompose(s, hw, s4, s5);
    TurboWrites(s5, hw, t.turbo);
    ToolWritesCompose(s, hw, s5, AfterTurbo(s5, t.turbo));
  }

  lemma LimitWrites(s: Store, hw: Hardware, name: string, watts: Option<nat>)
    requires name == LONG_TERM || name == SHORT_TERM
    ensures ToolWrites(s, hw, AfterLimit(s, hw.zones, name, watts))
  {
    if watts.Some? {
      ConstraintWrites(s, hw, name, watts.value);
    }
  }

  lemma ExtremesWrite(s: Store, hw: Hardware, top: bool, cores: nat, percent: nat)
    requires ValidHardware(hw)
    ensures ToolWrites(s, hw, AfterExtremes(s, hw, top, cores, percent))
  {
    var s1 := AfterCpuEnd(s, hw.cpus, top, cores);
    var s2 := AfterConstraintEnd(s1, hw.zones, LONG_TERM, top);
    var s3 := AfterConstraintEnd(s2, hw.zones, SHORT_TERM, top);
    var s4 := AfterGpuEnd(s3, hw, top);
    CpuEndWrites(s, hw, top, cores);
    ConstraintEndWrites(s1, hw, LONG_TERM, top);
    ToolWritesCompose(s, hw, s1, s2);
    ConstraintEndWrites(s2, hw, SHORT_TERM, top);
    ToolWritesCompose(s, hw, s2, s3);
    var range := if hw.hasGpu then GpuRange(s3) else None;
    if range.Some? {
      GpuWrites(s3, hw, End(range.value, top));
    }
    ToolWritesCompose(s, hw, s3, s4);
    PercentWrites(s4, hw, percent);
    ToolWritesCompose(s, hw, s4, AfterPercent(s4, hw.backlights, percent));
  }

  lemma ConstraintEndWrites(s: Store, hw: Hardware, name: string, top: bool)
    requires name == LONG_TERM || name == SHORT_TERM
    ensures ToolWrites(s, hw, AfterConstraintEnd(s, hw.zones, name, top))
  {
    var b := BoundsOf(s, hw.zones, name);
    if b.Some? {
      ConstraintWrites(s, hw, name, End(b.value, top));
    }
  }

  lemma CpuEndWrites(s: Store, hw: Hardware, top: bool, cores: nat)
    requires ValidHardware(hw)
    ensures ToolWrites(s, hw, AfterCpuEnd(s, hw.cpus, top, cores))
  {
    var s1 := AfterOnlineCores(s, hw.cpus, cores);
    var range := Bounds(s1, hw.cpus);
    var s2 := if range.Some? then AfterFreqLimit(s1, hw.cpus, End(range.value, top)) else s1;
    OnlineWrites(s, hw, cores);
    if range.Some? {
      FreqLimitWrites(s1, hw, End(range.value, top));
    }
    ToolWritesCompose(s, hw, s1, s2);
    TurboWrites(s2, hw, top);
    ToolWritesCompose(s, hw, s2, AfterTurbo(s2, top));
  }

  lemma RaplAdjustWrites(s: Store, hw: Hardware, name: string, up: bool)
    requires name == LONG_TERM || name == SHORT_TERM
    ensures ToolWrites(s, hw, AfterRaplAdjust(s, hw, name, up))
  {
    var watts := Stepped(LimitOf(s, hw.zones, name), 2, DisplayWatts(s, hw.zones), up);
    ConstraintWrites(s, hw, name, watts);
  }

  lemma AdjustWrites(s: Store, hw: Hardware, item: Item, up: bool, external: nat)
    requires ValidHardware(hw)
    ensures ToolWrites(s, hw, AfterAdjust(s, hw, item, up, external))
  {
    match item {
      case Cores =>
        var cur := OnlineCount(s, hw.cpus);
        OnlineWrites(s, hw, if up then Min(cur + 1, |hw.cpus|) else Max(SatSub(cur, 1), 1));
      case FreqLimit =>
        FreqLimitWrites(s, hw, Stepped(FreqLimitOf(s), 100, RangeOr(Bounds(s, hw.cpus), FALLBACK_FREQ), up));
      case GpuFreqItem =>
        if hw.hasGpu {
          GpuWrites(s, hw, Stepped(GpuFreq(s), 50, DisplayRange(s), up));
        }
      case RaplPl1 => RaplAdjustWrites(s, hw, LONG_TERM, up);
      case RaplPl2 => RaplAdjustWrites(s, hw, SHORT_TERM, up);
      case TurboItem => TurboWrites(s, hw, !TurboEnabledIn(s));
      case BrightnessItem => PercentWrites(s, hw, NextPercent(PercentOf(s, hw.backlights, external), up));
    }
  }

  /** A step of the tool makes only in-envelope writes; any step keeps the hardware. */
  lemma StepWrites(s: Store, hw: Hardware, a: Action)
    requires ValidHardware(hw)
    ensures !a.Outside? ==> ToolWrites(s, hw, Step(s, hw, a))
    ensures SameHardware(s, Step(s, hw, a))
  {
    match a {
      case Tick(level, load) => TargetsWrite(s, hw, TargetsOf(s, hw, level, load));
      case Apply(profile) =>
        if profile != AutoExtreme {
          ExtremesWrite(s, hw, profile != Extreme,
                        if profile == Extreme then Min(2, |hw.cpus|) else |hw.cpus|,
                        if profile == Extreme then 10 else 100);
        }
      case Press(item, up, external) => AdjustWrites(s, hw, item, up, external);
      case Brighten(percent) => PercentWrites(s, hw, percent);
      case Outside(changes) =>
    }
    if !a.Outside? {
      ToolWritesKeepHardware(s, hw, Step(s, hw, a));
    }
  }

  // ---------------------------------------------------------------------
  // The theorems
  // ---------------------------------------------------------------------

  lemma {:induction false} RunKeepsHardware(s: Store, hw: Hardware, run: seq<Action>)
    requires ValidHardware(hw)
    ensures SameHardware(s, Run(s, hw, run))
  {
    if run != [] {
      var before := Run(s, hw, run[..|run| - 1]);
      RunKeepsHardware(s, hw, run[..|run| - 1]);
      StepWrites(before, hw, run[|run| - 1]);
      SameHardwareIsTransitive(s, before, Run(s, hw, run));
    }
  }

  /** No ratchet: after any run, discovery finds exactly the ranges it found before. */
  lemma RangesNeverMove(s: Store, hw: Hardware, run: seq<Action>)
    requires ValidHardware(hw)
    ensures var t := Run(s, hw, run);
            && Bounds(t, hw.cpus) == Bounds(s, hw.cpus)
            && GpuRange(t) == GpuRange(s)
            && BoundsOf(t, hw.zones, LONG_TERM) == BoundsOf(s, hw.zones, LONG_TERM)
            && BoundsOf(t, hw.zones, SHORT_TERM) == BoundsOf(s, hw.zones, SHORT_TERM)
  {
    var t := Run(s, hw, run);
    RunKeepsHardware(s, hw, run);
    BoundsAreHardware(s, t, hw.cpus);
    GpuRangeIsHardware(s, t);
    BoundsOfAreHardware(s, t, hw.zones, LONG_TERM);
    BoundsOfAreHardware(s, t, hw.zones, SHORT_TERM);
  }

  /** Some outside step of the run put exactly this content in the node. */
  ghost predicate PutByOutside(run: seq<Action>, node: Node, content: Content) {
    exists i :: 0 <= i < |run| && run[i].Outside? && Touches(run[i].changes, node)
                && run[i].changes[node] == Some(content)
  }

  /**
   Provenance: whatever a node holds after a run was there at the start, was put there
   by an outside step, or lies in the envelope the hardware declared at the start.
   */
  lemma {:induction false} EveryValueHasAnAuthor(s: Store, hw: Hardware, run: seq<Action>, node: Node)
    requires ValidHardware(hw) && node in Run(s, hw, run)
    ensures var content := Run(s, hw, run)[node];
            (node in s && content == s[node]) || PutByOutside(run, node, content)
            || InEnvelope(s, hw, node, content)
  {
    if run != [] {
      var front := run[..|run| - 1];
      var before := Run(s, hw, front);
      var a := run[|run| - 1];
      var content := Run(s, hw, run)[node];
      RunKeepsHardware(s, hw, front);
      StepWrites(before, hw, a);
      EnvelopeIsHardware(s, before, hw, node);
      if a.Outside? && Touches(a.changes, node) {
        assert run[|run| - 1].changes[node] == Some(content);
      } else if node in before && content == before[node] {
        EveryValueHasAnAuthor(s, hw, front, node);
        if PutByOutside(front, node, content) {
          var i :| 0 <= i < |front| && front[i].Outside? && Touches(front[i].changes, node)
                   && front[i].changes[node] == Some(content);
          assert run[i] == front[i];
        }
      }
    }
  }

  /** The run with every step of the tool removed. */
  function OutsideOnly(run: seq<Action>): seq<Action> {
    if run == [] then []
    else
      var front := OutsideOnly(run[..|run| - 1]);
      if run[|run| - 1].Outside? then front + [run[|run| - 1]] else front
  }

  lemma StepSparesUncontrolled(s: Store, hw: Hardware, before: Store, a: Action, node: Node)
    requires ValidHardware(hw) && SameHardware(s, before) && !Controlled(s, hw, node) && !a.Outside?
    ensures var after := Step(before, hw, a);
            (node in after <==> node in before) && (node in after ==> after[node] == before[node])
  {
    StepWrites(before, hw, a);
    EnvelopeIsHardware(s, before, hw, node);
  }

  lemma OutsideActsAlike(s: Store, t: Store, changes: map<Node, Option<Content>>, node: Node)
    requires (node in s <==> node in t) && (node in s ==> s[node] == t[node])
    ensures var u, v := AfterOutside(s, changes), AfterOutside(t, changes);
            (node in u <==> node in v) && (node in u ==> u[node] == v[node])
  {
  }

  /**
   A control without a discovered range is never written: a run leaves its node exactly
   as the same run without any step of the tool would.
   */
  lemma {:induction false} UndiscoveredIsUntouched(s: Store, hw: Hardware, run: seq<Action>, node: Node)
    requires ValidHardware(hw) && !Controlled(s, hw, node)
    ensures var t, u := Run(s, hw, run), Run(s, hw, OutsideOnly(run));
            (node in t <==> node in u) && (node in t ==> t[node] == u[node])
  {
    if run != [] {
      var front := run[..|run| - 1];
      var a := run[|run| - 1];
      var before := Run(s, hw, front);
      UndiscoveredIsUntouched(s, hw, front, node);
      RunKeepsHardware(s, hw, front);
      if a.Outside? {
        var kept := OutsideOnly(front) + [a];
        assert kept[..|kept| - 1] == OutsideOnly(front) && kept[|kept| - 1] == a;
        OutsideActsAlike(before, Run(s, hw, OutsideOnly(front)), a.changes, node);
      } else {
        StepSparesUncontrolled(s, hw, before, a, node);
      }
    }
  }
}
