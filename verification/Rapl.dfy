/**
 Package power limits. Zones are found by discovery; a constraint is written in
 every zone that exposes it together with a usable range and a limit node, each
 time clamped inside that zone's own range.
 */
module Rapl {
  import opened Prelude
  import opened Sysfs
  import opened Cpu

  const LONG_TERM: string := "long_term"
  const SHORT_TERM: string := "short_term"
  const MICRO: int := 1_000_000
  const FALLBACK_WATTS: Range := Range(5, 115)

  predicate IsNamed(s: Store, zone: nat, slot: nat, name: string) {
    ConstraintName(zone, slot) in s && s[ConstraintName(zone, slot)] == Text(name)
  }

  /** The first of the slots `from..4` whose name node reads `name`. */
  function SlotFrom(s: Store, zone: nat, name: string, from: nat): (r: Option<nat>)
    ensures r.Some? ==> from <= r.value <= 4 && IsNamed(s, zone, r.value, name)
    ensures forall k :: from <= k <= 4 && (r.None? || k < r.value) ==> !IsNamed(s, zone, k, name)
    decreases 5 - from
  {
    if from > 4 then None
    else if IsNamed(s, zone, from, name) then Some(from)
    else SlotFrom(s, zone, name, from + 1)
  }

  function ConstraintIndex(s: Store, zone: nat, name: string): (r: Option<nat>)
    ensures r.Some? ==> r.value <= 4 && IsNamed(s, zone, r.value, name)
    ensures forall k :: 0 <= k <= 4 && (r.None? || k < r.value) ==> !IsNamed(s, zone, k, name)
  {
    SlotFrom(s, zone, name, 0)
  }

  /** The discovered range of one constraint, in watts. */
  function SlotRange(s: Store, zone: nat, slot: nat): (r: Option<Range>)
    ensures r.Some? ==> r.value.lo < r.value.hi < TWO_32
  {
    var maxUw := ReadU64(s, ConstraintMax(zone, slot));
    if maxUw.None? || maxUw.value == 0 then None
    else
      var minUw := ReadU64(s, ConstraintMin(zone, slot));
      var lo := U32((if minUw.Some? then minUw.value else 0) / MICRO);
      var hi := U32(maxUw.value / MICRO);
      if hi <= lo then None else Some(Range(lo, hi))
  }

  function ZoneRange(s: Store, zone: nat, name: string): (r: Option<Range>)
    ensures r.Some? ==> r.value.lo < r.value.hi < TWO_32
  {
    var slot := ConstraintIndex(s, zone, name);
    if slot.None? then None else SlotRange(s, zone, slot.value)
  }

  /** Floor of the floors and ceiling of the ceilings. */
  function Union(a: Option<Range>, b: Option<Range>): Option<Range> {
    if a.None? then b
    else if b.None? then a
    else Some(Range(Min(a.value.lo, b.value.lo), Max(a.value.hi, b.value.hi)))
  }

  /** Union of the ranges of every zone exposing `name`: always a proper range. */
  function BoundsOf(s: Store, zones: seq<nat>, name: string): (r: Option<Range>)
    ensures r.Some? ==> r.value.lo < r.value.hi < TWO_32
    ensures r.None? <==> forall i :: 0 <= i < |zones| ==> ZoneRange(s, zones[i], name).None?
    ensures forall i :: 0 <= i < |zones| && ZoneRange(s, zones[i], name).Some? ==>
              r.value.lo <= ZoneRange(s, zones[i], name).value.lo
              && ZoneRange(s, zones[i], name).value.hi <= r.value.hi
  {
    if zones == [] then None
    else
      var rest := BoundsOf(s, zones[1..], name);
      assert forall i :: 1 <= i < |zones| ==> zones[i] == zones[1..][i - 1];
      Union(ZoneRange(s, zones[0], name), rest)
  }

  /** The zone takes writes of `name`: slot, usable range and limit node all exist. */
  predicate Writable(s: Store, zone: nat, name: string) {
    var slot := ConstraintIndex(s, zone, name);
    slot.Some? && SlotRange(s, zone, slot.value).Some? && ConstraintLimit(zone, slot.value) in s
  }

  /** The watts zone `zone` receives when `watts` are requested of constraint `name`. */
  function ZoneWatts(s: Store, zone: nat, name: string, watts: int): nat
    requires Writable(s, zone, name)
  {
    var range := SlotRange(s, zone, ConstraintIndex(s, zone, name).value).value;
    Clamp(watts, range.lo, range.hi)
  }

  /** Every writable zone holds its own clamp of the request, and nothing else changed. */
  function AfterConstraint(s: Store, zones: seq<nat>, name: string, watts: int): Store {
    map node | node in s ::
      if node.ConstraintLimit? && node.zone in zones && Writable(s, node.zone, name)
         && ConstraintIndex(s, node.zone, name) == Some(node.slot)
      then Num(ZoneWatts(s, node.zone, name, watts) * MICRO)
      else s[node]
  }

  /** The watts written to the first writable zone. */
  function FirstWatts(s: Store, zones: seq<nat>, name: string, watts: int): (r: Option<nat>)
    ensures r.None? <==> forall i :: 0 <= i < |zones| ==> !Writable(s, zones[i], name)
  {
    if zones == [] then None
    else if Writable(s, zones[0], name) then Some(ZoneWatts(s, zones[0], name, watts))
    else
      assert forall i :: 1 <= i < |zones| ==> zones[i] == zones[1..][i - 1];
      FirstWatts(s, zones[1..], name, watts)
  }

  function LimitOf(s: Store, zones: seq<nat>, name: string): nat {
    if zones == [] then 0
    else
      var slot := ConstraintIndex(s, zones[0], name);
      if slot.None? then LimitOf(s, zones[1..], name)
      else
        var uw := ReadU64(s, ConstraintLimit(zones[0], slot.value));
        U32((if uw.Some? then uw.value else 0) / MICRO)
  }

  function PackageRange(s: Store, zones: seq<nat>): Option<Range> {
    if zones == [] then None
    else
      var lo := ReadU64(s, PackageMin(zones[0]));
      var hi := ReadU64(s, PackageMax(zones[0]));
      var here := if lo.Some? && hi.Some?
                  then Some(Range(U32(lo.value / MICRO), U32(hi.value / MICRO))) else None;
      Union(here, PackageRange(s, zones[1..]))
  }

  /** The range shown and stepped in the dashboard. */
  function DisplayWatts(s: Store, zones: seq<nat>): Range {
    var discovered := Union(BoundsOf(s, zones, LONG_TERM), BoundsOf(s, zones, SHORT_TERM));
    if discovered.Some? then discovered.value
    else
      var package := PackageRange(s, zones);
      if package.Some? then package.value else FALLBACK_WATTS
  }

  class RaplController {
    const root: SysfsRoot
    const zones: seq<nat>

    constructor (root: SysfsRoot, zones: seq<nat>)
      ensures this.root == root && this.zones == zones
    {
      this.root := root;
      this.zones := zones;
    }

    method WriteConstraint(name: string, watts: nat) returns (written: Option<nat>)
      modifies root
      ensures root.nodes == AfterConstraint(old(root.nodes), zones, name, watts)
      ensures written == FirstWatts(old(root.nodes), zones, name, watts)
    {
      ghost var s := root.nodes;
      written := None;
      for k := 0 to |zones|
        invariant root.nodes == AfterConstraint(s, zones[..k], name, watts)
        invariant FirstWatts(s, zones, name, watts)
                  == if written.Some? then written else FirstWatts(s, zones[k..], name, watts)
      {
        ConstraintStep(s, zones, k, name, watts);
        assert zones[k..][1..] == zones[k + 1..];
        var slot := ConstraintIndex(root.nodes, zones[k], name);
        if slot.None? {
          continue;
        }
        var range := SlotRange(root.nodes, zones[k], slot.value);
        if range.None? {
          continue;
        }
        if ConstraintLimit(zones[k], slot.value) !in root.nodes {
          continue;
        }
        var clamped := Clamp(watts, range.value.lo, range.value.hi);
        root.WriteBestEffort(ConstraintLimit(zones[k], slot.value), clamped * MICRO);
        if written.None? {
          written := Some(clamped);
        }
      }
      assert zones[..|zones|] == zones;
    }
  }

  lemma {:induction false} SlotIsHardware(s: Store, t: Store, zone: nat, name: string, from: nat)
    requires SameHardware(s, t)
    ensures SlotFrom(s, zone, name, from) == SlotFrom(t, zone, name, from)
    decreases 5 - from
  {
    assert !ConstraintName(zone, from).Mutable();
    if from <= 4 {
      SlotIsHardware(s, t, zone, name, from + 1);
    }
  }

  lemma ZoneIsHardware(s: Store, t: Store, zone: nat, name: string)
    requires SameHardware(s, t)
    ensures ConstraintIndex(s, zone, name) == ConstraintIndex(t, zone, name)
    ensures ZoneRange(s, zone, name) == ZoneRange(t, zone, name)
  {
    SlotIsHardware(s, t, zone, name, 0);
    assert forall slot: nat :: !ConstraintMax(zone, slot).Mutable() && !ConstraintMin(zone, slot).Mutable();
  }

  lemma {:induction false} BoundsOfAreHardware(s: Store, t: Store, zones: seq<nat>, name: string)
    requires SameHardware(s, t)
    ensures BoundsOf(s, zones, name) == BoundsOf(t, zones, name)
  {
    if zones != [] {
      ZoneIsHardware(s, t, zones[0], name);
      BoundsOfAreHardware(s, t, zones[1..], name);
    }
  }

  /** One more listed zone adds at most that zone's own limit node. */
  lemma OneMoreZone(s: Store, zones: seq<nat>, zone: nat, name: string, watts: int)
    ensures var before := AfterConstraint(s, zones, name, watts);
            AfterConstraint(s, zones + [zone], name, watts)
            == if Writable(s, zone, name)
               then Put(before, ConstraintLimit(zone, ConstraintIndex(s, zone, name).value),
                        ZoneWatts(s, zone, name, watts) * MICRO)
               else before
  {
    var before := AfterConstraint(s, zones, name, watts);
    var after := AfterConstraint(s, zones + [zone], name, watts);
    forall node | node in s
      ensures after[node] == if Writable(s, zone, name)
                                && node == ConstraintLimit(zone, ConstraintIndex(s, zone, name).value)
                             then Num(ZoneWatts(s, zone, name, watts) * MICRO) else before[node]
    {
      assert node.ConstraintLimit? ==> (node.zone in zones + [zone] <==> node.zone in zones || node.zone == zone);
    }
  }

  /** Limit writes leave slots and ranges alone. */
  lemma DiscoverySurvives(s: Store, zones: seq<nat>, zone: nat, name: string, watts: int)
    ensures var t := AfterConstraint(s, zones, name, watts);
            && t.Keys == s.Keys
            && ConstraintIndex(t, zone, name) == ConstraintIndex(s, zone, name)
            && forall slot: nat :: SlotRange(t, zone, slot) == SlotRange(s, zone, slot)
  {
    var t := AfterConstraint(s, zones, name, watts);
    assert SameHardware(s, t);
    ZoneIsHardware(s, t, zone, name);
    forall slot: nat ensures SlotRange(t, zone, slot) == SlotRange(s, zone, slot) {
      assert !ConstraintMax(zone, slot).Mutable() && !ConstraintMin(zone, slot).Mutable();
    }
  }

  lemma ConstraintStep(s: Store, zones: seq<nat>, k: nat, name: string, watts: int)
    requires k < |zones|
    ensures var before := AfterConstraint(s, zones[..k], name, watts);
            var after := AfterConstraint(s, zones[..k + 1], name, watts);
            && before.Keys == s.Keys
            && ConstraintIndex(before, zones[k], name) == ConstraintIndex(s, zones[k], name)
            && (forall slot: nat :: SlotRange(before, zones[k], slot) == SlotRange(s, zones[k], slot))
            && after == if Writable(s, zones[k], name)
                        then Put(before, ConstraintLimit(zones[k], ConstraintIndex(s, zones[k], name).value),
                                 ZoneWatts(s, zones[k], name, watts) * MICRO)
                        else before
  {
    DiscoverySurvives(s, zones[..k], zones[k], name, watts);
    assert zones[..k + 1] == zones[..k] + [zones[k]];
    OneMoreZone(s, zones[..k], zones[k], name, watts);
  }

  // ---------------------------------------------------------------------
  // Properties
  // ---------------------------------------------------------------------

  /**
   A limit node of a listed zone ends inside that zone's own declared range: never above
   `max_power_uw`, and less than one watt under `min_power_uw`.
   */
  lemma LimitsStayInTheZone(s: Store, zones: seq<nat>, name: string, watts: int, zone: nat)
    requires zone in zones && Writable(s, zone, name)
    requires var m := ReadU64(s, ConstraintMin(zone, ConstraintIndex(s, zone, name).value));
             m.Some? ==> m.value < MICRO * TWO_32
    ensures var slot := ConstraintIndex(s, zone, name).value;
            var t := AfterConstraint(s, zones, name, watts);
            var limit := ConstraintLimit(zone, slot);
            var range := SlotRange(s, zone, slot).value;
            && limit in t && t[limit] == Num(Clamp(watts, range.lo, range.hi) * MICRO)
            && t[limit].n <= ReadU64(s, ConstraintMax(zone, slot)).value
            && (ReadU64(s, ConstraintMin(zone, slot)).Some? ==>
                  t[limit].n > ReadU64(s, ConstraintMin(zone, slot)).value - MICRO)
  {
    var slot := ConstraintIndex(s, zone, name).value;
    var maxUw := ReadU64(s, ConstraintMax(zone, slot)).value;
    U32IsAtMost(maxUw / MICRO);
    var minUw := ReadU64(s, ConstraintMin(zone, slot));
    if minUw.Some? {
      assert minUw.value / MICRO < TWO_32;
    }
  }

  lemma U32IsAtMost(x: nat)
    ensures U32(x) <= x
    ensures x < TWO_32 ==> U32(x) == x
  {
  }

  /** Zones that are not listed, or not writable, and all other nodes keep their content. */
  lemma OtherNodesAreKept(s: Store, zones: seq<nat>, name: string, watts: int, node: Node)
    requires node in s
    requires !(node.ConstraintLimit? && node.zone in zones && Writable(s, node.zone, name)
               && ConstraintIndex(s, node.zone, name) == Some(node.slot))
    ensures node in AfterConstraint(s, zones, name, watts) && AfterConstraint(s, zones, name, watts)[node] == s[node]
  {
  }

  /** The reported value is what the first writable zone now holds. */
  lemma ReportedWattsAreInForce(s: Store, zones: seq<nat>, name: string, watts: int)
    ensures var r := FirstWatts(s, zones, name, watts);
            var t := AfterConstraint(s, zones, name, watts);
            r.Some? ==>
              (exists k :: 0 <= k < |zones| && Writable(s, zones[k], name)
                && (forall j :: 0 <= j < k ==> !Writable(s, zones[j], name))
                && t[ConstraintLimit(zones[k], ConstraintIndex(s, zones[k], name).value)]
                   == Num(r.value * MICRO))
    ensures FirstWatts(s, zones, name, watts).None? ==> AfterConstraint(s, zones, name, watts) == s
  {
    FirstWritable(s, zones, name, watts);
    if FirstWatts(s, zones, name, watts).None? {
      forall node | node in s && node.ConstraintLimit? && node.zone in zones
        ensures !Writable(s, node.zone, name)
      {
        var i :| 0 <= i < |zones| && zones[i] == node.zone;
      }
    }
  }

  lemma {:induction false} FirstWritable(s: Store, zones: seq<nat>, name: string, watts: int)
    ensures FirstWatts(s, zones, name, watts).Some? ==>
              (exists k :: 0 <= k < |zones| && Writable(s, zones[k], name)
                && (forall j :: 0 <= j < k ==> !Writable(s, zones[j], name))
                && FirstWatts(s, zones, name, watts) == Some(ZoneWatts(s, zones[k], name, watts)))
  {
    if zones != [] && !Writable(s, zones[0], name) {
      FirstWritable(s, zones[1..], name, watts);
      if FirstWatts(s, zones, name, watts).Some? {
        var k :| 0 <= k < |zones[1..]| && Writable(s, zones[1..][k], name)
                 && (forall j :: 0 <= j < k ==> !Writable(s, zones[1..][j], name))
                 && FirstWatts(s, zones, name, watts) == Some(ZoneWatts(s, zones[1..][k], name, watts));
        assert Writable(s, zones[k + 1], name);
        forall j | 0 <= j < k + 1 ensures !Writable(s, zones[j], name) {
          if j > 0 {
            assert zones[j] == zones[1..][j - 1];
          }
        }
      }
    }
  }

  /** The union is tight: both of its ends belong to zones. */
  lemma {:induction false} BoundsOfAreTight(s: Store, zones: seq<nat>, name: string)
    requires BoundsOf(s, zones, name).Some?
    ensures exists i :: 0 <= i < |zones| && ZoneRange(s, zones[i], name).Some?
              && ZoneRange(s, zones[i], name).value.lo == BoundsOf(s, zones, name).value.lo
    ensures exists i :: 0 <= i < |zones| && ZoneRange(s, zones[i], name).Some?
              && ZoneRange(s, zones[i], name).value.hi == BoundsOf(s, zones, name).value.hi
  {
    var rest := zones[1..];
    if BoundsOf(s, rest, name).Some? {
      BoundsOfAreTight(s, rest, name);
      var i :| 0 <= i < |rest| && ZoneRange(s, rest[i], name).Some?
               && ZoneRange(s, rest[i], name).value.lo == BoundsOf(s, rest, name).value.lo;
      var j :| 0 <= j < |rest| && ZoneRange(s, rest[j], name).Some?
               && ZoneRange(s, rest[j], name).value.hi == BoundsOf(s, rest, name).value.hi;
      assert rest[i] == zones[i + 1] && rest[j] == zones[j + 1];
    }
    assert zones[0] == zones[0];
  }

  /** The first zone that exposes the constraint. */
  function FirstExposing(s: Store, zones: seq<nat>, name: string): (zone: Option<nat>)
    ensures zone.Some? ==> zone.value in zones && ConstraintIndex(s, zone.value, name).Some?
  {
    if zones == [] then None
    else if ConstraintIndex(s, zones[0], name).Some? then Some(zones[0])
    else FirstExposing(s, zones[1..], name)
  }

  /** Watts shown for one zone's limit node. */
  function ShownWatts(s: Store, zone: nat, slot: nat): nat {
    var uw := ReadU64(s, ConstraintLimit(zone, slot));
    U32((if uw.Some? then uw.value else 0) / MICRO)
  }

  lemma {:induction false} LimitIsTheFirstZone(s: Store, zones: seq<nat>, name: string)
    ensures var zone := FirstExposing(s, zones, name);
            LimitOf(s, zones, name)
            == if zone.None? then 0 else ShownWatts(s, zone.value, ConstraintIndex(s, zone.value, name).value)
  {
    if zones != [] && ConstraintIndex(s, zones[0], name).None? {
      LimitIsTheFirstZone(s, zones[1..], name);
    }
  }

  lemma {:induction false} ExposingIsHardware(s: Store, t: Store, zones: seq<nat>, name: string)
    requires SameHardware(s, t)
    ensures FirstExposing(s, zones, name) == FirstExposing(t, zones, name)
  {
    if zones != [] {
      ZoneIsHardware(s, t, zones[0], name);
      ExposingIsHardware(s, t, zones[1..], name);
    }
  }

  lemma WattsRoundTrip(s: Store, limit: nat)
    requires limit < TWO_32
    ensures limit * MICRO < TWO_64 && U32(limit * MICRO / MICRO) == limit
  {
  }

  /**
   Setting a limit and reading it back: the reading is the zone's clamp of the request when
   the first zone exposing the constraint can be written; otherwise the reading is what it
   was, whatever the other zones took.
   */
  lemma LimitReadsBack(s: Store, zones: seq<nat>, name: string, watts: int)
    ensures var zone := FirstExposing(s, zones, name);
            var t := AfterConstraint(s, zones, name, watts);
            LimitOf(t, zones, name)
            == if zone.Some? && Writable(s, zone.value, name) then ZoneWatts(s, zone.value, name, watts)
               else LimitOf(s, zones, name)
  {
    var zone := FirstExposing(s, zones, name);
    var t := AfterConstraint(s, zones, name, watts);
    assert SameHardware(s, t);
    ExposingIsHardware(s, t, zones, name);
    LimitIsTheFirstZone(s, zones, name);
    LimitIsTheFirstZone(t, zones, name);
    if zone.Some? {
      DiscoverySurvives(s, zones, zone.value, name, watts);
      var node := ConstraintLimit(zone.value, ConstraintIndex(s, zone.value, name).value);
      if Writable(s, zone.value, name) {
        WattsRoundTrip(s, ZoneWatts(s, zone.value, name, watts));
        assert t[node] == Num(ZoneWatts(s, zone.value, name, watts) * MICRO);
      } else {
        assert node in s ==> t[node] == s[node];
      }
    }
  }

  // ---------------------------------------------------------------------
  // From the declared nodes
  // ---------------------------------------------------------------------

  /** `slot` is the first of the five whose name node reads `name`. */
  predicate NamesFirst(s: Store, zone: nat, slot: nat, name: string) {
    && slot <= 4 && ConstraintName(zone, slot) in s && s[ConstraintName(zone, slot)] == Text(name)
    && forall k: nat :: k < slot && ConstraintName(zone, k) in s ==> s[ConstraintName(zone, k)] != Text(name)
  }

  /** The node holds the number `n`, and it fits an unsigned 64-bit read. */
  predicate Holds(s: Store, node: Node, n: int) {
    node in s && s[node] == Num(n) && 0 <= n < 0x1_0000_0000_0000_0000
  }

  /** The floor of the slot: what its node holds, or 0 when that cannot be read. */
  ghost predicate FloorIs(s: Store, zone: nat, slot: nat, lo: int) {
    Holds(s, ConstraintMin(zone, slot), lo)
    || (lo == 0 && forall n :: !Holds(s, ConstraintMin(zone, slot), n))
  }

  lemma NamedSlot(s: Store, zone: nat, slot: nat, name: string)
    requires NamesFirst(s, zone, slot, name)
    ensures ConstraintIndex(s, zone, name) == Some(slot)
  {
    assert IsNamed(s, zone, slot, name);
  }

  lemma FloorRead(s: Store, zone: nat, slot: nat, lo: int)
    requires FloorIs(s, zone, slot, lo)
    ensures lo >= 0
    ensures var r := ReadU64(s, ConstraintMin(zone, slot));
            (if r.Some? then r.value else 0) == lo
  {
    var r := ReadU64(s, ConstraintMin(zone, slot));
    if r.Some? {
      assert Holds(s, ConstraintMin(zone, slot), r.value);
    }
  }

  /**
   One zone's limit node after a request, from what its nodes declare: both ends are cut to
   whole watts and to 32 bits; the request is moved to the nearer end when it is outside; and
   without a positive ceiling above the floor the node keeps its content.
   */
  lemma LimitFromDeclared(s: Store, zones: seq<nat>, name: string, watts: int,
                          zone: nat, slot: nat, lo: int, hi: int)
    requires zone in zones && NamesFirst(s, zone, slot, name) && ConstraintLimit(zone, slot) in s
    requires FloorIs(s, zone, slot, lo) && Holds(s, ConstraintMax(zone, slot), hi)
    ensures var a, b := lo / 1_000_000 % 0x1_0000_0000, hi / 1_000_000 % 0x1_0000_0000;
            var t := AfterConstraint(s, zones, name, watts);
            var limit := ConstraintLimit(zone, slot);
            && limit in t
            && t[limit] == if b <= a then s[limit]
                           else Num((if watts < a then a else if watts > b then b else watts) * 1_000_000)
  {
    NamedSlot(s, zone, slot, name);
    FloorRead(s, zone, slot, lo);
  }

  /** Without a readable positive ceiling nothing is written. */
  lemma NoCeilingNoLimit(s: Store, zones: seq<nat>, name: string, watts: int, zone: nat, slot: nat)
    requires NamesFirst(s, zone, slot, name) && ConstraintLimit(zone, slot) in s
    requires forall n :: Holds(s, ConstraintMax(zone, slot), n) ==> n == 0
    ensures var t := AfterConstraint(s, zones, name, watts);
            ConstraintLimit(zone, slot) in t && t[ConstraintLimit(zone, slot)] == s[ConstraintLimit(zone, slot)]
  {
    NamedSlot(s, zone, slot, name);
    var r := ReadU64(s, ConstraintMax(zone, slot));
    if r.Some? {
      assert Holds(s, ConstraintMax(zone, slot), r.value);
    }
  }

  /** Whole-watt clamping against clamping in microwatts. */
  lemma ClampInMicrowatts(watts: int, lo: int, hi: int)
    requires 0 <= lo && lo / 1_000_000 < hi / 1_000_000 < 0x1_0000_0000
    ensures var a, b := lo / 1_000_000 % 0x1_0000_0000, hi / 1_000_000 % 0x1_0000_0000;
            var w := if watts < a then a else if watts > b then b else watts;
            && a == lo / 1_000_000 && b == hi / 1_000_000
            && (lo <= watts * 1_000_000 <= hi ==> w == watts)
            && (watts * 1_000_000 < lo ==> w == a)
            && (watts * 1_000_000 > hi ==> w == b)
  {
  }

  /**
   In microwatts: a request between the declared ends is written exactly; one under or over
   them leaves that end, cut to whole watts.
   */
  lemma RequestInRangeIsWritten(s: Store, zones: seq<nat>, name: string, watts: int,
                                zone: nat, slot: nat, lo: int, hi: int)
    requires zone in zones && NamesFirst(s, zone, slot, name) && ConstraintLimit(zone, slot) in s
    requires FloorIs(s, zone, slot, lo) && Holds(s, ConstraintMax(zone, slot), hi)
    requires lo / 1_000_000 < hi / 1_000_000 < 0x1_0000_0000
    ensures var limit := ConstraintLimit(zone, slot);
            var t := AfterConstraint(s, zones, name, watts);
            && limit in t
            && (lo <= watts * 1_000_000 <= hi ==> t[limit] == Num(watts * 1_000_000))
            && (watts * 1_000_000 < lo ==> t[limit] == Num(lo / 1_000_000 * 1_000_000))
            && (watts * 1_000_000 > hi ==> t[limit] == Num(hi / 1_000_000 * 1_000_000))
  {
    FloorRead(s, zone, slot, lo);
    LimitFromDeclared(s, zones, name, watts, zone, slot, lo, hi);
    ClampInMicrowatts(watts, lo, hi);
  }
}
