/**
 CPU governor: discovery of the immutable frequency range, frequency limits,
 core hotplug and turbo.
 */
module Cpu {
  import opened Prelude
  import opened Sysfs

  datatype Range = Range(lo: nat, hi: nat)

  predicate Increasing(ids: seq<nat>) {
    forall i, j :: 0 <= i < j < |ids| ==> ids[i] < ids[j]
  }

  // ---------------------------------------------------------------------
  // Discovery
  // ---------------------------------------------------------------------

  /** CPU `id` exposes a usable immutable range, in kHz. */
  predicate Exposes(s: Store, id: nat) {
    var lo := ReadI64(s, CpuinfoMin(id));
    var hi := ReadI64(s, CpuinfoMax(id));
    lo.Some? && hi.Some? && 0 < lo.value <= hi.value
  }

  /** `lo` is the least and `hi` the greatest bound exposed by the CPUs of `ids`. */
  ghost predicate IsEnvelope(s: Store, ids: seq<nat>, lo: int, hi: int) {
    && (exists i :: 0 <= i < |ids| && Exposes(s, ids[i]) && ReadI64(s, CpuinfoMin(ids[i])) == Some(lo))
    && (exists i :: 0 <= i < |ids| && Exposes(s, ids[i]) && ReadI64(s, CpuinfoMax(ids[i])) == Some(hi))
    && (forall i :: 0 <= i < |ids| && Exposes(s, ids[i]) ==>
          lo <= ReadI64(s, CpuinfoMin(ids[i])).value && ReadI64(s, CpuinfoMax(ids[i])).value <= hi)
  }

  /** The kHz envelope over the CPUs of `ids`, if any exposes a range. */
  function Envelope(s: Store, ids: seq<nat>): (r: Option<(int, int)>)
    ensures r.Some? ==> 0 < r.value.0 <= r.value.1
  {
    if ids == [] then None
    else
      var rest := Envelope(s, ids[..|ids| - 1]);
      var id := ids[|ids| - 1];
      if !Exposes(s, id) then rest
      else
        var lo := ReadI64(s, CpuinfoMin(id)).value;
        var hi := ReadI64(s, CpuinfoMax(id)).value;
        if rest.None? then Some((lo, hi))
        else Some((Min(rest.value.0, lo), Max(rest.value.1, hi)))
  }

  lemma {:induction false} EnvelopeIsTight(s: Store, ids: seq<nat>)
    ensures Envelope(s, ids).None? <==> forall i :: 0 <= i < |ids| ==> !Exposes(s, ids[i])
    ensures Envelope(s, ids).Some? ==>
              IsEnvelope(s, ids, Envelope(s, ids).value.0, Envelope(s, ids).value.1)
  {
    if ids != [] {
      var front := ids[..|ids| - 1];
      EnvelopeIsTight(s, front);
      var last := ids[|ids| - 1];
      assert forall i :: 0 <= i < |front| ==> front[i] == ids[i];
      if Envelope(s, front).Some? {
        var lo, hi := Envelope(s, front).value.0, Envelope(s, front).value.1;
        var i :| 0 <= i < |front| && Exposes(s, front[i]) && ReadI64(s, CpuinfoMin(front[i])) == Some(lo);
        var j :| 0 <= j < |front| && Exposes(s, front[j]) && ReadI64(s, CpuinfoMax(front[j])) == Some(hi);
        assert Exposes(s, ids[i]) && Exposes(s, ids[j]);
      }
    }
  }

  /** The MHz range every frequency write is gated on. */
  function Bounds(s: Store, ids: seq<nat>): (r: Option<Range>)
    ensures r.Some? ==> r.value.lo < r.value.hi < TWO_32
  {
    var e := Envelope(s, ids);
    if e.None? then None
    else
      var lo := U32(e.value.0 / 1000);
      var hi := U32(e.value.1 / 1000);
      if hi <= lo then None else Some(Range(lo, hi))
  }

  // ---------------------------------------------------------------------
  // What the setters leave behind
  // ---------------------------------------------------------------------

  /** Every CPU of `cpus` with a cpufreq directory carries the window `lo..limit` MHz. */
  function WithFreqWindow(s: Store, cpus: set<nat>, lo: nat, limit: nat): Store {
    map node | node in s ::
      if node.ScalingMin? && node.cpu in cpus && CpufreqDir(node.cpu) in s then Num(lo * 1000)
      else if node.ScalingMax? && node.cpu in cpus && CpufreqDir(node.cpu) in s then Num(limit * 1000)
      else s[node]
  }

  function Members(ids: seq<nat>): set<nat> {
    set id | id in ids
  }

  function AfterFreqLimit(s: Store, ids: seq<nat>, mhz: int): Store {
    match Bounds(s, ids)
    case None => s
    case Some(b) => WithFreqWindow(s, Members(ids), b.lo, Clamp(mhz, b.lo, b.hi))
  }

  /** The first `n` CPUs are online and the others are not, as far as they can be switched. */
  function WithOnlinePrefix(s: Store, ids: seq<nat>, n: nat): Store
    requires 1 <= n <= |ids|
  {
    map node | node in s ::
      if node.CpuOnline? && node.cpu in ids[1..n] then Num(1)
      else if node.CpuOnline? && node.cpu in ids[n..] then Num(0)
      else s[node]
  }

  function FreqLimitOf(s: Store): nat {
    var v := ReadI64(s, ScalingMax(0));
    if v.None? || v.value < 0 then 0 else U32(v.value / 1000)
  }

  function AfterOnlineCores(s: Store, ids: seq<nat>, count: int): Store
    requires ids != []
  {
    var t := WithOnlinePrefix(s, ids, Clamp(count, 1, |ids|));
    if FreqLimitOf(t) > 0 then AfterFreqLimit(t, ids, FreqLimitOf(t)) else t
  }

  function TurboEnabledIn(s: Store): bool {
    if NoTurbo in s then s[NoTurbo] == Num(0)
    else if Boost in s then s[Boost] == Num(1)
    else true
  }

  function AfterTurbo(s: Store, enabled: bool): Store {
    if NoTurbo in s then s[NoTurbo := Num(if enabled then 0 else 1)]
    else if Boost in s then s[Boost := Num(if enabled then 1 else 0)]
    else s
  }

  predicate IsOnline(s: Store, id: nat) {
    CpuOnline(id) in s && s[CpuOnline(id)] == Num(1)
  }

  /** The first CPU cannot be switched off; the others count when their node says `1`. */
  function OnlineCount(s: Store, ids: seq<nat>): nat {
    1 + |set i | 1 <= i < |ids| && IsOnline(s, ids[i])|
  }

  // ---------------------------------------------------------------------
  // The governor
  // ---------------------------------------------------------------------

  class CpuGovernor {
    const root: SysfsRoot
    /** CPU numbers found under the cpu directory, ascending and without duplicates. */
    const discovered: seq<nat>
    /** What the operating system reports when no CPU directory was found. */
    const parallelism: nat

    ghost predicate Valid() {
      Increasing(discovered) && parallelism >= 1
    }

    constructor (root: SysfsRoot, discovered: seq<nat>, parallelism: nat)
      requires Increasing(discovered) && parallelism >= 1
      ensures Valid() && this.root == root
      ensures this.discovered == discovered && this.parallelism == parallelism
    {
      this.root := root;
      this.discovered := discovered;
      this.parallelism := parallelism;
    }

    function CpuIds(): (ids: seq<nat>)
      requires Valid()
      ensures ids != [] && Increasing(ids)
      ensures discovered != [] ==> ids == discovered
      ensures discovered == [] ==> |ids| == parallelism && forall i :: 0 <= i < |ids| ==> ids[i] == i
    {
      if discovered == [] then seq(parallelism, i => i) else discovered
    }

    method DiscoveredFreqBounds() returns (r: Option<Range>)
      requires Valid()
      ensures r == Bounds(root.nodes, CpuIds())
    {
      var ids := CpuIds();
      var minKhz: Option<int> := None;
      var maxKhz: Option<int> := None;
      var i := 0;
      while i < |ids|
        invariant 0 <= i <= |ids|
        invariant match Envelope(root.nodes, ids[..i])
                  case None => minKhz == None && maxKhz == None
                  case Some(e) => minKhz == Some(e.0) && maxKhz == Some(e.1)
      {
        assert ids[..i + 1][..i] == ids[..i];
        var lo := ReadI64(root.nodes, CpuinfoMin(ids[i]));
        var hi := ReadI64(root.nodes, CpuinfoMax(ids[i]));
        if lo.Some? && hi.Some? && !(lo.value <= 0 || hi.value <= 0 || hi.value < lo.value) {
          minKhz := Some(if minKhz.None? then lo.value else Min(minKhz.value, lo.value));
          maxKhz := Some(if maxKhz.None? then hi.value else Max(maxKhz.value, hi.value));
        }
        i := i + 1;
      }
      assert ids[..i] == ids;
      if minKhz.None? || maxKhz.None? {
        return None;
      }
      var minMhz := U32(minKhz.value / 1000);
      var maxMhz := U32(maxKhz.value / 1000);
      if maxMhz <= minMhz {
        return None;
      }
      return Some(Range(minMhz, maxMhz));
    }

    method OnlineCores() returns (cores: nat)
      requires Valid()
      ensures cores == OnlineCount(root.nodes, CpuIds())
    {
      var ids := CpuIds();
      cores := 1;
      ghost var seen: set<int> := {};
      for k := 1 to |ids|
        invariant seen == set i | 1 <= i < k && IsOnline(root.nodes, ids[i])
        invariant cores == 1 + |seen|
      {
        if CpuOnline(ids[k]) in root.nodes && root.nodes[CpuOnline(ids[k])] == Num(1) {
          cores := cores + 1;
          seen := seen + {k};
        }
      }
    }

    method SetFreqLimit(mhz: nat)
      requires Valid()
      modifies root
      ensures root.nodes == AfterFreqLimit(old(root.nodes), CpuIds(), mhz)
    {
      var bounds := DiscoveredFreqBounds();
      if bounds.None? {
        return;
      }
      var lo := bounds.value.lo;
      var clamped := Clamp(mhz, lo, bounds.value.hi);
      var ids := CpuIds();
      ghost var s := root.nodes;
      for k := 0 to |ids|
        invariant root.nodes == WithFreqWindow(s, Members(ids[..k]), lo, clamped)
      {
        FreqWindowStep(s, Members(ids[..k]), ids[k], lo, clamped);
        assert Members(ids[..k + 1]) == Members(ids[..k]) + {ids[k]} by {
          assert ids[..k + 1] == ids[..k] + [ids[k]];
        }
        if CpufreqDir(ids[k]) in root.nodes {
          root.WriteBestEffort(ScalingMin(ids[k]), lo * 1000);
          root.WriteBestEffort(ScalingMax(ids[k]), clamped * 1000);
        }
      }
      assert ids[..|ids|] == ids;
    }

    method SetOnlineCores(count: nat)
      requires Valid()
      modifies root
      ensures root.nodes == AfterOnlineCores(old(root.nodes), CpuIds(), count)
    {
      var ids := CpuIds();
      var n := Clamp(count, 1, |ids|);
      ghost var s := root.nodes;
      assert root.nodes == OnlineUpTo(s, ids, n, 1);
      for k := 1 to |ids|
        invariant root.nodes == OnlineUpTo(s, ids, n, k)
      {
        OnlineStep(s, ids, n, k);
        root.WriteBestEffort(CpuOnline(ids[k]), if k < n then 1 else 0);
      }
      OnlineComplete(s, ids, n);
      var mhz := FreqLimitOf(root.nodes);
      if mhz > 0 {
        SetFreqLimit(mhz);
      }
    }

    method SetTurboEnabled(enabled: bool)
      modifies root
      ensures root.nodes == AfterTurbo(old(root.nodes), enabled)
    {
      if NoTurbo in root.nodes {
        root.WriteBestEffort(NoTurbo, if enabled then 0 else 1);
      } else if Boost in root.nodes {
        root.WriteBestEffort(Boost, if enabled then 1 else 0);
      }
    }
  }

  /** In an ascending list, the CPU at index `k` is in the prefix exactly when `k < n`. */
  lemma IndexDecides(ids: seq<nat>, n: nat, k: nat)
    requires Increasing(ids) && 1 <= k < |ids| && 1 <= n <= |ids|
    ensures ids[k] in ids[1..n] <==> k < n
  {
    if k < n {
      assert ids[1..n][k - 1] == ids[k];
    } else {
      forall i | 1 <= i < n ensures ids[i] != ids[k] {}
    }
  }

  lemma FreqWindowStep(s: Store, cpus: set<nat>, id: nat, lo: nat, limit: nat)
    ensures var before := WithFreqWindow(s, cpus, lo, limit);
            var after := WithFreqWindow(s, cpus + {id}, lo, limit);
            after == if CpufreqDir(id) in before
                     then Put(Put(before, ScalingMin(id), lo * 1000), ScalingMax(id), limit * 1000)
                     else before
  {
    var before := WithFreqWindow(s, cpus, lo, limit);
    var after := WithFreqWindow(s, cpus + {id}, lo, limit);
    if CpufreqDir(id) in s {
      assert after == Put(Put(before, ScalingMin(id), lo * 1000), ScalingMax(id), limit * 1000);
    } else {
      assert after == before;
    }
  }

  /** The hotplug loop after the first `k` CPUs. */
  function OnlineUpTo(s: Store, ids: seq<nat>, n: nat, k: nat): Store
    requires 1 <= n <= |ids| && 1 <= k <= |ids|
  {
    map node | node in s ::
      if node.CpuOnline? && node.cpu in ids[1..k] then Num(if node.cpu in ids[1..n] then 1 else 0)
      else s[node]
  }

  lemma OnlineStep(s: Store, ids: seq<nat>, n: nat, k: nat)
    requires Increasing(ids) && 1 <= n <= |ids| && 1 <= k < |ids|
    ensures OnlineUpTo(s, ids, n, k + 1)
         == Put(OnlineUpTo(s, ids, n, k), CpuOnline(ids[k]), if k < n then 1 else 0)
  {
    IndexDecides(ids, n, k);
    assert ids[1..k + 1] == ids[1..k] + [ids[k]];
  }

  lemma OnlineComplete(s: Store, ids: seq<nat>, n: nat)
    requires Increasing(ids) && 1 <= n <= |ids|
    ensures OnlineUpTo(s, ids, n, |ids|) == WithOnlinePrefix(s, ids, n)
  {
    assert ids[1..|ids|] == ids[1..n] + ids[n..];
  }

  // ---------------------------------------------------------------------
  // Properties
  // ---------------------------------------------------------------------

  /** Discovery reads only nodes the tool never writes. */
  lemma {:induction false} EnvelopeIsHardware(s: Store, t: Store, ids: seq<nat>)
    requires SameHardware(s, t)
    ensures Envelope(s, ids) == Envelope(t, ids)
  {
    if ids != [] {
      EnvelopeIsHardware(s, t, ids[..|ids| - 1]);
      var id := ids[|ids| - 1];
      assert !CpuinfoMin(id).Mutable() && !CpuinfoMax(id).Mutable();
    }
  }

  lemma BoundsAreHardware(s: Store, t: Store, ids: seq<nat>)
    requires SameHardware(s, t)
    ensures Bounds(s, ids) == Bounds(t, ids)
  {
    EnvelopeIsHardware(s, t, ids);
  }

  /**
   The discovered MHz range against the kHz the hardware declares: the ceiling never
   exceeds the largest `cpuinfo_max_freq`, and the floor is at most the smallest
   `cpuinfo_min_freq` and less than 1 MHz below it. The range covers the whole
   machine, not each core.
   */
  lemma BoundsAgainstCpuinfo(s: Store, ids: seq<nat>)
    requires Bounds(s, ids).Some?
    requires forall i :: 0 <= i < |ids| && Exposes(s, ids[i]) ==>
               ReadI64(s, CpuinfoMax(ids[i])).value < 1000 * TWO_32
    ensures var b := Bounds(s, ids).value;
            exists lo, hi :: IsEnvelope(s, ids, lo, hi)
              && b.lo * 1000 <= lo < b.lo * 1000 + 1000
              && b.hi * 1000 <= hi < b.hi * 1000 + 1000
  {
    EnvelopeIsTight(s, ids);
    var lo, hi := Envelope(s, ids).value.0, Envelope(s, ids).value.1;
    assert IsEnvelope(s, ids, lo, hi);
    var j :| 0 <= j < |ids| && Exposes(s, ids[j]) && ReadI64(s, CpuinfoMax(ids[j])) == Some(hi);
    assert lo / 1000 < TWO_32 && hi / 1000 < TWO_32;
  }

  lemma FreqLimitIsBounded(s: Store, ids: seq<nat>, mhz: int, node: Node)
    requires node in s
    ensures node in AfterFreqLimit(s, ids, mhz)
    ensures var t := AfterFreqLimit(s, ids, mhz);
            t[node] == s[node]
            || ((node.ScalingMin? || node.ScalingMax?) && node.cpu in ids && Bounds(s, ids).Some? && t[node].Num?
                && Bounds(s, ids).value.lo * 1000 <= t[node].n <= Bounds(s, ids).value.hi * 1000)
  {
  }

  /** After a hotplug request the online CPUs are exactly the switchable ones of the prefix. */
  lemma OnlineSetIsAPrefix(s: Store, ids: seq<nat>, count: int, i: nat)
    requires Increasing(ids) && 1 <= i < |ids|
    ensures IsOnline(AfterOnlineCores(s, ids, count), ids[i])
       <==> i < Clamp(count, 1, |ids|) && CpuOnline(ids[i]) in s
  {
    var n := Clamp(count, 1, |ids|);
    IndexDecides(ids, n, i);
    if i >= n {
      assert ids[n..][i - n] == ids[i];
    }
  }

  /** The integers from `lo` up to but not including `hi`. */
  function Interval(lo: int, hi: int): (r: set<int>)
    requires lo <= hi
    ensures forall i :: i in r <==> lo <= i < hi
    ensures |r| == hi - lo
    decreases hi - lo
  {
    if lo == hi then {} else Interval(lo, hi - 1) + {hi - 1}
  }

  lemma SubsetSize(a: set<int>, b: set<int>)
    requires a <= b
    ensures |a| <= |b| && (|a| == |b| ==> a == b)
  {
    assert b == a + (b - a) && |b| == |a| + |b - a|;
    if |a| == |b| {
      assert b - a == {};
    }
  }

  /** The switchable CPUs of the prefix `1..n`. */
  ghost function Switchable(s: Store, ids: seq<nat>, n: nat): set<int>
    requires 1 <= n <= |ids|
  {
    set i | i in Interval(1, n) && CpuOnline(ids[i]) in s
  }

  lemma OnlineCountAfterHotplug(s: Store, ids: seq<nat>, count: int)
    requires Increasing(ids) && ids != []
    ensures OnlineCount(AfterOnlineCores(s, ids, count), ids)
         == 1 + |Switchable(s, ids, Clamp(count, 1, |ids|))|
  {
    var t := AfterOnlineCores(s, ids, count);
    forall i: int | 1 <= i < |ids|
      ensures IsOnline(t, ids[i]) <==> i < Clamp(count, 1, |ids|) && CpuOnline(ids[i]) in s
    {
      OnlineSetIsAPrefix(s, ids, count, i);
    }
    assert (set i | 1 <= i < |ids| && IsOnline(t, ids[i])) == Switchable(s, ids, Clamp(count, 1, |ids|));
  }

  /**
   Hotplug round trip: reading the count back gives the clamped request exactly when
   every CPU of the requested prefix, after the first, has an `online` node.
   */
  lemma HotplugRoundTrip(s: Store, ids: seq<nat>, count: int)
    requires Increasing(ids) && ids != []
    ensures var n := Clamp(count, 1, |ids|);
            OnlineCount(AfterOnlineCores(s, ids, count), ids) == n
            <==> forall i :: 1 <= i < n ==> CpuOnline(ids[i]) in s
  {
    var n := Clamp(count, 1, |ids|);
    OnlineCountAfterHotplug(s, ids, count);
    SubsetSize(Switchable(s, ids, n), Interval(1, n));
    if Switchable(s, ids, n) == Interval(1, n) {
      forall i: int | 1 <= i < n ensures CpuOnline(ids[i]) in s {
        assert i in Interval(1, n);
      }
    }
    if forall i :: 1 <= i < n ==> CpuOnline(ids[i]) in s {
      assert Switchable(s, ids, n) == Interval(1, n);
    }
  }

  /** The first CPU's limit node holds `khz`, or nothing that can be read and `khz` is 0. */
  predicate FirstLimitIs(s: Store, khz: int) {
    if ScalingMax(0) in s && s[ScalingMax(0)].Num? && s[ScalingMax(0)].n < 0x8000_0000_0000_0000
    then khz == s[ScalingMax(0)].n
    else khz == 0
  }

  /** The limit of the first CPU in MHz: whole, cut to 32 bits, and 0 when negative or unreadable. */
  lemma LimitOfFirstCpu(s: Store, khz: int)
    requires FirstLimitIs(s, khz)
    ensures FreqLimitOf(s) == if khz >= 0 then khz / 1000 % 0x1_0000_0000 else 0
  {
  }

  /** Switching cores leaves the first CPU's limit and the discovered range alone. */
  lemma HotplugKeepsLimitAndRange(s: Store, ids: seq<nat>, n: nat)
    requires 1 <= n <= |ids|
    ensures var t := WithOnlinePrefix(s, ids, n);
            FreqLimitOf(t) == FreqLimitOf(s) && Bounds(t, ids) == Bounds(s, ids)
  {
    var t := WithOnlinePrefix(s, ids, n);
    assert SameHardware(s, t);
    BoundsAreHardware(s, t, ids);
  }

  /**
   Newly onlined cores inherit the limit: when the first CPU's `scaling_max_freq` holds at
   least 1000 kHz, every CPU with a cpufreq directory ends between the discovered floor and
   that limit, in whole MHz, moved into the discovered range.
   */
  lemma HotplugReappliesTheLimit(s: Store, ids: seq<nat>, count: int, khz: int, id: nat)
    requires ids != [] && id in ids && CpufreqDir(id) in s && Bounds(s, ids).Some?
    requires ScalingMax(0) in s && s[ScalingMax(0)] == Num(khz) && 1000 <= khz < 1000 * 0x1_0000_0000
    ensures var t := AfterOnlineCores(s, ids, count);
            var b := Bounds(s, ids).value;
            var mhz := khz / 1000;
            && (ScalingMin(id) in s ==> t[ScalingMin(id)] == Num(b.lo * 1000))
            && (ScalingMax(id) in s ==>
                  t[ScalingMax(id)] == Num((if mhz < b.lo then b.lo else if mhz > b.hi then b.hi else mhz) * 1000))
  {
    LimitOfFirstCpu(s, khz);
    HotplugKeepsLimitAndRange(s, ids, Clamp(count, 1, |ids|));
  }

  /** Without such a limit, or without a discovered range, a hotplug request changes no frequency window. */
  lemma HotplugLeavesTheWindows(s: Store, ids: seq<nat>, count: int, node: Node)
    requires ids != [] && node in s && (node.ScalingMin? || node.ScalingMax?)
    requires Bounds(s, ids).None? || ScalingMax(0) !in s || s[ScalingMax(0)].Text? || s[ScalingMax(0)].n < 1000
    ensures node in AfterOnlineCores(s, ids, count) && AfterOnlineCores(s, ids, count)[node] == s[node]
  {
    HotplugKeepsLimitAndRange(s, ids, Clamp(count, 1, |ids|));
  }

  // ---------------------------------------------------------------------
  // From the declared nodes
  // ---------------------------------------------------------------------

  /** CPU `id` declares the immutable range `lo..hi` kHz, and it is usable. */
  predicate Declares(s: Store, id: nat, lo: int, hi: int) {
    && CpuinfoMin(id) in s && s[CpuinfoMin(id)] == Num(lo)
    && CpuinfoMax(id) in s && s[CpuinfoMax(id)] == Num(hi)
    && 0 < lo <= hi < 0x8000_0000_0000_0000
  }

  /** `lo` is the least declared floor and `hi` the greatest declared ceiling. */
  ghost predicate DeclaredEnds(s: Store, ids: seq<nat>, lo: int, hi: int) {
    && (exists i, h :: 0 <= i < |ids| && Declares(s, ids[i], lo, h))
    && (exists i, l :: 0 <= i < |ids| && Declares(s, ids[i], l, hi))
    && (forall i, l, h :: 0 <= i < |ids| && Declares(s, ids[i], l, h) ==> lo <= l && h <= hi)
  }

  lemma ExposesWhatItDeclares(s: Store, id: nat)
    ensures Exposes(s, id) ==> Declares(s, id, ReadI64(s, CpuinfoMin(id)).value, ReadI64(s, CpuinfoMax(id)).value)
    ensures forall lo, hi :: Declares(s, id, lo, hi) ==>
              Exposes(s, id) && ReadI64(s, CpuinfoMin(id)) == Some(lo) && ReadI64(s, CpuinfoMax(id)) == Some(hi)
  {
  }

  lemma DeclaredEndsAreEnvelope(s: Store, ids: seq<nat>, lo: int, hi: int)
    requires DeclaredEnds(s, ids, lo, hi)
    ensures IsEnvelope(s, ids, lo, hi)
  {
    forall i | 0 <= i < |ids| && Exposes(s, ids[i])
      ensures lo <= ReadI64(s, CpuinfoMin(ids[i])).value && ReadI64(s, CpuinfoMax(ids[i])).value <= hi
    {
      ExposesWhatItDeclares(s, ids[i]);
    }
    var i, h :| 0 <= i < |ids| && Declares(s, ids[i], lo, h);
    var j, l :| 0 <= j < |ids| && Declares(s, ids[j], l, hi);
    ExposesWhatItDeclares(s, ids[i]);
    ExposesWhatItDeclares(s, ids[j]);
  }

  lemma EnvelopeIsUnique(s: Store, ids: seq<nat>, lo: int, hi: int, l: int, h: int)
    requires IsEnvelope(s, ids, lo, hi) && IsEnvelope(s, ids, l, h)
    ensures lo == l && hi == h
  {
  }

  lemma EnvelopeOfDeclared(s: Store, ids: seq<nat>, lo: int, hi: int)
    requires DeclaredEnds(s, ids, lo, hi)
    ensures Envelope(s, ids) == Some((lo, hi))
  {
    DeclaredEndsAreEnvelope(s, ids, lo, hi);
    EnvelopeIsTight(s, ids);
    EnvelopeIsUnique(s, ids, lo, hi, Envelope(s, ids).value.0, Envelope(s, ids).value.1);
  }

  /** The discovered range from the declared ends: both in whole MHz and 32 bits, none when they meet. */
  lemma BoundsOfDeclared(s: Store, ids: seq<nat>, lo: int, hi: int)
    requires DeclaredEnds(s, ids, lo, hi)
    ensures var a, b := lo / 1000 % 0x1_0000_0000, hi / 1000 % 0x1_0000_0000;
            Bounds(s, ids) == if b <= a then None else Some(Range(a, b))
  {
    EnvelopeOfDeclared(s, ids, lo, hi);
  }

  lemma NothingDeclaredNothingFound(s: Store, ids: seq<nat>)
    requires forall i, lo, hi :: 0 <= i < |ids| ==> !Declares(s, ids[i], lo, hi)
    ensures Bounds(s, ids) == None
  {
    EnvelopeIsTight(s, ids);
    forall i | 0 <= i < |ids| ensures !Exposes(s, ids[i]) {
      ExposesWhatItDeclares(s, ids[i]);
    }
  }

  /**
   A frequency request from the declared ends: every listed CPU with a cpufreq directory ends
   at the floor and at the request, moved to the nearer end when outside, in whole MHz; when
   the ends meet nothing changes.
   */
  lemma FreqLimitFromDeclared(s: Store, ids: seq<nat>, mhz: int, lo: int, hi: int, id: nat)
    requires DeclaredEnds(s, ids, lo, hi) && id in ids && CpufreqDir(id) in s
    ensures var a, b := lo / 1000 % 0x1_0000_0000, hi / 1000 % 0x1_0000_0000;
            var t := AfterFreqLimit(s, ids, mhz);
            if b <= a then t == s
            else
              && (ScalingMin(id) in s ==> t[ScalingMin(id)] == Num(a * 1000))
              && (ScalingMax(id) in s ==>
                    t[ScalingMax(id)] == Num((if mhz < a then a else if mhz > b then b else mhz) * 1000))
  {
    BoundsOfDeclared(s, ids, lo, hi);
  }

  /** Turbo reads back as set on every machine that exposes a turbo knob. */
  lemma TurboRoundTrip(s: Store, enabled: bool)
    ensures TurboEnabledIn(AfterTurbo(s, enabled)) == enabled <==> enabled || NoTurbo in s || Boost in s
  {
  }
}
