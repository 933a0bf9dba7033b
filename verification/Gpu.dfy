/** Integrated GPU frequency: immutable range, ordered minimum-then-maximum writes. */
module Gpu {
  import opened Prelude
  import opened Sysfs
  import opened Cpu

  /** Display-only fallback bounds, never used for a write. */
  const FALLBACK_MIN_MHZ := 300
  const FALLBACK_MAX_MHZ := 1100

  /** The range every GPU write is gated on; `gt_min`/`gt_max` play no part in it. */
  function GpuRange(s: Store): (r: Option<Range>)
    ensures r.Some? ==> r.value.lo < r.value.hi < TWO_32
  {
    var lo := ReadU32(s, GtRpn);
    var hi := ReadU32(s, GtRp0);
    if lo.None? || hi.None? || hi.value <= lo.value then None else Some(Range(lo.value, hi.value))
  }

  function OrElse(a: Option<nat>, b: Option<nat>): Option<nat> {
    if a.Some? then a else b
  }

  function GetOr(a: Option<nat>, d: nat): nat {
    if a.Some? then a.value else d
  }

  /** The display bounds, which may read the mutable nodes. */
  function DisplayRange(s: Store): Range {
    Range(GetOr(OrElse(ReadU32(s, GtRpn), ReadU32(s, GtMin)), FALLBACK_MIN_MHZ),
          GetOr(OrElse(ReadU32(s, GtRp0), ReadU32(s, GtMax)), FALLBACK_MAX_MHZ))
  }

  function GpuFreq(s: Store): nat {
    GetOr(ReadU32(s, GtMax), 0)
  }

  function AfterGpuFreq(s: Store, mhz: int): Store {
    match GpuRange(s)
    case None => s
    case Some(b) => Put(Put(s, GtMin, b.lo), GtMax, Clamp(mhz, b.lo, b.hi))
  }

  class GpuController {
    const root: SysfsRoot

    constructor (root: SysfsRoot)
      ensures this.root == root
    {
      this.root := root;
    }

    method SetGpuFreq(mhz: nat)
      modifies root
      ensures root.nodes == AfterGpuFreq(old(root.nodes), mhz)
    {
      var range := GpuRange(root.nodes);
      if range.None? {
        return;
      }
      var target := Clamp(mhz, range.value.lo, range.value.hi);
      root.WriteBestEffort(GtMin, range.value.lo);
      root.WriteBestEffort(GtMax, target);
    }
  }

  lemma GpuRangeIsHardware(s: Store, t: Store)
    requires SameHardware(s, t)
    ensures GpuRange(s) == GpuRange(t)
  {
    assert !GtRpn.Mutable() && !GtRp0.Mutable();
  }

  /** The window of the card is in order: minimum at most maximum. */
  predicate WindowInOrder(s: Store) {
    var lo := ReadU32(s, GtMin);
    var hi := ReadU32(s, GtMax);
    lo.Some? && hi.Some? ==> lo.value <= hi.value
  }

  /**
   Minimum first: between the two writes the window is in order exactly when the card has no
   minimum node, no readable maximum, or one that is not below the discovered floor. After
   both it is in order, and a readable maximum is the clamped request, whatever was there.
   */
  lemma MinimumFirstKeepsTheWindow(s: Store, mhz: int)
    requires GpuRange(s).Some?
    ensures var b := GpuRange(s).value;
            var hi := ReadU32(s, GtMax);
            WindowInOrder(Put(s, GtMin, b.lo)) <==> GtMin !in s || hi.None? || b.lo <= hi.value
    ensures WindowInOrder(AfterGpuFreq(s, mhz))
    ensures GtMax in s ==> GpuFreq(AfterGpuFreq(s, mhz)) == Clamp(mhz, GpuRange(s).value.lo, GpuRange(s).value.hi)
  {
  }

  /**
   Maximum first would be in order between the writes exactly when the old minimum is not
   above the new maximum: lowering the maximum under a raised minimum breaks it.
   */
  lemma MaximumFirstBreaksTheWindow(s: Store, mhz: int)
    requires GpuRange(s).Some?
    ensures var target := Clamp(mhz, GpuRange(s).value.lo, GpuRange(s).value.hi);
            var lo := ReadU32(s, GtMin);
            WindowInOrder(Put(s, GtMax, target)) <==> GtMax !in s || lo.None? || lo.value <= target
  {
  }

  /** The node holds the number `n`, and it fits an unsigned 32-bit read. */
  predicate Holds32(s: Store, node: Node, n: int) {
    node in s && s[node] == Num(n) && 0 <= n < 0x1_0000_0000
  }

  /**
   A request from what the card declares: with a floor below a ceiling the minimum node ends
   at the floor and the maximum node at the request, moved to the nearer end when outside;
   with equal or inverted ends nothing changes.
   */
  lemma GpuFreqFromDeclared(s: Store, mhz: int, lo: int, hi: int)
    requires Holds32(s, GtRpn, lo) && Holds32(s, GtRp0, hi)
    ensures var t := AfterGpuFreq(s, mhz);
            if hi <= lo then t == s
            else
              && (GtMin in s ==> t[GtMin] == Num(lo))
              && (GtMax in s ==> t[GtMax] == Num(if mhz < lo then lo else if mhz > hi then hi else mhz))
              && t == s + (map node | node in s && (node.GtMin? || node.GtMax?) :: t[node])
  {
  }

  lemma NoEndsNoGpuWrite(s: Store, mhz: int)
    requires (forall n :: !Holds32(s, GtRpn, n)) || (forall n :: !Holds32(s, GtRp0, n))
    ensures AfterGpuFreq(s, mhz) == s
  {
    var lo, hi := ReadU32(s, GtRpn), ReadU32(s, GtRp0);
    if lo.Some? && hi.Some? {
      assert Holds32(s, GtRpn, lo.value) && Holds32(s, GtRp0, hi.value);
    }
  }
}
