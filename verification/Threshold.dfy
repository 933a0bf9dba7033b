/**
 Battery charge ceiling: one start/end window per battery, behind firmware that may
 refuse a write, move a value, or insist that the start stays below the end.
 */
module Threshold {
  import opened Prelude

  /** How the firmware of one battery answers writes. */
  datatype Firmware = Firmware(
    endWritable: bool,
    startWritable: bool,
    modeWritable: bool,
    /** Rejects a write after which the start would not be below the end. */
    guards: bool,
    /** What the end node reads after accepting a value, given the current start. */
    lands: (nat, Option<nat>) -> Option<nat>,
    /** What the start node reads after accepting a value, given the current end. */
    startLands: (nat, Option<nat>) -> Option<nat>)

  /**
   One battery's nodes. `end` is what its end node reads (`None`: unreadable or not a
   number); `start` is absent when there is no start node or it does not read as a number;
   `custom` is absent without a charge-mode selector and otherwise tells whether the
   selected mode is `Custom`, the only one in which firmware honours user thresholds.
   */
  datatype Battery = Battery(end: Option<nat>, start: Option<nat>, custom: Option<bool>, fw: Firmware)

  datatype Write = ModeWrite | StartWrite(value: nat) | EndWrite(value: nat)

  // ---------------------------------------------------------------------
  // The hardware
  // ---------------------------------------------------------------------

  /** The firmware rejects the write because it would break start < end. */
  predicate Breaks(b: Battery, w: Write) {
    b.fw.guards
    && match w
       case ModeWrite => false
       case StartWrite(v) => b.end.Some? && v >= b.end.value
       case EndWrite(v) => b.start.Some? && v <= b.start.value
  }

  predicate Accepts(b: Battery, w: Write) {
    !Breaks(b, w)
    && match w
       case ModeWrite => b.fw.modeWritable
       case StartWrite(_) => b.fw.startWritable
       case EndWrite(_) => b.fw.endWritable
  }

  /** The battery after a write was delivered to it; a refused write changes nothing. */
  function Deliver(b: Battery, w: Write): Battery {
    if !Accepts(b, w) then b
    else match w
      case ModeWrite => b.(custom := if b.custom.Some? then Some(true) else None)
      case StartWrite(v) => b.(start := b.fw.startLands(v, b.end))
      case EndWrite(v) => b.(end := b.fw.lands(v, b.start))
  }

  // ---------------------------------------------------------------------
  // The controller
  // ---------------------------------------------------------------------

  /** Where a blocking start threshold is moved to. */
  function LoweredStart(value: nat): nat {
    Max(SatSub(value, 5), 1)
  }

  predicate StartBlocks(b: Battery, value: nat) {
    b.start.Some? && b.start.value >= value
  }

  predicate NeedsCustom(b: Battery) {
    b.custom.Some? && !b.custom.value
  }

  /** First the charge mode, where one has to be chosen. */
  function AfterMode(b: Battery): (r: Battery)
    ensures r == b.(custom := r.custom)
  {
    if NeedsCustom(b) then Deliver(b, ModeWrite) else b
  }

  /** Then the start, when it is in the way: the battery as the end write finds it. */
  function BeforeEndWrite(b: Battery, value: nat): (r: Battery)
    ensures r.end == b.end && r.fw == b.fw
  {
    if StartBlocks(b, value) then Deliver(AfterMode(b), StartWrite(LoweredStart(value))) else AfterMode(b)
  }

  function AfterNode(b: Battery, value: nat): (r: Battery)
    ensures r.fw == b.fw
  {
    Deliver(BeforeEndWrite(b, value), EndWrite(value))
  }

  /** The end write went through and the node reads it back. */
  predicate NodeOk(b: Battery, value: nat) {
    Accepts(BeforeEndWrite(b, value), EndWrite(value)) && AfterNode(b, value).end == Some(value)
  }

  function AfterNodes(batteries: seq<Battery>, value: nat): (r: seq<Battery>)
    ensures |r| == |batteries|
    ensures forall i :: 0 <= i < |batteries| ==> r[i] == AfterNode(batteries[i], value)
  {
    seq(|batteries|, i requires 0 <= i < |batteries| => AfterNode(batteries[i], value))
  }

  function Accepted(threshold: nat): (v: nat)
    ensures 20 <= v <= 100
    ensures 20 <= threshold <= 100 ==> v == threshold
    ensures threshold < 20 ==> v == 20
    ensures threshold > 100 ==> v == 100
  {
    Clamp(threshold, 20, 100)
  }

  /** The first readable end, as a percentage in 1..100. */
  function ThresholdOf(batteries: seq<Battery>): Option<nat> {
    if batteries == [] then None
    else if batteries[0].end.Some? then Some(Clamp(batteries[0].end.value, 1, 100))
    else ThresholdOf(batteries[1..])
  }

  /** There is a reading exactly when some end can be read, and it is that of the first such battery. */
  lemma {:induction false} ReadingIsTheFirst(batteries: seq<Battery>)
    ensures ThresholdOf(batteries) == None <==> forall i :: 0 <= i < |batteries| ==> batteries[i].end == None
    ensures forall k :: 0 <= k < |batteries| && batteries[k].end.Some?
                        && (forall i :: 0 <= i < k ==> batteries[i].end == None) ==>
              ThresholdOf(batteries) == Some(Clamp(batteries[k].end.value, 1, 100))
  {
    if batteries != [] {
      assert forall i :: 0 <= i < |batteries| - 1 ==> batteries[1..][i] == batteries[i + 1];
      ReadingIsTheFirst(batteries[1..]);
      if batteries[0].end == None {
        forall k | 0 <= k < |batteries| && batteries[k].end.Some?
                   && (forall i :: 0 <= i < k ==> batteries[i].end == None)
          ensures ThresholdOf(batteries) == Some(Clamp(batteries[k].end.value, 1, 100))
        {
          assert batteries[1..][k - 1] == batteries[k];
        }
      }
    }
  }

  predicate SetSucceeds(batteries: seq<Battery>, threshold: nat) {
    exists i :: 0 <= i < |batteries| && NodeOk(batteries[i], Accepted(threshold))
  }

  class ChargeThreshold {
    /** Every threshold-capable battery found right now. */
    var batteries: seq<Battery>

    constructor (batteries: seq<Battery>)
      ensures this.batteries == batteries
    {
      this.batteries := batteries;
    }

    method SupportsThreshold() returns (r: bool)
      ensures r <==> batteries != []
    {
      r := |batteries| > 0;
    }

    method Threshold() returns (r: Option<nat>)
      ensures r == ThresholdOf(batteries)
    {
      for i := 0 to |batteries|
        invariant ThresholdOf(batteries) == ThresholdOf(batteries[i..])
      {
        assert batteries[i..][1..] == batteries[i + 1..];
        if batteries[i].end.Some? {
          return Some(Clamp(batteries[i].end.value, 1, 100));
        }
      }
      return None;
    }

    /** Writes one node and reads it back. */
    static method WriteNode(node: Battery, value: nat) returns (after: Battery, ok: bool)
      ensures after == AfterNode(node, value)
      ensures ok <==> NodeOk(node, value)
    {
      after := node;
      if node.custom.Some? && !node.custom.value {
        after := Deliver(after, ModeWrite);
      }
      if after.start.Some? && after.start.value >= value {
        after := Deliver(after, StartWrite(LoweredStart(value)));
      }
      if !Accepts(after, EndWrite(value)) {
        return after, false;
      }
      after := Deliver(after, EndWrite(value));
      ok := after.end.Some? && after.end.value == value;
    }

    /** Clamps the request, writes every node, succeeds when at least one node took it. */
    method SetThreshold(threshold: nat) returns (ok: bool)
      modifies this
      ensures batteries == AfterNodes(old(batteries), Accepted(threshold))
      ensures ok <==> SetSucceeds(old(batteries), threshold)
    {
      if |batteries| == 0 {
        assert AfterNodes(batteries, Accepted(threshold)) == batteries;
        return false;
      }
      var clamped := Clamp(threshold, 20, 100);
      var applied := 0;
      ghost var before := batteries;
      for i := 0 to |batteries|
        invariant |batteries| == |before|
        invariant forall j :: 0 <= j < |before| ==>
          batteries[j] == if j < i then AfterNode(before[j], clamped) else before[j]
        invariant applied >= 0
        invariant applied > 0 <==> exists j :: 0 <= j < i && NodeOk(before[j], clamped)
      {
        var after, nodeOk := WriteNode(batteries[i], clamped);
        batteries := batteries[i := after];
        if nodeOk {
          applied := applied + 1;
        }
      }
      ok := applied > 0;
    }
  }

  // ---------------------------------------------------------------------
  // Ordering
  // ---------------------------------------------------------------------

  predicate Ordered(b: Battery) {
    b.start.Some? && b.end.Some? ==> b.start.value < b.end.value
  }

  /** Firmware that guards the order, and whose own adjustments respect it. */
  ghost predicate Guarded(fw: Firmware) {
    && fw.guards
    && (forall v: nat, s: nat :: v > s && fw.lands(v, Some(s)).Some? ==> fw.lands(v, Some(s)).value > s)
    && (forall v: nat, e: nat :: v < e && fw.startLands(v, Some(e)).Some? ==> fw.startLands(v, Some(e)).value < e)
  }

  /** Where firmware puts a lowered start is below the request, or unreadable. */
  predicate LandsBelow(b: Battery, value: nat) {
    var s := b.fw.startLands(LoweredStart(value), b.end);
    s.None? || s.value < value
  }

  /**
   With order-guarding firmware and a window in order, the end write is rejected for the
   order exactly when the start blocks it and cannot be moved, or firmware puts it no lower
   than the request; the lowered start itself is never rejected for the order; and the
   window is in order after every write.
   */
  lemma OrderIsNeverBroken(b: Battery, value: nat)
    requires Guarded(b.fw) && Ordered(b) && 20 <= value <= 100
    ensures var b1 := AfterMode(b);
            && Ordered(b1)
            && (StartBlocks(b, value) ==> !Breaks(b1, StartWrite(LoweredStart(value))))
    ensures Ordered(BeforeEndWrite(b, value)) && Ordered(AfterNode(b, value))
    ensures Breaks(BeforeEndWrite(b, value), EndWrite(value))
            <==> StartBlocks(b, value) && !(b.fw.startWritable && LandsBelow(b, value))
  {
  }

  /** What happens to the batteries over time: calls, and anything firmware or the user does. */
  datatype Event = Set(threshold: nat) | Outside(now: seq<Battery>)

  function WindowsAfter(batteries: seq<Battery>, run: seq<Event>): seq<Battery> {
    if run == [] then batteries
    else
      var before := WindowsAfter(batteries, run[..|run| - 1]);
      match run[|run| - 1]
      case Set(threshold) => AfterNodes(before, Accepted(threshold))
      case Outside(now) => now
  }

  ghost predicate AllInOrder(batteries: seq<Battery>) {
    forall i :: 0 <= i < |batteries| ==> Guarded(batteries[i].fw) && Ordered(batteries[i])
  }

  /** Over any run in which the outside keeps the windows in order, so do all calls together. */
  lemma {:induction false} WindowsStayOrdered(batteries: seq<Battery>, run: seq<Event>)
    requires AllInOrder(batteries)
    requires forall k :: 0 <= k < |run| && run[k].Outside? ==> AllInOrder(run[k].now)
    ensures AllInOrder(WindowsAfter(batteries, run))
  {
    if run != [] {
      var front := run[..|run| - 1];
      assert forall k :: 0 <= k < |front| ==> front[k] == run[k];
      WindowsStayOrdered(batteries, front);
      var e := run[|run| - 1];
      var before := WindowsAfter(batteries, front);
      if e.Set? {
        forall i | 0 <= i < |before|
          ensures Ordered(AfterNode(before[i], Accepted(e.threshold)))
        {
          OrderIsNeverBroken(before[i], Accepted(e.threshold));
        }
      }
    }
  }

  /** The start is touched only when it blocks, and then it lands where firmware puts five below the request. */
  lemma StartMovesOnlyWhenBlocking(b: Battery, value: nat)
    requires 20 <= value <= 100
    ensures AfterNode(b, value).start != b.start ==>
              StartBlocks(b, value) && AfterNode(b, value).start == b.fw.startLands(value - 5, b.end)
  {
  }

  /** A selector that can be switched is on `Custom` afterwards; without one nothing is written there. */
  lemma CustomModeIsSelected(b: Battery, value: nat)
    ensures b.custom.Some? && (b.custom.value || b.fw.modeWritable) ==> AfterNode(b, value).custom == Some(true)
    ensures b.custom.None? ==> AfterNode(b, value).custom == None
  {
  }

  // ---------------------------------------------------------------------
  // When a call succeeds
  // ---------------------------------------------------------------------

  /** The lowered start is accepted. */
  predicate TakesLoweredStart(b: Battery, value: nat) {
    b.fw.startWritable && !(b.fw.guards && b.end.Some? && LoweredStart(value) >= b.end.value)
  }

  /** The end is writable and no start that firmware insists on stands in the way. */
  predicate CanTake(b: Battery, value: nat) {
    b.fw.endWritable
    && (b.fw.guards && StartBlocks(b, value) ==> TakesLoweredStart(b, value) && LandsBelow(b, value))
  }

  /** The start that the end write meets. */
  function StartMet(b: Battery, value: nat): Option<nat> {
    if StartBlocks(b, value) && TakesLoweredStart(b, value) then b.fw.startLands(LoweredStart(value), b.end)
    else b.start
  }

  /** The node can take `value`, and firmware lands it at face value. */
  predicate Takes(b: Battery, value: nat) {
    CanTake(b, value) && b.fw.lands(value, StartMet(b, value)) == Some(value)
  }

  /** What a call leaves, in terms of the battery before it. */
  lemma WindowAfterNode(b: Battery, value: nat)
    requires 20 <= value <= 100
    ensures Accepts(BeforeEndWrite(b, value), EndWrite(value)) <==> CanTake(b, value)
    ensures AfterNode(b, value).start == StartMet(b, value)
    ensures AfterNode(b, value).end == if CanTake(b, value) then b.fw.lands(value, StartMet(b, value)) else b.end
  {
    var b1 := AfterMode(b);
    assert b1.start == b.start && b1.end == b.end && b1.fw == b.fw;
    assert Accepts(b1, StartWrite(LoweredStart(value))) <==> TakesLoweredStart(b, value);
    assert BeforeEndWrite(b, value).start == StartMet(b, value);
  }

  lemma NodeOkExactly(b: Battery, value: nat)
    requires 20 <= value <= 100
    ensures NodeOk(b, value) <==> Takes(b, value)
  {
    WindowAfterNode(b, value);
  }

  /** The call succeeds exactly when some node takes the clamped value, whatever every other node does. */
  lemma SetSucceedsExactly(batteries: seq<Battery>, threshold: nat)
    ensures SetSucceeds(batteries, threshold)
            <==> exists i :: 0 <= i < |batteries| && Takes(batteries[i], Accepted(threshold))
  {
    var value := Accepted(threshold);
    forall i | 0 <= i < |batteries|
      ensures NodeOk(batteries[i], value) <==> Takes(batteries[i], value)
    {
      NodeOkExactly(batteries[i], value);
    }
  }

  /** Some node reads back the value. */
  predicate SomeReadsBack(batteries: seq<Battery>, value: nat) {
    exists i :: 0 <= i < |batteries| && batteries[i].end == Some(value)
  }

  /**
   "Ok means that some node reads the value back": success always implies it. The converse
   holds exactly when some node takes the value, or no node that cannot take it stands at it
   already.
   */
  lemma ReadBackMeansOkExactly(batteries: seq<Battery>, threshold: nat)
    ensures var value := Accepted(threshold);
            var after := AfterNodes(batteries, value);
            && (SetSucceeds(batteries, threshold) ==> SomeReadsBack(after, value))
            && ((SetSucceeds(batteries, threshold) <==> SomeReadsBack(after, value))
                <==> (exists i :: 0 <= i < |batteries| && Takes(batteries[i], value))
                     || forall i :: 0 <= i < |batteries| && !CanTake(batteries[i], value) ==>
                          batteries[i].end != Some(value))
  {
    var value := Accepted(threshold);
    var after := AfterNodes(batteries, value);
    SetSucceedsExactly(batteries, threshold);
    forall i | 0 <= i < |batteries|
      ensures after[i].end == Some(value)
         <==> Takes(batteries[i], value) || (!CanTake(batteries[i], value) && batteries[i].end == Some(value))
    {
      WindowAfterNode(batteries[i], value);
    }
  }

  /** A case where it fails: a read-only node already at the value reads it back, and the call fails. */
  lemma ReadOnlyNodeFails()
    ensures var fw := Firmware(false, true, true, false, (v, s) => Some(v), (v, e) => Some(v));
            var b := Battery(Some(80), None, None, fw);
            AfterNode(b, 80).end == Some(80) && !SetSucceeds([b], 80)
  {
  }

  // ---------------------------------------------------------------------
  // When a call leaves the window alone
  // ---------------------------------------------------------------------

  predicate KeepsStart(b: Battery, value: nat) {
    StartBlocks(b, value) && TakesLoweredStart(b, value) ==> b.fw.startLands(LoweredStart(value), b.end) == b.start
  }

  /** Delivering `value` moves neither end of the window. */
  predicate KeepsWindow(b: Battery, value: nat) {
    KeepsStart(b, value) && (CanTake(b, value) ==> b.fw.lands(value, b.start) == b.end)
  }

  predicate KeepsMode(b: Battery) {
    NeedsCustom(b) ==> !b.fw.modeWritable
  }

  lemma WindowIsKeptExactly(b: Battery, value: nat)
    requires 20 <= value <= 100
    ensures AfterNode(b, value).end == b.end && AfterNode(b, value).start == b.start <==> KeepsWindow(b, value)
    ensures AfterNode(b, value) == b <==> KeepsWindow(b, value) && KeepsMode(b)
  {
    WindowAfterNode(b, value);
    var after := AfterNode(b, value);
    assert after.custom == AfterMode(b).custom;
    assert after.custom == b.custom <==> KeepsMode(b);
    assert after == Battery(after.end, after.start, after.custom, b.fw);
  }

  // ---------------------------------------------------------------------
  // Plain firmware
  // ---------------------------------------------------------------------

  /** A battery that takes every legal write at face value. */
  ghost predicate Plain(b: Battery) {
    && b.fw.endWritable && b.fw.startWritable && Ordered(b)
    && (forall v: nat, s: Option<nat> :: b.fw.lands(v, s) == Some(v))
    && (forall v: nat, e: Option<nat> :: b.fw.startLands(v, e) == Some(v))
  }

  lemma PlainTakesIt(b: Battery, value: nat)
    requires Plain(b) && 20 <= value <= 100
    ensures NodeOk(b, value) && Plain(AfterNode(b, value))
    ensures AfterNode(b, value).end == Some(value)
    ensures AfterNode(b, value).start == if StartBlocks(b, value) then Some(value - 5) else b.start
  {
    WindowAfterNode(b, value);
    NodeOkExactly(b, value);
  }

  /** A plain window is left alone exactly when its end is already there. */
  lemma PlainIsKeptExactly(b: Battery, value: nat)
    requires Plain(b) && 20 <= value <= 100
    ensures KeepsWindow(b, value) <==> b.end == Some(value)
  {
  }
}
