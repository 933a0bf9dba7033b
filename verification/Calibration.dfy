/**
 The calibration commands and the daemon's enforcement of the charge ceiling, as
 steps of one machine that share the battery hardware.
 */
module Calibration {
  import opened Prelude
  import opened Threshold

  datatype Phase = Charge | Discharge | Recharge

  /** The record kept between commands. */
  datatype CalibrationState = CalibrationState(savedThreshold: Option<nat>, phase: Phase)

  /** Batteries and the saved record. */
  datatype World = World(batteries: seq<Battery>, saved: Option<CalibrationState>)

  // ---------------------------------------------------------------------
  // The commands
  // ---------------------------------------------------------------------

  function Advance(phase: Phase, capacity: nat, charging: bool): Phase {
    if phase == Charge && capacity >= 100 then Discharge
    else if phase == Discharge && !charging && capacity <= 10 then Recharge
    else phase
  }

  /** `saveOk`: the record could be written to disk. */
  function AfterStart(w: World, saveOk: bool): World {
    if w.saved.Some? || w.batteries == [] then w
    else
      var lifted := AfterNodes(w.batteries, 100);
      if SetSucceeds(w.batteries, 100) && saveOk
      then World(lifted, Some(CalibrationState(ThresholdOf(w.batteries), Charge)))
      else World(lifted, None)
  }

  /** `capacity` is absent when the gauge cannot be read. */
  function AfterStatus(w: World, capacity: Option<nat>, charging: bool, saveOk: bool): World {
    if w.saved.None? || capacity.None? || !saveOk then w
    else w.(saved := Some(w.saved.value.(phase := Advance(w.saved.value.phase, capacity.value, charging))))
  }

  function AfterFinish(w: World): World {
    if w.saved.None? then w
    else
      match w.saved.value.savedThreshold
      case None => w.(saved := None)
      case Some(t) =>
        World(AfterNodes(w.batteries, Accepted(t)), if SetSucceeds(w.batteries, t) then None else w.saved)
  }

  /** The tick writes: a limit is configured, there is a node, and it does not read as the limit. */
  predicate TickWrites(batteries: seq<Battery>, limit: Option<nat>) {
    limit.Some? && batteries != [] && ThresholdOf(batteries) != limit
  }

  function AfterTick(batteries: seq<Battery>, limit: Option<nat>): seq<Battery> {
    if TickWrites(batteries, limit) then AfterNodes(batteries, Accepted(limit.value)) else batteries
  }

  class Machine {
    const threshold: ChargeThreshold
    var saved: Option<CalibrationState>

    constructor (threshold: ChargeThreshold)
      ensures this.threshold == threshold && saved == None
    {
      this.threshold := threshold;
      saved := None;
    }

    function View(): World
      reads this, threshold
    {
      World(threshold.batteries, saved)
    }

    method Start(saveOk: bool) returns (ok: bool)
      modifies this, threshold
      ensures View() == AfterStart(old(View()), saveOk)
      ensures ok <==> old(saved).None? && SetSucceeds(old(threshold.batteries), 100) && saveOk
    {
      if saved.Some? {
        return false;
      }
      var supported := threshold.SupportsThreshold();
      if !supported {
        return false;
      }
      var savedThreshold := threshold.Threshold();
      var lifted := threshold.SetThreshold(100);
      if !lifted || !saveOk {
        return false;
      }
      saved := Some(CalibrationState(savedThreshold, Charge));
      return true;
    }

    method Status(capacity: Option<nat>, charging: bool, saveOk: bool) returns (ok: bool)
      modifies this
      ensures View() == AfterStatus(old(View()), capacity, charging, saveOk)
      ensures ok <==> old(saved).Some? && capacity.Some? && saveOk
    {
      if saved.None? || capacity.None? {
        return false;
      }
      var state := saved.value;
      state := state.(phase := Advance(state.phase, capacity.value, charging));
      if !saveOk {
        return false;
      }
      saved := Some(state);
      return true;
    }

    method Finish() returns (ok: bool)
      modifies this, threshold
      ensures View() == AfterFinish(old(View()))
      ensures ok <==> old(saved).Some? && saved.None?
    {
      if saved.None? {
        return false;
      }
      if saved.value.savedThreshold.Some? {
        var restored := threshold.SetThreshold(saved.value.savedThreshold.value);
        if !restored {
          return false;
        }
      }
      saved := None;
      return true;
    }

    /** One enforcement tick of the daemon. */
    method EnforceChargeLimit(limit: Option<nat>) returns (wrote: bool)
      modifies threshold
      ensures wrote <==> TickWrites(old(threshold.batteries), limit)
      ensures threshold.batteries == AfterTick(old(threshold.batteries), limit)
    {
      if limit.None? {
        return false;
      }
      var supported := threshold.SupportsThreshold();
      if !supported {
        return false;
      }
      var cur := threshold.Threshold();
      if cur.Some? && cur.value == limit.value {
        return false;
      }
      var _ := threshold.SetThreshold(limit.value);
      return true;
    }
  }

  // ---------------------------------------------------------------------
  // The phase is a function of the observations
  // ---------------------------------------------------------------------

  datatype Observation = Observation(capacity: nat, charging: bool)

  function PhaseAfter(run: seq<Observation>): Phase {
    if run == [] then Charge
    else
      var last := run[|run| - 1];
      Advance(PhaseAfter(run[..|run| - 1]), last.capacity, last.charging)
  }

  predicate Full(o: Observation) {
    o.capacity >= 100
  }

  predicate Drained(o: Observation) {
    !o.charging && o.capacity <= 10
  }

  ghost predicate SawFull(run: seq<Observation>) {
    exists i :: 0 <= i < |run| && Full(run[i])
  }

  ghost predicate SawFullThenDrained(run: seq<Observation>) {
    exists i, j :: 0 <= i < j < |run| && Full(run[i]) && Drained(run[j])
  }

  lemma SawOneMore(front: seq<Observation>, o: Observation)
    ensures SawFull(front + [o]) <==> SawFull(front) || Full(o)
    ensures SawFullThenDrained(front + [o]) <==> SawFullThenDrained(front) || (SawFull(front) && Drained(o))
  {
    var run := front + [o];
    assert run[|front|] == o;
    assert forall i :: 0 <= i < |front| ==> run[i] == front[i];
    if SawFull(front) {
      var i :| 0 <= i < |front| && Full(front[i]);
      assert Full(run[i]);
    }
    if SawFull(run) {
      var i :| 0 <= i < |run| && Full(run[i]);
      assert i < |front| ==> Full(front[i]);
    }
    if SawFullThenDrained(front) {
      var i, j :| 0 <= i < j < |front| && Full(front[i]) && Drained(front[j]);
      assert Full(run[i]) && Drained(run[j]);
    }
    if SawFullThenDrained(run) {
      var i, j :| 0 <= i < j < |run| && Full(run[i]) && Drained(run[j]);
      assert Full(front[i]);
      assert j < |front| ==> Drained(front[j]);
    }
  }

  /**
   Recharge exactly when some observation was full and a strictly later one was drained on
   battery; Charge exactly when none was full.
   */
  lemma {:induction false} PhaseIsHistory(run: seq<Observation>)
    ensures PhaseAfter(run) == Recharge <==> SawFullThenDrained(run)
    ensures PhaseAfter(run) == Charge <==> !SawFull(run)
  {
    if run != [] {
      var front, o := run[..|run| - 1], run[|run| - 1];
      PhaseIsHistory(front);
      assert run == front + [o];
      SawOneMore(front, o);
    }
  }

  function Rank(p: Phase): nat {
    match p case Charge => 0 case Discharge => 1 case Recharge => 2
  }

  /** Over a run the phase never goes back. */
  lemma {:induction false} PhaseNeverGoesBack(run: seq<Observation>, k: nat)
    requires k <= |run|
    ensures Rank(PhaseAfter(run[..k])) <= Rank(PhaseAfter(run)) <= Rank(PhaseAfter(run[..k])) + (|run| - k)
  {
    if k == |run| {
      assert run[..k] == run;
    } else {
      var front := run[..|run| - 1];
      PhaseNeverGoesBack(front, k);
      assert front[..k] == run[..k];
    }
  }

  // ---------------------------------------------------------------------
  // Runs
  // ---------------------------------------------------------------------

  datatype Action =
    | Start(saveOk: bool)
    | Status(capacity: Option<nat>, charging: bool, saveOk: bool)
    | Finish
    | Tick(limit: Option<nat>)
    /** Firmware or another tool leaves the batteries like this. */
    | Outside(now: seq<Battery>)

  function Step(w: World, a: Action): World {
    match a
    case Start(saveOk) => AfterStart(w, saveOk)
    case Status(capacity, charging, saveOk) => AfterStatus(w, capacity, charging, saveOk)
    case Finish => AfterFinish(w)
    case Tick(limit) => w.(batteries := AfterTick(w.batteries, limit))
    case Outside(now) => w.(batteries := now)
  }

  function Run(w: World, run: seq<Action>): World {
    if run == [] then w else Step(Run(w, run[..|run| - 1]), run[|run| - 1])
  }

  ghost predicate AllPlain(batteries: seq<Battery>) {
    forall i :: 0 <= i < |batteries| ==> Plain(batteries[i])
  }

  predicate AllAt(batteries: seq<Battery>, value: nat) {
    forall i :: 0 <= i < |batteries| ==> batteries[i].end == Some(value)
  }

  lemma PlainSet(batteries: seq<Battery>, threshold: nat)
    requires AllPlain(batteries)
    ensures var after := AfterNodes(batteries, Accepted(threshold));
            && AllPlain(after) && AllAt(after, Accepted(threshold))
            && (batteries != [] ==> SetSucceeds(batteries, threshold)
                                    && ThresholdOf(after) == Some(Accepted(threshold)))
  {
    forall i | 0 <= i < |batteries|
      ensures NodeOk(batteries[i], Accepted(threshold))
      ensures Plain(AfterNode(batteries[i], Accepted(threshold)))
      ensures AfterNode(batteries[i], Accepted(threshold)).end == Some(Accepted(threshold))
    {
      PlainTakesIt(batteries[i], Accepted(threshold));
    }
    if batteries != [] {
      assert NodeOk(batteries[0], Accepted(threshold));
    }
  }

  // ---------------------------------------------------------------------
  // The calibration round trip
  // ---------------------------------------------------------------------

  predicate StartSucceeds(w: World, saveOk: bool) {
    w.saved.None? && SetSucceeds(w.batteries, 100) && saveOk
  }

  /** A calibration in progress: any number of status calls and refused restarts. */
  predicate Walking(run: seq<Action>) {
    forall i :: 0 <= i < |run| ==> run[i].Status? || run[i].Start?
  }

  lemma {:induction false} WalkingWritesNothing(w: World, run: seq<Action>)
    requires w.saved.Some? && Walking(run)
    ensures var v := Run(w, run);
            && v.batteries == w.batteries && v.saved.Some?
            && v.saved.value.savedThreshold == w.saved.value.savedThreshold
  {
    if run != [] {
      WalkingWritesNothing(w, run[..|run| - 1]);
    }
  }

  /** The observations that a walk records. */
  function Observed(walk: seq<Action>): seq<Observation> {
    if walk == [] then []
    else
      var front := Observed(walk[..|walk| - 1]);
      match walk[|walk| - 1]
      case Status(capacity, charging, saveOk) =>
        if capacity.Some? && saveOk then front + [Observation(capacity.value, charging)] else front
      case _ => front
  }

  /** The recorded phase is the phase of the recorded observations, nothing else. */
  lemma {:induction false} WalkPhase(w: World, walk: seq<Action>)
    requires w.saved.Some? && w.saved.value.phase == Charge && Walking(walk)
    ensures Run(w, walk).saved.Some? && Run(w, walk).saved.value.phase == PhaseAfter(Observed(walk))
  {
    if walk != [] {
      var front := walk[..|walk| - 1];
      WalkPhase(w, front);
      var a := walk[|walk| - 1];
      if a.Status? && a.capacity.Some? && a.saveOk {
        var seen := Observed(front) + [Observation(a.capacity.value, a.charging)];
        assert seen[..|seen| - 1] == Observed(front);
      }
    }
  }

  /**
   From the command on: after a start that succeeds, whatever status calls and refused starts
   follow, the recorded phase is decided by the recorded observations alone. It is Charge until
   one of them was full, and Recharge exactly when a later one than that was drained on battery.
   */
  lemma PhaseFromStart(w: World, walk: seq<Action>)
    requires StartSucceeds(w, true) && Walking(walk)
    ensures var v := Run(AfterStart(w, true), walk);
            var seen := Observed(walk);
            && v.saved.Some? && v.saved.value.savedThreshold == ThresholdOf(w.batteries)
            && v.saved.value.phase == PhaseAfter(seen)
            && (v.saved.value.phase == Charge <==> !SawFull(seen))
            && (v.saved.value.phase == Recharge <==> SawFullThenDrained(seen))
  {
    var v := AfterStart(w, true);
    WalkPhase(v, walk);
    WalkingWritesNothing(v, walk);
    PhaseIsHistory(Observed(walk));
  }

  /** Same window as before. The charge mode may have moved to `Custom`. */
  predicate SameWindows(a: seq<Battery>, b: seq<Battery>) {
    |a| == |b| && forall i :: 0 <= i < |a| ==> a[i].end == b[i].end && a[i].start == b[i].start
  }

  predicate Percentages(batteries: seq<Battery>) {
    forall i :: 0 <= i < |batteries| ==> batteries[i].end.Some? && 1 <= batteries[i].end.value <= 100
  }

  function Calibrated(w: World, walk: seq<Action>): World {
    AfterFinish(Run(AfterStart(w, true), walk))
  }

  lemma CalibratedWorld(w: World, walk: seq<Action>)
    requires w.saved.None? && w.batteries != [] && AllPlain(w.batteries) && Percentages(w.batteries)
    requires Walking(walk)
    ensures var t := w.batteries[0].end.value;
            Calibrated(w, walk) == World(AfterNodes(AfterNodes(w.batteries, 100), Accepted(t)), None)
  {
    var t := w.batteries[0].end.value;
    assert ThresholdOf(w.batteries) == Some(t);
    PlainSet(w.batteries, 100);
    WalkingWritesNothing(AfterStart(w, true), walk);
    PlainSet(AfterNodes(w.batteries, 100), t);
  }

  /** One battery through the lift and the restore to `value`. */
  lemma WindowThroughCalibration(b: Battery, value: nat)
    requires Plain(b) && b.end.Some? && 1 <= b.end.value <= 100 && 20 <= value <= 100
    ensures var after := AfterNode(AfterNode(b, 100), value);
            && after.end == Some(value)
            && (b.end == Some(value) ==> after.start == b.start)
  {
    PlainTakesIt(b, 100);
    PlainTakesIt(AfterNode(b, 100), value);
  }

  lemma WindowsThroughCalibration(batteries: seq<Battery>, value: nat)
    requires AllPlain(batteries) && Percentages(batteries) && 20 <= value <= 100
    ensures SameWindows(AfterNodes(AfterNodes(batteries, 100), value), batteries) <==> AllAt(batteries, value)
  {
    var after := AfterNodes(AfterNodes(batteries, 100), value);
    forall i | 0 <= i < |batteries|
      ensures after[i].end == Some(value)
      ensures batteries[i].end == Some(value) ==> after[i].start == batteries[i].start
    {
      WindowThroughCalibration(batteries[i], value);
    }
  }

  /**
   Start, any walk, finish: every charge window is back as it was exactly when all batteries
   shared one threshold of at least 20. In every case the record is gone.
   */
  lemma CalibrationRoundTrip(w: World, walk: seq<Action>)
    requires w.saved.None? && w.batteries != [] && AllPlain(w.batteries) && Percentages(w.batteries)
    requires Walking(walk)
    ensures Calibrated(w, walk).saved == None
    ensures SameWindows(Calibrated(w, walk).batteries, w.batteries)
       <==> AllAt(w.batteries, w.batteries[0].end.value) && 20 <= w.batteries[0].end.value
  {
    var t := w.batteries[0].end.value;
    CalibratedWorld(w, walk);
    WindowsThroughCalibration(w.batteries, Accepted(t));
    assert AllAt(w.batteries, Accepted(t)) ==> Accepted(t) == t;
  }

  /** A second start changes nothing while a calibration is recorded, and neither does a finish without one. */
  lemma RefusedCommandsWriteNothing(w: World, saveOk: bool)
    ensures w.saved.Some? ==> AfterStart(w, saveOk) == w
    ensures w.saved.None? ==> AfterFinish(w) == w
  {
  }

  /**
   A failed restore keeps the record, so finishing again once the hardware accepts writes
   still restores the saved threshold.
   */
  lemma FailedRestoreCanBeRetried(w: World, repaired: seq<Battery>)
    requires w.saved.Some? && w.saved.value.savedThreshold.Some?
    requires !SetSucceeds(w.batteries, w.saved.value.savedThreshold.value)
    requires repaired != [] && AllPlain(repaired)
    ensures var failed := AfterFinish(w);
            var retried := AfterFinish(failed.(batteries := repaired));
            && failed.saved == w.saved
            && retried.saved == None
            && AllAt(retried.batteries, Accepted(w.saved.value.savedThreshold.value))
  {
    PlainSet(repaired, w.saved.value.savedThreshold.value);
  }

  /** With no readable threshold to save, finishing writes nothing: the ceiling stays at 100. */
  lemma UnknownThresholdStaysLifted(w: World, walk: seq<Action>)
    requires w.saved.None? && w.batteries != [] && ThresholdOf(w.batteries).None? && Walking(walk)
    requires SetSucceeds(w.batteries, 100)
    ensures Calibrated(w, walk) == World(AfterNodes(w.batteries, 100), None)
  {
    WalkingWritesNothing(AfterStart(w, true), walk);
  }

  // ---------------------------------------------------------------------
  // A start that fails
  // ---------------------------------------------------------------------

  /**
   A start that reports failure, whether it was refused, could not lift the ceiling or could
   not save the record: the charge windows are as they were exactly when a calibration was
   recorded or no battery is moved by the lift; the batteries are, when their modes are kept
   as well. The record is as it was, so that after a failed lift or save finishing changes
   nothing.
   */
  lemma FailedStartKeepsWindowsExactly(w: World, saveOk: bool)
    requires !StartSucceeds(w, saveOk)
    ensures var v := AfterStart(w, saveOk);
            && v.saved == w.saved && (w.saved.None? ==> AfterFinish(v) == v)
            && (SameWindows(v.batteries, w.batteries)
                <==> w.saved.Some? || forall i :: 0 <= i < |w.batteries| ==> KeepsWindow(w.batteries[i], 100))
            && (v.batteries == w.batteries
                <==> w.saved.Some? || forall i :: 0 <= i < |w.batteries| ==>
                       KeepsWindow(w.batteries[i], 100) && KeepsMode(w.batteries[i]))
  {
    var lifted := AfterNodes(w.batteries, 100);
    forall i | 0 <= i < |w.batteries|
      ensures lifted[i].end == w.batteries[i].end && lifted[i].start == w.batteries[i].start
         <==> KeepsWindow(w.batteries[i], 100)
      ensures lifted[i] == w.batteries[i] <==> KeepsWindow(w.batteries[i], 100) && KeepsMode(w.batteries[i])
    {
      WindowIsKeptExactly(w.batteries[i], 100);
    }
    assert lifted == w.batteries <==> forall i :: 0 <= i < |w.batteries| ==> lifted[i] == w.batteries[i];
  }

  /** On batteries that take writes at face value a failed start loses nothing exactly at 100. */
  lemma FailedStartOnPlainExactly(w: World, saveOk: bool)
    requires !StartSucceeds(w, saveOk) && AllPlain(w.batteries)
    ensures SameWindows(AfterStart(w, saveOk).batteries, w.batteries) <==> w.saved.Some? || AllAt(w.batteries, 100)
  {
    FailedStartKeepsWindowsExactly(w, saveOk);
    forall i | 0 <= i < |w.batteries|
      ensures KeepsWindow(w.batteries[i], 100) <==> w.batteries[i].end == Some(100)
    {
      PlainIsKeptExactly(w.batteries[i], 100);
    }
  }

  /**
   When the record cannot be saved, start reports failure but the ceiling is already
   lifted, the old threshold is forgotten and finishing cannot bring it back.
   */
  lemma FailedSaveStrandsTheCeiling(w: World)
    requires w.saved.None? && w.batteries != [] && AllPlain(w.batteries)
    ensures var v := AfterStart(w, false);
            && v.saved == None && AllAt(v.batteries, 100)
            && AfterFinish(v) == v
  {
    PlainSet(w.batteries, 100);
  }

  /** A lift that does not stick: firmware lands 100 at 90, start fails, and the old 80 is gone. */
  lemma FailedLiftMovesTheWindow()
    ensures var fw := Firmware(true, true, true, false, (v, s) => Some(Min(v, 90)), (v, e) => Some(v));
            var w := World([Battery(Some(80), None, None, fw)], None);
            var v := AfterStart(w, true);
            && !StartSucceeds(w, true)
            && v.batteries[0].end == Some(90) && v.saved == None && AfterFinish(v) == v
  {
    var fw := Firmware(true, true, true, false, (v, s) => Some(Min(v, 90)), (v, e) => Some(v));
    var b := Battery(Some(80), None, None, fw);
    WindowAfterNode(b, 100);
    SetSucceedsExactly([b], 100);
    assert !SetSucceeds([b], 100);
    assert AfterNodes([b], 100)[0] == AfterNode(b, 100);
  }

  // ---------------------------------------------------------------------
  // Enforcement against calibration
  // ---------------------------------------------------------------------

  /** There is a battery after the run. */
  predicate Present(batteries: seq<Battery>, run: seq<Action>) {
    if run == [] then batteries != []
    else
      match run[|run| - 1]
      case Outside(now) => now != []
      case _ => Present(batteries, run[..|run| - 1])
  }

  /**
   The step leaves the ceiling at 100: a tick meets no battery, carries no limit or one that
   clamps to 100, and an outside step leaves every end there.
   */
  predicate Harmless(present: bool, a: Action) {
    match a
    case Tick(limit) => !present || limit.None? || limit.value >= 100
    case Outside(now) => AllAt(now, 100)
    case _ => true
  }

  predicate NoFinish(run: seq<Action>) {
    forall i :: 0 <= i < |run| ==> !run[i].Finish?
  }

  /** Every battery that the outside leaves takes writes at face value. */
  ghost predicate PlainOutside(run: seq<Action>) {
    forall i :: 0 <= i < |run| && run[i].Outside? ==> AllPlain(run[i].now)
  }

  /** A lifted machine in the middle of a calibration. */
  ghost predicate Lifted(w: World) {
    w.saved.Some? && AllPlain(w.batteries) && AllAt(w.batteries, 100)
  }

  lemma HarmlessStep(w: World, a: Action)
    requires Lifted(w) && !a.Finish? && (a.Outside? ==> AllPlain(a.now))
    ensures AllAt(Step(w, a).batteries, 100) <==> Harmless(w.batteries != [], a)
    ensures Harmless(w.batteries != [], a) ==> Lifted(Step(w, a))
  {
    if a.Tick? && a.limit.Some? && w.batteries != [] {
      assert ThresholdOf(w.batteries) == Some(100);
      var after := AfterNodes(w.batteries, Accepted(a.limit.value));
      PlainSet(w.batteries, a.limit.value);
      assert after[0].end == Some(Accepted(a.limit.value));
    }
  }

  lemma {:induction false} PresenceOverRun(w: World, run: seq<Action>)
    ensures Run(w, run).batteries != [] <==> Present(w.batteries, run)
  {
    if run != [] {
      PresenceOverRun(w, run[..|run| - 1]);
    }
  }

  /** The ceiling reads 100 on every battery after the run and after each of its prefixes. */
  ghost predicate StaysLifted(w: World, run: seq<Action>) {
    AllAt(Run(w, run).batteries, 100) && (run != [] ==> StaysLifted(w, run[..|run| - 1]))
  }

  predicate AllHarmless(batteries: seq<Battery>, run: seq<Action>) {
    forall i :: 0 <= i < |run| ==> Harmless(Present(batteries, run[..i]), run[i])
  }

  lemma OneMoreStep(batteries: seq<Battery>, run: seq<Action>)
    requires run != []
    ensures var n := |run| - 1;
            AllHarmless(batteries, run)
            <==> AllHarmless(batteries, run[..n]) && Harmless(Present(batteries, run[..n]), run[n])
  {
    var n := |run| - 1;
    forall i | 0 <= i < n ensures run[..n][i] == run[i] && run[..n][..i] == run[..i] {}
  }

  /**
   During a calibration, under enforcing ticks and outside changes in any order, the ceiling
   stays at 100 throughout exactly when no tick that meets a battery carries a limit below
   100 and no outside step leaves an end elsewhere. Nothing in the commands stops such ticks.
   */
  lemma {:induction false} CeilingStaysLifted(w: World, run: seq<Action>)
    requires Lifted(w) && NoFinish(run) && PlainOutside(run)
    ensures StaysLifted(w, run) <==> AllHarmless(w.batteries, run)
    ensures StaysLifted(w, run) ==> Lifted(Run(w, run))
  {
    if run != [] {
      var n := |run| - 1;
      var front := run[..n];
      assert forall i :: 0 <= i < n ==> front[i] == run[i];
      CeilingStaysLifted(w, front);
      OneMoreStep(w.batteries, run);
      PresenceOverRun(w, front);
      if StaysLifted(w, front) {
        HarmlessStep(Run(w, front), run[n]);
      }
    }
  }

  // ---------------------------------------------------------------------
  // Enforcement converges
  // ---------------------------------------------------------------------

  /** The node can never be read: nothing it accepts reads back. */
  ghost predicate Mute(b: Battery) {
    b.end.None? && forall v: nat, s: Option<nat> :: b.fw.lands(v, s).None?
  }

  /** Battery `k` is the first that can be read, and it takes writes at face value. */
  ghost predicate Governed(batteries: seq<Battery>, k: nat) {
    k < |batteries| && Plain(batteries[k]) && forall i :: 0 <= i < k ==> Mute(batteries[i])
  }

  lemma {:induction false} FirstReadable(batteries: seq<Battery>, k: nat)
    requires k < |batteries| && batteries[k].end.Some? && forall i :: 0 <= i < k ==> batteries[i].end.None?
    ensures ThresholdOf(batteries) == Some(Clamp(batteries[k].end.value, 1, 100))
  {
    if k > 0 {
      assert forall i :: 0 <= i < |batteries| - 1 ==> batteries[1..][i] == batteries[i + 1];
      FirstReadable(batteries[1..], k - 1);
    }
  }

  lemma GovernedSet(batteries: seq<Battery>, k: nat, limit: nat)
    requires Governed(batteries, k)
    ensures var after := AfterNodes(batteries, Accepted(limit));
            Governed(after, k) && ThresholdOf(after) == Some(Accepted(limit))
  {
    var after := AfterNodes(batteries, Accepted(limit));
    PlainTakesIt(batteries[k], Accepted(limit));
    FirstReadable(after, k);
  }

  function Ticks(batteries: seq<Battery>, limit: Option<nat>, n: nat): seq<Battery> {
    if n == 0 then batteries else AfterTick(Ticks(batteries, limit, n - 1), limit)
  }

  /**
   Whatever firmware did to the batteries before, one tick brings a limit of 20..100 in
   force and every later tick is silent.
   */
  lemma {:induction false} EnforcementConverges(batteries: seq<Battery>, k: nat, limit: nat, n: nat)
    requires Governed(batteries, k) && 20 <= limit <= 100 && n >= 1
    ensures ThresholdOf(Ticks(batteries, Some(limit), n)) == Some(limit)
    ensures !TickWrites(Ticks(batteries, Some(limit), n), Some(limit))
    ensures Ticks(batteries, Some(limit), n) == Ticks(batteries, Some(limit), 1)
  {
    if n == 1 {
      GovernedSet(batteries, k, limit);
      assert Ticks(batteries, Some(limit), 0) == batteries;
    } else {
      EnforcementConverges(batteries, k, limit, n - 1);
    }
  }

  /** A limit outside 20..100, which only a hand-edited configuration can hold, never goes quiet. */
  lemma EnforcementIsQuietExactly(batteries: seq<Battery>, k: nat, limit: nat)
    requires Governed(batteries, k)
    requires TickWrites(batteries, Some(limit))
    ensures TickWrites(AfterTick(batteries, Some(limit)), Some(limit)) <==> limit < 20 || limit > 100
  {
    GovernedSet(batteries, k, limit);
  }

  /** With no configured limit a tick writes nothing. */
  lemma {:induction false} NoLimitNoWrites(batteries: seq<Battery>, n: nat)
    ensures Ticks(batteries, None, n) == batteries
  {
    if n > 0 {
      NoLimitNoWrites(batteries, n - 1);
    }
  }
}
