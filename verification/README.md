# WattWarden, verified model

WattWarden is a power governor for laptops: a daemon scales CPU cores, CPU and GPU
frequency and package power with the load, profiles and a dashboard set the same controls
by hand, and a charge ceiling protects the battery. This project models the parts with
arithmetic or protocol content and proves what they promise, for all inputs and all runs.

| module | models |
|---|---|
| `Sysfs` | the typed `/sys` store every actuator reads and writes |
| `Cpu`, `Gpu`, `Rapl`, `Backlight` | discovery of the immutable ranges and the clamping setters |
| `Preference` | mapping a requested energy preference to an advertised one |
| `Ladder`, `LadderInIntegers` | load to power step to targets, in exact arithmetic and as whole-number formulas |
| `Backend`, `NoRatchet`, `LadderEffect`, `ProfileEffect`, `Presses` | ticks, profiles and dashboard presses as steps of one machine, what each leaves in the nodes, and whole runs of them |
| `Threshold`, `Calibration` | the charge ceiling, its calibration, and the daemon that enforces it |
| `InstanceLock` | the single-instance lock as an interleaving of system calls |
| `Calendar`, `Timestamp` | civil-from-days and the printed stamp, against a reference calendar |
| `Layout`, `Plot`, `Menu` | dashboard geometry, the bar plot and the scrolling menu |
| `Prelude` | small shared helpers |

Objects that the program updates in place (the sysfs tree, the governors, the threshold
controller, the calibration record, the pid manager, the dashboard state, the screen buffer)
are classes or arrays. Each method is proved equal to a function of the old state, and the
properties are proved about those functions and about runs of them.

`dafny verify dfyconfig.toml` checks everything.

## Findings

Where a promise does not hold as stated, the code is kept and the exact condition is proved.

- `set_charge_threshold` can fail although a node reads back the value
  (`Threshold.ReadOnlyNodeFails`). Ok and read-back agree exactly when some node takes the
  value or no node that cannot take it stands at it already
  (`Threshold.ReadBackMeansOkExactly`).
- A `calibrate start` that reports failure can leave the batteries changed and the old
  threshold forgotten: when the record cannot be saved after the lift
  (`Calibration.FailedSaveStrandsTheCeiling`), and when the lift itself does not stick
  (`Calibration.FailedLiftMovesTheWindow`). Nothing moves exactly when a calibration was
  recorded or no window is moved by the lift (`Calibration.FailedStartKeepsWindowsExactly`).
- During a calibration started from the command line the daemon keeps enforcing a configured
  limit below 100 (`Calibration.CeilingStaysLifted`). The dashboard stops the daemon first.
- A configured limit outside 20..100 is rewritten on every tick
  (`Calibration.EnforcementIsQuietExactly`).
- A calibration restores all batteries only if they shared one threshold of at least 20
  (`Calibration.CalibrationRoundTrip`).
- Where no helper tool follows the node writes, the brightness loop rewrites for ever unless
  100 divides target times maximum (`Backlight.BrightnessLoopGoesQuiet`).
- A probe in flight can make a second probe, or an acquisition, believe that a daemon runs
  (`InstanceLock.ProbesCanCollide`). The answer is right exactly when no other call holds the
  lock at that moment (`InstanceLock.AnswerIsRightExactly`).
- The recorded process id names the daemon while one runs, and nothing takes it back
  afterwards (`InstanceLock.PidIsRightExactly`, `InstanceLock.PidOutlivesTheDaemon`); stopping
  a daemon signals it without asking the lock.
- The scrollbar thumb leaves its track when the menu grows while scrolled down
  (`Menu.GrowingPushesTheThumbOut`); the exact inequality is `Menu.ThumbInTrackExactly`.
- The rows are split without loss, but on a screen under 40 columns the plot is dropped after
  the split and its rows stay empty (`Layout.LayoutTilesExactly`).
- README.md line 43 says that no level lowers the ceiling under full load; in the code only
  the Low level reaches it (`Ladder.FullLoadReachesTheTopExactly`). The level parameters of
  `crates/wattwarden-core/src/config.rs` lines 84 to 131 are not used by the ladder; the
  model follows the constants of `daemon.rs`.
- The watt scale keeps its 20% headroom only up to 416 2/3 W (`Plot.ScaleFitsExactly`).

## Model

| member | source | states |
|---|---|---|
| `Calendar.SecondsRoundTrip` | crates/wattwarden-daemon/src/daemon.rs:95-109 | For every number of seconds, negative ones too: the stamp is a valid Gregorian date and time of day, and counting its days, hours, minutes and seconds gives back exactly the input |
| `Calendar.StampRoundTrip` | crates/wattwarden-daemon/src/daemon.rs:95-109 | The other direction: every valid stamp is the stamp of its second count, so the closed formula is onto |
| `Calendar.DaysRoundTrip` | crates/wattwarden-daemon/src/daemon.rs:99-107 | Civil-from-days against an independent day count: valid date, same day number, for all integers |
| `Calendar.DateRoundTrip` | crates/wattwarden-daemon/src/daemon.rs:99-107 | Every valid date comes back from its day number |
| `Calendar.CivilFollowsTheCalendar` | crates/wattwarden-daemon/src/daemon.rs:99-107 | The formula walks the calendar: the next day number is the next date, month ends and leap days included |
| `Calendar.EpochIsDayZero` | crates/wattwarden-daemon/src/daemon.rs:99-107 | Day 0 is 1970-01-01 |
| `Calendar.EraDigits` | crates/wattwarden-daemon/src/daemon.rs:102-103 | The four-term correction recovers exactly the centuries, four-year cycles and years of a day of the era |
| `Calendar.StampsAreMonotone` | crates/wattwarden-daemon/src/daemon.rs:95-109 | Earlier seconds if and only if an earlier stamp in lexicographic order |
| `Timestamp.IsoWidth` | crates/wattwarden-daemon/src/daemon.rs:108 | The printed stamp has 19 characters if and only if the year lies in -999..9999, and never fewer |
| `Timestamp.IsoReadsBack` | crates/wattwarden-daemon/src/daemon.rs:93-109 | For every second, the separators of the printed stamp stand where they should and reading its six fields gives back the stamp, and so the second |
| `Timestamp.IsoOrderIsTimeOrder` | crates/wattwarden-daemon/src/daemon.rs:93-109 | Section 5.1 of RFC 3339: for years 0..9999 the character order of the strings is the order of time, both ways |
| `Timestamp.IsoOrderBreaksAtFiveDigits` | crates/wattwarden-daemon/src/daemon.rs:108 | Where that ends: the first second of year 10000 prints before the last second of 9999 |
| `Sysfs.SysfsRoot.WriteBestEffort` | crates/wattwarden-platform/src/linux/sysfs.rs:107-109 | A best-effort write sets an existing node and changes nothing else; a missing node stays missing |
| `Cpu.CpuGovernor.DiscoveredFreqBounds` | crates/wattwarden-platform/src/linux/cpu.rs:194-224 | The loop over all CPUs computes the envelope of the usable immutable ranges, in MHz, or nothing when degenerate |
| `Cpu.EnvelopeIsTight` | crates/wattwarden-platform/src/linux/cpu.rs:194-216 | The envelope's ends are the least floor and the greatest ceiling exposed by any CPU, both attained; there is none if and only if no CPU exposes a usable range |
| `Cpu.BoundsAgainstCpuinfo` | crates/wattwarden-platform/src/linux/cpu.rs:194-224 | Truncation to MHz: the ceiling never exceeds the largest declared one, the floor is under the smallest declared one by less than 1 MHz; the range is of the machine, not per core |
| `Cpu.BoundsAreHardware` | crates/wattwarden-platform/src/linux/cpu.rs:178-193 | Discovery depends on no node that the tool writes |
| `Cpu.CpuGovernor.SetFreqLimit` | crates/wattwarden-platform/src/linux/cpu.rs:238-268 | Leaves every CPU with a cpufreq directory at the discovered floor and the clamped limit, all other nodes as they were; nothing without a discovered range |
| `Cpu.FreqLimitIsBounded` | crates/wattwarden-platform/src/linux/cpu.rs:238-268 | Whatever is requested, a changed node is a frequency window of a known CPU and lies in the discovered range |
| `Cpu.CpuGovernor.OnlineCores` | crates/wattwarden-platform/src/linux/cpu.rs:147-155 | Counts the first CPU and every other one whose node says 1 |
| `Cpu.CpuGovernor.SetOnlineCores` | crates/wattwarden-platform/src/linux/cpu.rs:157-172 | The loop switches the prefix on and the rest off, then re-applies the first CPU's limit when it is not 0; what that leaves in the nodes is `Cpu.HotplugReappliesTheLimit` and `Cpu.HotplugLeavesTheWindows` |
| `Cpu.OnlineSetIsAPrefix` | crates/wattwarden-platform/src/linux/cpu.rs:157-172 | After a hotplug request a CPU is online if and only if it is in the clamped prefix and can be switched |
| `Cpu.OnlineCountAfterHotplug` | crates/wattwarden-platform/src/linux/cpu.rs:147-172 | The count read back is one plus the number of switchable CPUs of the prefix |
| `Cpu.HotplugRoundTrip` | crates/wattwarden-platform/src/linux/cpu.rs:147-172 | Reading the count back gives the clamped request if and only if every CPU of the requested prefix after the first has an online node |
| `Cpu.HotplugReappliesTheLimit` | crates/wattwarden-platform/src/linux/cpu.rs:166-171 | When cpu0's `scaling_max_freq` holds at least 1000 kHz, every CPU with a cpufreq directory ends at the discovered floor and at that limit, in whole MHz, moved into the discovered range |
| `Cpu.HotplugLeavesTheWindows` | crates/wattwarden-platform/src/linux/cpu.rs:166-171 | When that node is missing, not a number or under 1000, or nothing was discovered, a hotplug request changes no frequency window |
| `Cpu.LimitOfFirstCpu` | crates/wattwarden-platform/src/linux/cpu.rs:226-236 | The limit read is that of cpu0's `scaling_max_freq`, in whole MHz cut to 32 bits, and 0 when negative or unreadable |
| `Cpu.BoundsOfDeclared` | crates/wattwarden-platform/src/linux/cpu.rs:194-224 | From the declared nodes: the range is the least declared floor and the greatest declared ceiling, in whole MHz and 32 bits, and none when they meet |
| `Cpu.NothingDeclaredNothingFound` | crates/wattwarden-platform/src/linux/cpu.rs:194-224 | Without a CPU that declares a usable range there is no range |
| `Cpu.FreqLimitFromDeclared` | crates/wattwarden-platform/src/linux/cpu.rs:238-268 | A request from the declared nodes: every CPU with a cpufreq directory ends at the floor and at the request moved to the nearer end; nothing changes when the ends meet |
| `Cpu.CpuGovernor.CpuIds` | crates/wattwarden-platform/src/linux/cpu.rs:59-65 | The CPUs are those discovered or, when none were, as many as the system reports, counted from 0 |
| `Cpu.CpuGovernor.SetTurboEnabled` | crates/wattwarden-platform/src/linux/cpu.rs:285-299 | One write, to `no_turbo` when it exists, else to `boost`, else none |
| `Cpu.TurboRoundTrip` | crates/wattwarden-platform/src/linux/cpu.rs:270-299 | Turbo reads back as set if and only if it was switched on or a knob exists |
| `Preference.ClosestIsFirstMinimum` | crates/wattwarden-platform/src/linux/cpu.rs:95-100 | The closest-preference search returns the first advertised token of least rank distance |
| `Preference.RefusedExactly` | crates/wattwarden-platform/src/linux/cpu.rs:89-101 | A request is dropped if and only if something is advertised, the request is not among it, and either the request or every advertised token is unknown |
| `Preference.ResolvedIsNearest` | crates/wattwarden-platform/src/linux/cpu.rs:84-101 | What is chosen is advertised and no known advertised token is nearer to the request |
| `Preference.ResolvingKeepsTheOrder` | crates/wattwarden-platform/src/linux/cpu.rs:22-28 | A request leaning further to power saving never resolves to something leaning further to performance |
| `Preference.ResolvingIsStable` | crates/wattwarden-platform/src/linux/cpu.rs:89-93 | Resolving a resolved preference changes nothing |
| `Preference.AdvertisedIsKept` | crates/wattwarden-platform/src/linux/cpu.rs:89-93 | An advertised request, or any where nothing is advertised, is written as it is |
| `Preference.KnownOrder` | crates/wattwarden-platform/src/linux/cpu.rs:20-28 | The order of the five known tokens, most performance first |
| `Gpu.GpuRange` | crates/wattwarden-platform/src/linux/gpu.rs:157-166 | A discovered range is proper: floor strictly below ceiling |
| `Gpu.GpuFreqFromDeclared` | crates/wattwarden-platform/src/linux/gpu.rs:157-210 | A request from the declared ends: the minimum node ends at the floor, the maximum node at the request moved to the nearer end, nothing else changes; with equal or inverted ends nothing does |
| `Gpu.NoEndsNoGpuWrite` | crates/wattwarden-platform/src/linux/gpu.rs:157-199 | With either end unreadable nothing is written |
| `Gpu.GpuRangeIsHardware` | crates/wattwarden-platform/src/linux/gpu.rs:144-166 | The range depends on no node that the tool writes |
| `Gpu.GpuController.SetGpuFreq` | crates/wattwarden-platform/src/linux/gpu.rs:191-210 | Writes the floor to the minimum node and the clamped request to the maximum node, or nothing without a range |
| `Gpu.MinimumFirstKeepsTheWindow` | crates/wattwarden-platform/src/linux/gpu.rs:191-210 | After both writes the window is in order and a readable maximum is the clamped request, whatever was there; between them it is in order if and only if there is no minimum node, no readable maximum, or one that is not below the floor |
| `Gpu.MaximumFirstBreaksTheWindow` | crates/wattwarden-platform/src/linux/gpu.rs:191-210 | The opposite order would be in order between the writes if and only if the old minimum is not above the new maximum |
| `Rapl.ConstraintIndex` | crates/wattwarden-platform/src/linux/rapl.rs:85-88 | The first of the five slots that carries the requested name, none if and only if no slot does |
| `Rapl.SlotRange` | crates/wattwarden-platform/src/linux/rapl.rs:105-120 | A discovered range of one constraint is proper and fits 32 bits |
| `Rapl.BoundsOf` | crates/wattwarden-platform/src/linux/rapl.rs:122-135 | The union over all zones: it covers every zone's range, exists if and only if some zone has one, and is always proper, so the unsigned difference in the scaling never underflows |
| `Rapl.BoundsOfAreTight` | crates/wattwarden-platform/src/linux/rapl.rs:122-135 | Both ends of the union belong to zones |
| `Rapl.BoundsOfAreHardware` | crates/wattwarden-platform/src/linux/rapl.rs:85-135 | The ranges depend on no node that the tool writes |
| `Rapl.RaplController.WriteConstraint` | crates/wattwarden-platform/src/linux/rapl.rs:143-172 | The loop over zones leaves each writable zone at its own clamp of the request, everything else as it was, and returns the first written value |
| `Rapl.LimitFromDeclared` | crates/wattwarden-platform/src/linux/rapl.rs:105-172 | One zone's limit node from what its nodes declare, for all values: ends cut to whole watts and 32 bits, the request moved to the nearer end, unchanged without a ceiling above the floor |
| `Rapl.RequestInRangeIsWritten` | crates/wattwarden-platform/src/linux/rapl.rs:105-172 | A request between the declared microwatts is written exactly; one under or over them leaves that end in whole watts |
| `Rapl.NoCeilingNoLimit` | crates/wattwarden-platform/src/linux/rapl.rs:105-113 | Without a readable positive `max_power_uw` the limit keeps its content |
| `Rapl.LimitsStayInTheZone` | crates/wattwarden-platform/src/linux/rapl.rs:143-172 | A written limit is at most that zone's own `max_power_uw` and under its `min_power_uw` by less than one watt |
| `Rapl.OtherNodesAreKept` | crates/wattwarden-platform/src/linux/rapl.rs:143-172 | Zones that are not listed or not writable, and all other nodes, are unchanged |
| `Rapl.ReportedWattsAreInForce` | crates/wattwarden-platform/src/linux/rapl.rs:143-172 | The returned value is what the first writable zone now holds; without a writable zone nothing is written |
| `Rapl.LimitReadsBack` | crates/wattwarden-platform/src/linux/rapl.rs:143-226 | Setting a limit and reading it: the zone's clamp of the request when the first zone exposing the constraint can be written, else the old reading |
| `Backlight.DisplayManager.BrightnessPercent` | crates/wattwarden-platform/src/linux/backlight.rs:59-84 | The loop answers for the first device with a positive maximum, else with what the helper tool reports |
| `Backlight.DisplayManager.SetBrightnessPercent` | crates/wattwarden-platform/src/linux/backlight.rs:86-103 | The node writes: every usable device at its share of the clamped percentage, other nodes unchanged |
| `Backlight.BrightnessFromDeclared` | crates/wattwarden-platform/src/linux/backlight.rs:86-98 | A device ends at the largest raw value within the share of its declared maximum, for a percentage moved into 1..100; one without a positive maximum keeps its content |
| `Backlight.ReadingFromDeclared` | crates/wattwarden-platform/src/linux/backlight.rs:59-71 | The reading is the truncated percentage of the first device with a positive maximum, held to 255, 0 for an unreadable brightness |
| `Backlight.NoDeviceAsksTheHelper` | crates/wattwarden-platform/src/linux/backlight.rs:59-84 | Without such a device the helper's report is the reading |
| `Backlight.TruncatedTwice` | crates/wattwarden-platform/src/linux/backlight.rs:59-103 | Scaling up and back loses at most the truncation: exact if and only if 100 divides p times max |
| `Backlight.BrightnessRoundTrip` | crates/wattwarden-platform/src/linux/backlight.rs:59-103 | Setting p and reading gives p if and only if 100 divides p times max, and p or p-1 for a maximum of at least 100 |
| `Backlight.BrightnessLoop.ApplyBrightnessStep` | crates/wattwarden-daemon/src/daemon.rs:249-275 | One tick writes if and only if the target is new or the reading differs, and remembers the target |
| `Backlight.TargetTable` | crates/wattwarden-daemon/src/daemon.rs:249-263 | The percentage for each kind of window and each level |
| `Backlight.BrightnessLoopGoesQuiet` | crates/wattwarden-daemon/src/daemon.rs:265-273 | With an unchanged target, and no helper tool, the tick after a write is silent if and only if 100 divides target times max; otherwise it rewrites the same value for ever |
| `Backlight.LoopIsQuietAfterHelperExactly` | crates/wattwarden-platform/src/linux/backlight.rs:86-103 | When the helper tool leaves another raw value after the node writes, the next tick is silent if and only if that value reads as the target |
| `Ladder.PowerMono` | crates/wattwarden-daemon/src/daemon.rs:306-309 | More load never lowers the quantised power step |
| `Ladder.FourSteps` | crates/wattwarden-daemon/src/daemon.rs:307-309 | The step of a non-negative load is 0, 1/3, 2/3 or 1 |
| `Ladder.StepIsNearestThird` | crates/wattwarden-daemon/src/daemon.rs:307-309 | The step is within a sixth of the capped load per CPU |
| `Ladder.CoreCeilingIsLeast` | crates/wattwarden-daemon/src/daemon.rs:28-40 | From two CPUs on the ceiling is the least number of cores, at least 2, that covers the level's share |
| `Ladder.RampIsNearest` | crates/wattwarden-daemon/src/daemon.rs:42-47 | The ramp is within half a core of the exact interpolation |
| `Ladder.CoreRampEnds` | crates/wattwarden-daemon/src/daemon.rs:26-47 | Cores run from 1 to exactly the ceiling, and are not flat on two or more CPUs |
| `Ladder.RampMono` | crates/wattwarden-daemon/src/daemon.rs:42-47 | The core ramp is monotone in ceiling and step together |
| `Ladder.StagedAgainstDirect` | crates/wattwarden-daemon/src/daemon.rs:49-57 | The two-stage truncated formula and the one-stage one agree to within one unit, staged below direct, both inside the range |
| `Ladder.ScaleIsTruncation` | crates/wattwarden-daemon/src/daemon.rs:49-57 | One-stage scaling is the truncation of the exact interpolation in the level's share of the range |
| `Ladder.LadderIsMonotone` | crates/wattwarden-daemon/src/daemon.rs:306-363 | More load, or a level in the order High, Medium, Low, never lowers cores, frequencies or power limits and never turns turbo off |
| `Ladder.FullLoadReachesTheTopExactly` | crates/wattwarden-daemon/src/daemon.rs:311-357 | Full load reaches the top of a discovered range at level Low and at no other |
| `LadderInIntegers.StepInThirds` | crates/wattwarden-daemon/src/daemon.rs:306-309 | Which of the four steps a load falls on: the turning points are a sixth, a half and five sixths of the CPUs |
| `LadderInIntegers.TargetsInIntegers` | crates/wattwarden-daemon/src/daemon.rs:306-363 | Every target of a tick, cores, both frequencies, both package limits and turbo, as a whole-number function of the load, the CPU count and the discovered ends |
| `LadderInIntegers.TurboNodeByLoad` | crates/wattwarden-daemon/src/daemon.rs:358-386 | Read off the node after a tick: turbo on if and only if the load is at least five sixths of the CPUs at High, a half at Medium, a sixth at Low; `boost` only without `no_turbo` |
| `LadderInIntegers.FullLoadNodes` | crates/wattwarden-daemon/src/daemon.rs:311-339 | Read off the nodes at full load: windows and GPU at two fifths of the range at High, seven tenths at Medium, the top at Low |
| `Backend.LinuxBackend.ApplyLogicStep` | crates/wattwarden-daemon/src/daemon.rs:281-414 | One tick computes its targets from discovery and makes its writes in order; a disabled mode writes nothing; the targets themselves are `LadderInIntegers.TargetsInIntegers` |
| `Backend.LinuxBackend.ApplyPackageLimits` | crates/wattwarden-daemon/src/daemon.rs:341-356 | Each package limit is scaled inside its own discovered range, skipped without one |
| `Backend.LinuxBackend.ApplyProfile` | crates/wattwarden-platform/src/linux/mod.rs:115-225 | The setter calls of a profile, in the program's order, as one function of the store; what they leave is `ProfileEffect.ProfileClosedForm` |
| `Backend.LinuxBackend.Adjust` | crates/wattwarden-tui/src/app.rs:983-1156 | A dashboard press reads one control, steps it and sets it; what each press leaves is stated item by item in `Presses` |
| `Presses.CoresPress` | crates/wattwarden-tui/src/app.rs:990-1088 | With c CPUs online, right leaves c + 1 and left c - 1, at most all and at least one |
| `Presses.FreqPress` | crates/wattwarden-tui/src/app.rs:1001-1096 | 100 MHz from cpu0's limit, in every window, held inside the discovered range; up wraps at 32 bits |
| `Presses.GpuPress` | crates/wattwarden-tui/src/app.rs:1009-1106 | 50 MHz from the card's maximum, held inside the declared range |
| `Presses.RaplPress` | crates/wattwarden-tui/src/app.rs:1019-1126 | Two watts from the reading of the first zone exposing the row's constraint, in every writable zone, each held inside its own range; the wider displayed range never shows |
| `Presses.TurboPress` | crates/wattwarden-tui/src/app.rs:1039-1134 | One knob turns over: `no_turbo` where it exists, else `boost`; any other content than the enabling one counts as off |
| `Presses.BrightnessPress` | crates/wattwarden-tui/src/app.rs:1047-1147 | Five percent from the reading, held inside 1..100, in every usable device; up wraps at 256 |
| `Presses.NoRangeNoPress` | crates/wattwarden-tui/src/app.rs:983-1156 | Without a discovered range, card, writable zone or usable device a press writes nothing: display fallbacks never reach a node |
| `NoRatchet.StepWrites` | crates/wattwarden-platform/src/linux/mod.rs:115-225 | Every tick, profile, press and brightness write changes only existing nodes of discovered controls, to numbers in the hardware's envelope |
| `NoRatchet.RunKeepsHardware` | crates/wattwarden-platform/src/linux/cpu.rs:178-193 | Over any interleaving, with arbitrary outside changes to the mutable nodes, discovery nodes keep their content |
| `NoRatchet.RangesNeverMove` | crates/wattwarden-platform/src/linux/cpu.rs:178-193 | No ratchet: after any run the CPU, GPU and both package ranges are exactly what they were |
| `NoRatchet.EveryValueHasAnAuthor` | crates/wattwarden-daemon/src/daemon.rs:281-414 | Whatever a node holds after a run was there at the start, was put there from outside, or lies in the envelope declared at the start |
| `NoRatchet.UndiscoveredIsUntouched` | crates/wattwarden-platform/src/linux/cpu.rs:189-193 | A control without a discovered range ends as the same run without any step of the tool would leave it |
| `LadderEffect.LadderClosedForm` | crates/wattwarden-daemon/src/daemon.rs:377-386 | Node by node, what the whole sequence of setters of a tick leaves, in closed form |
| `LadderEffect.LadderForgetsTheRun` | crates/wattwarden-daemon/src/daemon.rs:281-414 | After any run, whatever nodes came or went, a tick leaves in each of its nodes that is still there the number it would have left at the start; for `boost`, while `no_turbo` has neither come nor gone |
| `LadderEffect.HiddenBoostIsLeft` | crates/wattwarden-platform/src/linux/cpu.rs:285-299 | The excepted case: once `no_turbo` has appeared, a tick leaves `boost` as it is |
| `LadderEffect.LadderIsIdempotent` | crates/wattwarden-daemon/src/daemon.rs:281-414 | Repeating a tick under the same load changes nothing |
| `LadderEffect.LadderNodesAreMonotone` | crates/wattwarden-daemon/src/daemon.rs:281-414 | More load or a more permissive level never tightens any node of the hardware |
| `ProfileEffect.ProfileClosedForm` | crates/wattwarden-platform/src/linux/mod.rs:115-225 | Node by node, what a profile leaves: every core switched, each frequency and GPU window, turbo and each backlight at its end, and each zone's limit at the end of that zone's own range; nothing else changes |
| `ProfileEffect.EndOfZone` | crates/wattwarden-platform/src/linux/mod.rs:124-131 | The union's end, which is what a profile requests, clamped into one zone is that zone's own end |
| `ProfileEffect.ProfileForgetsTheRun` | crates/wattwarden-platform/src/linux/mod.rs:115-225 | After any run a profile leaves in each of its nodes what it would have left before it |
| `ProfileEffect.LowAtFullLoadIsPerformance` | crates/wattwarden-daemon/src/daemon.rs:281-414 | At full load level Low leaves every modelled node, backlights aside, exactly as the Performance profile does |
| `Threshold.ChargeThreshold.Threshold` | crates/wattwarden-platform/src/linux/threshold.rs:172-181 | The first readable end, clamped to 1..100 |
| `Threshold.ReadingIsTheFirst` | crates/wattwarden-platform/src/linux/threshold.rs:172-181 | There is a reading if and only if some end can be read, and it is the first such one |
| `Threshold.Accepted` | crates/wattwarden-platform/src/linux/threshold.rs:191 | A request is kept inside 20..100 and moved to the nearer end outside |
| `Threshold.ChargeThreshold.WriteNode` | crates/wattwarden-platform/src/linux/threshold.rs:133-158 | Mode, start when it blocks, end, read-back: the resulting battery and whether the value stuck |
| `Threshold.ChargeThreshold.SetThreshold` | crates/wattwarden-platform/src/linux/threshold.rs:183-208 | The loop delivers the clamped value to every battery and succeeds if and only if one took it |
| `Threshold.OrderIsNeverBroken` | crates/wattwarden-platform/src/linux/threshold.rs:130-150 | With firmware that guards start below end: the lowered start is never rejected for the order, the end write if and only if the blocking start cannot be moved or firmware lands it no lower than the request, and the window is in order after each write |
| `Threshold.WindowsStayOrdered` | crates/wattwarden-platform/src/linux/threshold.rs:183-208 | Over any run of calls and outside changes that keep windows in order, all windows stay in order |
| `Threshold.StartMovesOnlyWhenBlocking` | crates/wattwarden-platform/src/linux/threshold.rs:130-149 | The start changes only when it blocks, and then lands where firmware puts five below the request |
| `Threshold.CustomModeIsSelected` | crates/wattwarden-platform/src/linux/threshold.rs:134-143 | A switchable charge-mode selector ends on Custom; without one nothing is written |
| `Threshold.WindowAfterNode` | crates/wattwarden-platform/src/linux/threshold.rs:133-158 | Where start and end of a battery stand after a call, in terms of the battery before it |
| `Threshold.NodeOkExactly` | crates/wattwarden-platform/src/linux/threshold.rs:133-158 | A node takes the value if and only if its end is writable, no start that firmware insists on stands in the way, and firmware lands the value at face value: all known before the call |
| `Threshold.SetSucceedsExactly` | crates/wattwarden-platform/src/linux/threshold.rs:183-208 | The call succeeds if and only if some node meets that condition, whatever the other nodes do |
| `Threshold.ReadBackMeansOkExactly` | crates/wattwarden-platform/src/linux/threshold.rs:183-208 | Success implies that some node reads the value back; the converse holds if and only if some node takes the value, or no node that cannot take it stands at it already |
| `Threshold.ReadOnlyNodeFails` | crates/wattwarden-platform/src/linux/threshold.rs:150-157 | An input where the converse fails: a read-only node that already holds the value |
| `Threshold.WindowIsKeptExactly` | crates/wattwarden-platform/src/linux/threshold.rs:133-158 | A call moves neither end of a battery's window if and only if the lowered start and the value land where start and end are, or are not taken; the battery is unchanged if its mode is kept too |
| `Threshold.PlainTakesIt` | crates/wattwarden-platform/src/linux/threshold.rs:133-158 | A battery that takes writes at face value ends at the request, its start moved only if it blocked |
| `Calibration.Machine.Start` | crates/wattwarden-core/src/calibrate.rs:88-117 | Refuses during a calibration or without hardware; else lifts the ceiling and records what it was, if the record can be saved; the phase it records is `Calibration.PhaseFromStart` |
| `Calibration.Machine.Status` | crates/wattwarden-core/src/calibrate.rs:120-134 | Advances the recorded phase by one observation |
| `Calibration.Machine.Finish` | crates/wattwarden-core/src/calibrate.rs:137-156 | Restores the recorded threshold and forgets it, or keeps the record when the restore fails |
| `Calibration.PhaseIsHistory` | crates/wattwarden-core/src/calibrate.rs:64-70 | The phase is Recharge if and only if some observation was full and a strictly later one drained on battery; Charge if and only if none was full |
| `Calibration.PhaseNeverGoesBack` | crates/wattwarden-core/src/calibrate.rs:64-70 | Over any run the phase never goes back and moves at most one step per observation |
| `Calibration.WalkPhase` | crates/wattwarden-core/src/calibrate.rs:120-134 | The recorded phase is the phase of exactly the observations that were readable and saved |
| `Calibration.PhaseFromStart` | crates/wattwarden-core/src/calibrate.rs:64-134 | After a start that succeeds the recorded phase is decided by the recorded observations alone: Charge until one was full, Recharge if and only if a later one was drained on battery; the saved threshold is the one read at the start |
| `Calibration.WalkingWritesNothing` | crates/wattwarden-core/src/calibrate.rs:88-134 | Any number of status calls and refused starts leaves hardware and saved threshold alone |
| `Calibration.CalibrationRoundTrip` | crates/wattwarden-core/src/calibrate.rs:88-156 | On batteries that take writes at face value, start, any walk, finish: every window is back if and only if all batteries shared one threshold of at least 20; the record is gone in any case |
| `Calibration.RefusedCommandsWriteNothing` | crates/wattwarden-core/src/calibrate.rs:88-140 | A second start and a finish without a record change nothing |
| `Calibration.FailedRestoreCanBeRetried` | crates/wattwarden-core/src/calibrate.rs:137-149 | A failed restore keeps the record, and finishing again on repaired hardware restores the threshold |
| `Calibration.UnknownThresholdStaysLifted` | crates/wattwarden-core/src/calibrate.rs:150-154 | With no readable threshold to save, finishing leaves the ceiling at 100 |
| `Calibration.FailedStartKeepsWindowsExactly` | crates/wattwarden-core/src/calibrate.rs:88-117 | A start that reports failure, for any reason and on any firmware: the windows are as they were if and only if a calibration was recorded or no battery's window is moved by the lift; a failed lift or save leaves no record, so finishing changes nothing |
| `Calibration.FailedStartOnPlainExactly` | crates/wattwarden-core/src/calibrate.rs:88-117 | On batteries that take writes at face value: if and only if a calibration was recorded or every end was at 100 |
| `Calibration.FailedSaveStrandsTheCeiling` | crates/wattwarden-core/src/calibrate.rs:101-109 | The first case: the record cannot be saved, the ceiling is lifted and nothing is left to restore it |
| `Calibration.FailedLiftMovesTheWindow` | crates/wattwarden-core/src/calibrate.rs:101-104 | The second case: firmware lands 100 at 90, start fails with the end at 90 and the old 80 forgotten |
| `Calibration.CeilingStaysLifted` | crates/wattwarden-cli/src/main.rs:265-268 | During a calibration, on batteries that take writes at face value, under ticks and outside changes in any order: the ceiling stays at 100 throughout if and only if no tick that meets a battery carries a limit below 100 and no outside step leaves an end elsewhere; the command itself stops no daemon |
| `Calibration.Machine.EnforceChargeLimit` | crates/wattwarden-daemon/src/daemon.rs:431-455 | One tick writes if and only if a limit is set, hardware exists and the reading differs |
| `Calibration.EnforcementConverges` | crates/wattwarden-daemon/src/daemon.rs:426-455 | After any firmware change one tick brings a limit of 20..100 in force when the first readable battery takes writes at face value, and later ticks write nothing |
| `Calibration.EnforcementIsQuietExactly` | crates/wattwarden-daemon/src/daemon.rs:431-455 | After a writing tick the next one writes again if and only if the limit is outside 20..100 |
| `Calibration.NoLimitNoWrites` | crates/wattwarden-daemon/src/daemon.rs:427-434 | With no limit configured no tick changes anything |
| `InstanceLock.PidManager.IsRunning` | crates/wattwarden-daemon/src/pid.rs:74-83 | Undisturbed, the probe answers whether the lock is owned and leaves every lock and the anchor's content as they were; an anchor that cannot be opened answers no |
| `InstanceLock.PidManager.Acquire` | crates/wattwarden-daemon/src/pid.rs:94-118 | Undisturbed, succeeds if and only if the anchor opens, truncates and the lock is free; then it keeps the guard and the anchor names its own process; on failure every lock and the anchor's content are as they were |
| `InstanceLock.PidManager.RecordedPid` | crates/wattwarden-daemon/src/pid.rs:85-92 | Reads the id that the anchor holds |
| `InstanceLock.PidNamesTheDaemonAlways` | crates/wattwarden-daemon/src/pid.rs:94-118 | Over every interleaving in which nobody else writes or removes the anchor: while a daemon runs the anchor names its process, whatever an earlier one left there |
| `InstanceLock.PidIsRightExactly` | crates/wattwarden-daemon/src/pid.rs:85-118 | At every point of such a run the anchor names a running daemon if and only if there is one |
| `InstanceLock.PidOutlivesTheDaemon` | crates/wattwarden-daemon/src/pid.rs:120-125 | Neither release nor death takes the id back |
| `InstanceLock.OthersAreUntouched` | crates/wattwarden-daemon/src/pid.rs:62-125 | No step of another manager and no other process's death changes a manager or takes its lock |
| `InstanceLock.PidManager.Release` | crates/wattwarden-daemon/src/pid.rs:120-125 | Drops the guard, frees the lock, leaves the anchor in place |
| `InstanceLock.StepKeepsInv` | crates/wattwarden-daemon/src/pid.rs:62-125 | Every single system call of every manager, and every process death, keeps the invariant: descriptions owned, one inode, locks held by live descriptions |
| `InstanceLock.RunKeepsInv` | crates/wattwarden-daemon/src/pid.rs:62-125 | The invariant holds after any interleaving of any number of managers |
| `InstanceLock.AtMostOneDaemon` | crates/wattwarden-daemon/src/pid.rs:30-34 | Mutual exclusion over every interleaving with process deaths, as long as nobody unlinks the anchor |
| `InstanceLock.AnchorIsForever` | crates/wattwarden-daemon/src/pid.rs:120-123 | The path keeps naming the inode it named first |
| `InstanceLock.RefusedExactlyWhenOwned` | crates/wattwarden-daemon/src/pid.rs:95-107 | A lock attempt is refused if and only if some live description, of a daemon or of a transient probe, holds the lock at that moment |
| `InstanceLock.ProbeNeverMissesADaemon` | crates/wattwarden-daemon/src/pid.rs:74-83 | A probe never answers no while a daemon holds the lock |
| `InstanceLock.DeathFreesTheLock` | crates/wattwarden-daemon/src/pid.rs:74-76 | Death of the owner's process frees the lock at once |
| `InstanceLock.FreeLockIsAcquired` | crates/wattwarden-daemon/src/pid.rs:95-118 | With the lock free, an undisturbed acquisition makes the manager the daemon |
| `InstanceLock.ReleaseFreesTheLock` | crates/wattwarden-daemon/src/pid.rs:120-125 | After release nobody holds the lock |
| `InstanceLock.RunIgnoresContent` | crates/wattwarden-daemon/src/pid.rs:85-93 | Stale or scribbled file content never changes how any run goes |
| `InstanceLock.UnlinkingBreaksExclusion` | crates/wattwarden-daemon/src/pid.rs:120-123 | The reason given for leaving the anchor: with an unlink in release two daemons can run |
| `InstanceLock.ProbesCanCollide` | crates/wattwarden-daemon/src/pid.rs:74-83 | With no daemon ever started, a probe in flight makes another probe answer yes |
| `InstanceLock.AnswerIsRightExactly` | crates/wattwarden-daemon/src/pid.rs:74-107 | A refused lock attempt tells whether a daemon runs if and only if no other call holds the lock at that moment |
| `InstanceLock.AnswersOverRuns` | crates/wattwarden-daemon/src/pid.rs:74-107 | The same at every point of every run without an unlink |
| `Layout.ComputeLayout` | crates/wattwarden-tui/src/ui.rs:107-201 | The layout threading its next free row equals the staged description |
| `Layout.HeaderExactly` | crates/wattwarden-tui/src/ui.rs:110-131 | The logo from 72 by 28, else the title from 16 by 4, else nothing; in the second row, centred to within a column |
| `Layout.RowsExactly` | crates/wattwarden-tui/src/ui.rs:134-144 | When summary and footer appear and in which row, and the rows left for the content between them |
| `Layout.PlacesExactly` | crates/wattwarden-tui/src/ui.rs:146-192 | When the plot stands beside the menu or above it, and the place and size of both |
| `Layout.SplitTiles` | crates/wattwarden-tui/src/ui.rs:86-104 | The vertical split tiles its rows exactly from 7 rows on, plot 3..20 rows, at least one menu row |
| `Layout.LayoutTilesExactly` | crates/wattwarden-tui/src/ui.rs:146-192 | The layout uses every content row if and only if it is wide, has 40 columns or has under 7 content rows; otherwise at least six rows stay empty |
| `Layout.LayoutIsSafe` | crates/wattwarden-tui/src/ui.rs:53-55 | For every width of at least 2 and every height: each block is on the screen and no two blocks share a cell |
| `Layout.DisjointMeansNoSharedCell` | crates/wattwarden-tui/src/ui.rs:53-55 | The disjointness used above is exactly the absence of a common cell |
| `Layout.MenuFitsExactly` | crates/wattwarden-tui/src/ui.rs:107-201 | The menu is on the screen if and only if there are at least two columns |
| `Layout.PlotAppearsExactly` | crates/wattwarden-tui/src/ui.rs:150-196 | The wide layout always has a plot, the stacked one if and only if it has 7 content rows and 40 columns, and a plot region is never too small to draw |
| `Layout.IndicatorsHaveTheirOwnRows` | crates/wattwarden-tui/src/ui.rs:495-508 | The lower scroll indicator covers no block; the upper one covers a menu row if and only if the menu starts on the first row |
| `Layout.ScrollbarHasItsOwnColumn` | crates/wattwarden-tui/src/ui.rs:563-589 | The scrollbar column is on the screen and crosses no block |
| `Plot.ScaleFitsExactly` | crates/wattwarden-tui/src/ui.rs:66-84 | The scale is the smallest step with 20% headroom; it has the headroom if and only if 1.2 times the peak is at most 500, and covers the peak if and only if the peak is at most 500 |
| `Plot.ScaleTable` | crates/wattwarden-tui/src/ui.rs:70-84 | Each of the sixteen steps is taken when it, but not the one before, reaches 1.2 times the peak |
| `Plot.DrawBarGraph` | crates/wattwarden-tui/src/ui.rs:327-424 | The drawing loops leave every screen cell as the plot's cell function says, and nothing at all below 34 columns or 3 rows |
| `Plot.DrawColumn` | crates/wattwarden-tui/src/ui.rs:378-394 | The row loop of one bar fills from the bottom up as far as the dots go, other cells unchanged |
| `Plot.DrawGraphBlock` | crates/wattwarden-tui/src/ui.rs:299-314 | The plot of a history is drawn against the scale of its peak |
| `Plot.ColumnsShowTheNewest` | crates/wattwarden-tui/src/ui.rs:363-376 | The columns show exactly the newest samples that fit, in order, against the right edge |
| `Plot.DotsAreTheShare` | crates/wattwarden-tui/src/ui.rs:380-382 | The dots are the truncated share of all dots, none at zero and below, all at the scale and above |
| `Plot.DotsAreConserved` | crates/wattwarden-tui/src/ui.rs:378-394 | On a cleared screen the cells of a column add up to exactly the dots of its sample; a column without a sample stays empty |
| `Plot.BarsAreFilledFromTheBottom` | crates/wattwarden-tui/src/ui.rs:384-389 | Under a cell with dots every cell is full, and no cell has more than eight |
| `Plot.PlotStaysInItsBlock` | crates/wattwarden-tui/src/ui.rs:327-424 | The plot changes nothing outside its layout block and no bar reaches the right axis |
| `Plot.AxesExactly` | crates/wattwarden-tui/src/ui.rs:336-424 | Where the three axes and the bars stand, and that nothing is drawn under 34 columns or 3 rows |
| `Plot.CaptionRowIsLeftAlone` | crates/wattwarden-tui/src/ui.rs:299-314 | The caption row is left alone, bars fill the rows below it and the axis the one after them |
| `Plot.DotsAreMonotone` | crates/wattwarden-tui/src/ui.rs:380-382 | A higher sample never gets fewer dots |
| `Plot.PeakKeepsHeadroom` | crates/wattwarden-tui/src/ui.rs:66-69 | While the peak leaves headroom no bar uses more than five sixths of the plot, and from six rows on the top row stays free |
| `Plot.BarsAreCutExactly` | crates/wattwarden-tui/src/ui.rs:70-84 | Some sample exceeds the scale if and only if the peak exceeds 500 W |
| `Menu.StepSelection` | crates/wattwarden-tui/src/app.rs:180-196 | The walking loops return the nearest entry in the given direction, or stay |
| `Menu.StepIsNearest` | crates/wattwarden-tui/src/app.rs:177-196 | A step lands on an entry with only headers passed over, and stays only when none is left; there is no wrap-around |
| `Menu.StepsAreInverse` | crates/wattwarden-tui/src/app.rs:706-714 | Down then Up (or Up then Down) comes back if and only if the first moved or the second cannot |
| `Menu.StartsAtTheFirstEntry` | crates/wattwarden-tui/src/app.rs:309-317 | A fresh menu has its first entry selected and is not scrolled |
| `Menu.EveryEntryIsReachable` | crates/wattwarden-tui/src/app.rs:180-196 | Repeating one key gets from any entry to any other in that direction |
| `Menu.SelectionIsAnEntry` | crates/wattwarden-tui/src/app.rs:309-310 | Over any run of keys and redraws the selection is never a header, in a menu with any entry |
| `Menu.App.NextMenu` | crates/wattwarden-tui/src/app.rs:706-708 | Down moves the selection one step forward and nothing else |
| `Menu.App.PrevMenu` | crates/wattwarden-tui/src/app.rs:712-714 | Up moves the selection one step back and nothing else |
| `Menu.App.ScrollIntoView` | crates/wattwarden-tui/src/ui.rs:485-493 | Drawing adjusts only the scroll offset |
| `Menu.SelectedIsVisible` | crates/wattwarden-tui/src/ui.rs:485-493 | After a redraw the selected row is in the window, and no window containing it is nearer to the old one |
| `Menu.ThumbInTrackExactly` | crates/wattwarden-tui/src/ui.rs:575-589 | The thumb stays in its track if and only if (scroll - (len - v)) * (v - thumb) < len - v |
| `Menu.ThumbEnds` | crates/wattwarden-tui/src/ui.rs:575-578 | The thumb is at the very top for the first window and at the very bottom for the last |
| `Menu.ThumbIsTheVisibleShare` | crates/wattwarden-tui/src/ui.rs:576 | The thumb's height is the visible share of the track in whole rows, at least one |
| `Menu.ThumbFollowsTheScroll` | crates/wattwarden-tui/src/ui.rs:577-578 | Its position is the scrolled share of the room left for it |
| `Menu.ThumbStaysInItsTrack` | crates/wattwarden-tui/src/ui.rs:485-589 | Over any run of keys and redraws in which the menu never gets taller, the thumb is in its track at every redraw and no row is wasted past the end |
| `Menu.GrowingPushesTheThumbOut` | crates/wattwarden-tui/src/ui.rs:575-589 | One growth is enough: a concrete run that draws the thumb past its track |
| `Menu.FitIsAPrefix` | crates/wattwarden-tui/src/ui.rs:444-455 | The result has the smaller of length and width; it is uncut if and only if the text fits, and a cut keeps a prefix and ends in three dots when the width allows |
| `Menu.RowsAreExactlyAsWide` | crates/wattwarden-tui/src/ui.rs:457-475 | Every row has exactly the menu's width for all texts and widths; nothing is cut off if and only if prefix, value field and two columns fit |
| `Menu.ValueFieldWidth` | crates/wattwarden-tui/src/ui.rs:463 | The value field is a third of the row, between 5 and 15 columns, and never the whole row |
| `Menu.ValuesAreRightAligned` | crates/wattwarden-tui/src/ui.rs:459-475 | With the three-column markers, rows are uncut if and only if the menu has ten columns, and then marker and name start the row and the value ends at the right edge |

## Left out

- Floating-point rounding: loads, level ceilings, samples and scales are exact reals, with the ceilings 4/10, 7/10 and 1 and the steps k/3. Casts to integers truncate and saturate as in Rust; loads are taken as non-negative in the monotonicity results, NaN does not occur.
- Text in numeric nodes is canonical decimal: a node with leading zeros or a plus sign, which Rust also parses, is not modelled. A write that the kernel refuses or rounds on CPU, GPU, package-power or backlight nodes is an outside change right after the write.
- Node discovery itself (directory listings, GPU card order, device symlinks, powercap paths): the found CPUs, zones and devices are given.
- Casts of microwatts and kilohertz to 32 bits truncate explicitly in the model; the `cur + 100` style additions of the dashboard wrap as in release builds.
- Cpu.BoundsAgainstCpuinfo: assumes that declared frequencies fit 32 bits once in MHz; beyond that the cast wraps.
- Rapl.LimitsStayInTheZone: assumes that a declared minimum fits 32 bits once in watts; beyond that the cast wraps.
- Backlight.BrightnessRoundTrip: assumes that percentage times maximum fits the signed 64-bit read; the multiplication itself is unbounded in the model.
- Energy preference, governor, ASPM, keyboard light, Wi-Fi, audio, watchdog and writeback writes of ticks and profiles: single writes of text with one branch, disjoint from the modelled nodes. The energy preference is modelled only as a choice, in `Preference`.
- Backlight.DisplayManager.SetBrightnessPercent: makes the node writes only; the call of the external `brightnessctl` that follows is an outside change of the brightness nodes, and what that tool reports is a parameter.
- Backlight.BrightnessLoopGoesQuiet: without that tool; with it, see `Backlight.LoopIsQuietAfterHelperExactly`.
- Gpu.MinimumFirstKeepsTheWindow: about the two nodes as written, not about a driver that moves them.
- Calibration.CeilingStaysLifted: batteries that outside changes leave take writes at face value too; what a refusing battery does to a lift is `Calibration.FailedStartKeepsWindowsExactly`.
- Battery discovery by name and a battery whose nodes appear or vanish between the writes of one call; firmware acts between calls only. A charge-mode selector is on Custom or not.
- Removing the calibration record always succeeds in the model; the program ignores a failure there.
- A write of the process id that fails after the truncation, which leaves the anchor empty; the anchor's permissions; lock errors other than contention.
- InstanceLock.PidNamesTheDaemonAlways: for runs in which nobody outside the program writes or removes the anchor.
- Naming the focused window a terminal, a heavy page or neither: a search for program names in its class; the answer is a parameter of the brightness step.
- The loop that draws the menu rows and its markers, and the texts of the scroll indicators: their width, place and window are modelled.
- InstanceLock.AtMostOneDaemon: assumes that nobody outside the program unlinks or replaces the anchor.
- Plot.DrawBarGraph: takes a positive scale, which every value of `graph_scale` is; the watt labels, colours and glyphs are left out; a cell keeps its axis mark or its number of dots. Column and row numbers are unbounded, which the casts to 16 bits do not change for cells on the screen.
- Layout.LayoutIsSafe: text longer than its block is clipped at the screen edge by the program and is not part of the geometry; toasts and the confirmation dialog are drawn over everything.
- Menu.RowsAreExactlyAsWide: one character is one column; wide characters are not modelled.
- Logging, configuration files, the health log's other fields, signals and timers, sockets, service installation, the command line and the macOS backend.
