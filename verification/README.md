# Argon ONE UP support software: a Dafny model of its core

This project models the decision-making core of the Argon40 support
software for the Argon ONE UP laptop case, and proves properties about it.
It covers four parts.

- **The system monitors** (`monitor/`, `monitor1up.py`):
  - the block-device counter readers (`DriveStats` / `DriveStat`, three
    near-identical copies) and the `multiDriveStat` drive filter;
  - the per-core CPU load (`CPULoad`, in its two variants);
  - the `smartctl -A` temperature extractors and the fan-speed readers;
  - the `argonsysinfo_kbstr` size formatter and the configuration reader;
  - the rolling charts of `oneUpMon.py`: the trimming window, the unit
    ladder (`scaleValues`), the axis fit (`getBestFit`), the auto-scaling
    append of the I/O chart, and the `None` fallbacks of `refresh_metrics`.
- **The battery kernel drivers** (`battery/`):
  - `oneUpPower.c`: the capacity level and status derivation, the AC and
    charge register checks, the property getters, and the exit state;
  - `dummy_battery.c`: the simulated battery, with its tick, getters,
    setters and writeable set;
  - `test_power.c`: the module-parameter tables (`map_get_value`,
    `map_get_key`), the parameter getters and setters, and the property
    getters.
- **The keyboard helper** (`pythonscript/latest/argonkeyboard.py`):
  - the battery log parse;
  - the device-list comparison;
  - the brightness and volume reads and adjustments;
  - the press and hold dispatch with its guard times;
  - the lock-guarded action step.

## How the model is built

Everything is a pure function over immutable datatypes. The only methods
are the loop-carrying ones:

- `RollingChart.SearchCutoff`, the binary search of the chart trim, and
  `RollingChart.TrimSeries`, the trim built on it;
- `Sensors.KbStr`, the size formatter as written, with
  `Sensors.KbStrMeaning`, the same loop stated through the magnitude of the
  value, and `Sensors.KbStrCapped`, the formatter that stops at the last
  unit;
- `Keyboard.DeviceChanged`.

Several things the programs touch become inputs:

- What a file read or a shell command returned is a `Command`: the text,
  a failed read, or a failed launch.
- Python's `float()` is a parameter of type `string -> Option<real>`,
  where `None` stands for `ValueError`.
- The I2C register values and the clock are plain numbers.

Python exceptions are a `Result` whose error names the exception class
that escapes.

Kernel callbacks return a `PowerSupply.Reply`. It is the `intval` or the
`strval` stored, or a negative errno. The enum numbering of
`linux/power_supply.h` and the errno values are stated in the
`PowerSupply` module. That header is not part of this model.

Where the written code and its documentation disagree, the model follows
the code:

- a counter that went backwards gives a negative delta, with no clamp;
- an interval with no elapsed jiffies raises `ZeroDivisionError`;
- the aggregate `cpu` row of `/proc/stat` is not a core;
- a chart keeps one point older than its window after a unit change.

## Model

| member | source | states |
|---|---|---|
| BlockStats.FirstLine | monitor/systemsupport.py:61-62 | `readline()` yields a prefix of the file with no newline before its last character: the text through the first newline when there is one, otherwise the whole text |
| BlockStats.StatTextParses | monitor/systemsupport.py:61-63 | a stat line of decimal counters reads back as those counters: leading padding, runs of spaces between fields and the final newline are all dropped, for every list of counters |
| BlockStats.ReadStats | monitor/systemsupport.py:59-65 | `_last` always takes the old snapshot; `_stats` is replaced exactly when the whole line parsed; a failed read is swallowed in the printing copies and escapes as NameError in monitor1up.py |
| BlockStats.RaisingVariantReportsFailedRead | monitor1up.py:59-65 | in monitor1up.py a failed stat read raises NameError, and `_last` has still moved to the old snapshot |
| BlockStats.Delta | monitor/systemsupport.py:80 | each entry of the delta, added to the previous snapshot, gives the current one |
| BlockStats.GetStats | monitor/systemsupport.py:76-81 | the first call returns the snapshot itself; later calls return the unclamped element-wise difference; an IndexError arises only when the previous snapshot is shorter |
| BlockStats.FailedReadGivesZeroDelta | monitor/systemsupport.py:59-81 | after a failed read `_last` equals `_stats`, so the next delta is all zeros |
| BlockStats.BadFieldIsFailedRead | monitor/systemsupport.py:62-63 | a stat line with any field that is not an integer counts as a failed read |
| BlockStats.CounterResetIsNegative | monitor/systemsupport.py:76-81 | for every reader with a snapshot: a counter that went backwards produces a negative delta, the difference of the two readings, not the new raw value |
| BlockStats.ReadWriteSectors | monitor/systemsupport.py:105-107 | it succeeds exactly when the delta has at least seven fields, and returns the read and write sector fields of that delta |
| BlockStats.BytesAreSectorsTimes512 | monitor/systemsupport.py:109-111 | `readWriteBytes` succeeds exactly when `readWriteSectors` does, with both figures times 512 |
| BlockStats.MiBIsSectorsOver2048 | monitor/oneUpSupport.py:157-162 | the MiB figures of `driveStats` are the sector counts divided by 2048 |
| BlockStats.FilterDrives | monitor/systemsupport.py:134-139 | no monitored drive is empty or on the ignore list |
| BlockStats.DriveList | monitor/systemsupport.py:127-140 | the drives taken from the listing are non-empty and not ignored |
| BlockStats.FilterDrivesMembership | monitor/systemsupport.py:134-139 | a name is monitored if and only if it is a non-empty listed line that is not ignored |
| BlockStats.FilterDrivesKeepsOrder | monitor/systemsupport.py:134-139 | filtering keeps listing order: filtering two concatenated listings equals concatenating their filtered forms |
| BlockStats.ReadWriteBytesFrom | monitor/systemsupport.py:215-218 | the loop over the drives' readings: every drive keeps its name; on success each drive has an entry under its own name and no earlier key is lost |
| BlockStats.ReadWriteBytesAll | monitor/systemsupport.py:210-218 | the readers up to and including the first failing drive have read and the rest are untouched; the call fails exactly with that drive's error; on success the keys are exactly the drive names, and each name holds the pair of the last drive of that name |
| BlockStats.FirstFailure | monitor/systemsupport.py:216-217 | the reference position of the first drive whose `readWriteBytes()` raises: every earlier reading succeeded |
| BlockStats.ReadWriteBytesReaders | monitor/systemsupport.py:216-217 | which readers moved, which drives were left alone, and which error ends the loop, for any readings |
| BlockStats.ReadWriteBytesValues | monitor/systemsupport.py:216-217 | on success the entry under each name is the reading of the last drive with that name, as dict assignment gives |
| BlockStats.ReadWriteBytesAddsOnlyNames | monitor/systemsupport.py:216-217 | on success no key appears but the earlier ones and the drive names |
| SmartTemp.FirstWithPrefix | monitor/systemsupport.py:185 | the line found is the first line that starts with the prefix, as `[...][0]` takes; none is found only when no line starts with it |
| SmartTemp.Winner | monitor/systemsupport.py:183-192 | the position of the first prefix whose first matching line has the wanted field: every earlier prefix fails |
| SmartTemp.FirstEligiblePrefixWins | monitor/systemsupport.py:183-194 | the prefix loop answers with the field of the first eligible prefix, or falls through when there is none |
| SmartTemp.DriveTemp | monitor/systemsupport.py:170-194 | a failed read gives 0.0 and a failed launch raises UnboundLocalError; when no prefix has a usable line the result is 0.0; otherwise it is `float()` of the field the first eligible prefix picked, or ValueError when that field is not a number |
| SmartTemp.FirstFieldStartsWithPrefix | monitor/oneUpSupport.py:151-152 | the first field of a line that starts with a prefix without blanks itself starts with that prefix |
| SmartTemp.IdFieldReturnsAttributeNumber | monitor/oneUpSupport.py:147-155 | when a "194" or "190" line wins, the parts[0] copies return the attribute number, not the temperature |
| CpuLoad.RowTimes | monitor/systemsupport.py:305-314 | a row converts exactly when every field after its name is an integer; the total is their sum and the idle part is fields 4 and 5 |
| CpuLoad.IdleAtMostTotal | monitor/systemsupport.py:308-313 | with non-negative counters the idle part is between 0 and the total |
| CpuLoad.Rows | monitor/systemsupport.py:305-306 | one token row per line of `/proc/stat`, in order |
| CpuLoad.CoreNames | monitor/systemsupport.py:307 | the names collected are all per-core names |
| CpuLoad.RawDataFrom | monitor/systemsupport.py:305-314 | it succeeds exactly when every row has a token and every core row converts; the keys are the earlier keys plus the core names, without repeats |
| CpuLoad.RawData | monitor/systemsupport.py:292-315 | one entry per distinct core name, and nothing else; it fails exactly when some row is empty or a core row has a bad field |
| CpuLoad.LastCoreRow | monitor/systemsupport.py:305-314 | the last row that names the core, with no later row naming it, or none when no row does |
| CpuLoad.CoreNamesHasLastRow | monitor/systemsupport.py:305-314 | a name is among the core names exactly when some row names that core |
| CpuLoad.RawDataFromOrder | monitor/systemsupport.py:305-314 | the keys come in the order their names first occur among the core rows, after the earlier keys |
| CpuLoad.RawDataFromValues | monitor/systemsupport.py:305-314 | each entry holds the times of the last core row with its name, or its earlier value when no row names it |
| CpuLoad.RawDataValues | monitor/systemsupport.py:292-315 | the entry of a core is the (total, idle) pair of the last `/proc/stat` line that names it |
| CpuLoad.RawDataOrder | monitor/systemsupport.py:292-315 | the entries are in the order their core names first occur in `/proc/stat` |
| CpuLoad.AggregateRowExcluded | monitor/systemsupport.py:307 | every key is a per-core name, never the aggregate "cpu" row |
| CpuLoad.Zeroed | monitor/systemsupport.py:288-290 | the same cores in the same order, every baseline reset to (0, 0) |
| CpuLoad.Init | monitor/systemsupport.py:276-290 | the names are the reading's cores in order; the baseline is that reading (cpuload.py) or zeroed (systemsupport.py) |
| CpuLoad.FirstError | monitor/systemsupport.py:336-340 | no error exactly when every core is in the baseline and its total moved; otherwise KeyError or ZeroDivisionError |
| CpuLoad.Percentages | monitor/systemsupport.py:334-342 | on success there is one figure per current core, in order, each its busy share of the interval since its baseline; otherwise KeyError or ZeroDivisionError |
| CpuLoad.GetPercentages | monitor/systemsupport.py:317-343 | a failure leaves the baseline unchanged; a success returns the figures of the new reading and makes it the baseline |
| CpuLoad.UtilisationInRange | monitor/systemsupport.py:337-339 | when idle time advanced by no more than the total, the figure lies in [0, 100] |
| CpuLoad.HalfIdleIsFifty | monitor/systemsupport.py:337-339 | every interval that is half idle reads as 50 |
| CpuLoad.ZeroBaselineMeasuresSinceBoot | monitor/systemsupport.py:288-290 | against a zeroed baseline the first figure is the busy share since boot |
| CpuLoad.ConsecutiveCallsAreAdjacent | monitor/cpuload.py:53-78 | two successful calls measure adjacent intervals, and the name list never changes |
| CpuLoad.MissingCoreRaises | monitor/systemsupport.py:337 | a core missing from the baseline raises KeyError, with no guard |
| CpuLoad.StalledCoreRaises | monitor/systemsupport.py:337-339 | a core whose total did not move raises ZeroDivisionError, with no guard |
| CpuLoad.LenCountsCores | monitor/systemsupport.py:354-361 | `len()` is the number of core names, and the names are exactly the core rows of the constructor's reading |
| Sensors.FanSpeed | monitor1up.py:123-137 | an integer read comes back as is; text that is not an integer gives 0 when converted inside the `try` and ValueError when converted after it; a failed launch raises UnboundLocalError in the copies with `finally` and gives 0 in monitor1up.py |
| Sensors.GuardedFanNeverRaisesOnOutput | monitor/oneUpSupport.py:117-129 | in the copies that convert inside the `try`, only a failed launch can raise |
| Sensors.FanReadingRoundTrip | monitor1up.py:123-137 | a fan file holding an integer and a newline reads back as that integer |
| Sensors.KbStr | monitor1up.py:172-180 | the value divided by 1024 until it is at most 1023, with the unit of that many divisions; IndexError past the last unit |
| Sensors.DivisionsIsLeast | monitor1up.py:175-178 | the number of divisions is the least one that brings the value to 1023 or below |
| Sensors.DivisionsBound | monitor1up.py:175-178 | at least k divisions happen exactly when the value is at least 1024 to the power k |
| Sensors.KbStrMeaning | monitor1up.py:172-180 | below 1024^5 the result names the unit of the value's magnitude; from 1024^5 on the call raises IndexError |
| Sensors.SmallValuesInBytes | monitor1up.py:172-180 | values up to 1023 are printed unchanged, in bytes |
| Sensors.OnePebibyteRaises | monitor1up.py:172-180 | 1024^5 needs five divisions, one past the last unit, so it raises |
| Sensors.KbStrCapped | monitor1up.py:172-180 | the intended formatter: the same text below 1024^5; from there on the value divided by 1024^4, in TiB, instead of an exception |
| ConfigFile.Lookup | monitor/configfile.py:43-48 | a value is found exactly when the section exists and has the key, which is matched after lowering |
| ConfigFile.Clean | monitor/configfile.py:45 | the cleaned value is the text with every double quote removed and then the surrounding whitespace stripped, with every other character kept in order |
| ConfigFile.CleanIdempotent | monitor/configfile.py:45 | cleaning a cleaned value changes nothing |
| ConfigFile.CleanOfClean | monitor/configfile.py:45 | a value with no quotes and no surrounding whitespace is left as it is |
| ConfigFile.GetValue | monitor/configfile.py:30-48 | a missing section or key gives the default; otherwise the stored value with its quotes removed and its surrounding whitespace stripped |
| ConfigFile.CleanValueRoundTrip | monitor/configfile.py:30-48 | a clean value stored under a key reads back unchanged |
| ConfigFile.QuotedValueReadsBack | monitor/configfile.py:43-48 | a value stored in double quotes, with blanks around them, reads back as the bare value |
| ConfigFile.GetValueAsList | monitor/configfile.py:50-69 | a missing key gives the default; otherwise one cleaned item per comma-separated piece |
| ConfigFile.ListLengthIsCommasPlusOne | monitor/configfile.py:66 | the list has one more item than the value has commas |
| ConfigFile.ListRoundTrip | monitor/configfile.py:50-69 | clean items without commas, stored comma-joined, read back as the same list |
| ConfigFile.ListItemsAreValues | monitor/configfile.py:66 | the item at position i is the i-th comma piece, cleaned |
| RollingChart.Init | monitor/oneUpMon.py:42-43 | a fresh chart starts at `xpos = window - 1`, with every series empty |
| RollingChart.Cutoff | monitor/oneUpMon.py:111 | the cut-off is `xpos - window`, but never below 0 |
| RollingChart.AddPoints | monitor/oneUpMon.py:100-104 | each series gains the point (x, v) exactly when its value is present; a missing value adds nothing |
| RollingChart.FirstAtOrAbove | monitor/oneUpMon.py:114-127 | the index of the first point at or above the cut-off, with every earlier point below it |
| RollingChart.SearchCutoff | monitor/oneUpMon.py:119-126 | on a series sorted by x, the binary search ends at the first point at or above the cut-off |
| RollingChart.TrimSeries | monitor/oneUpMon.py:114-127 | the trim loop as written keeps only points at or above the cut-off |
| RollingChart.Append | monitor/oneUpMon.py:88-127 | the window and the series count are unchanged, and `xpos` advances by one |
| RollingChart.TrimIsSuffix | monitor/oneUpMon.py:114-127 | the trim only drops points from the front |
| RollingChart.AddPointKeepsSeriesOk | monitor/oneUpMon.py:97-104 | a point at the new x keeps a series strictly increasing in x and not past `xpos` |
| RollingChart.AppendKeepsWellFormed | monitor/oneUpMon.py:88-127 | an append keeps every series strictly increasing in x and not past `xpos` |
| RollingChart.NewPointAtXpos | monitor/oneUpMon.py:97-104 | a present value becomes the series' last point at the new `xpos`; a missing one adds no point |
| RollingChart.TrimKeepsExactlyTheWindow | monitor/oneUpMon.py:111-127 | the trim of a sorted series keeps exactly the points at or above the cut-off |
| RollingChart.IncreasingInRangeIsShort | monitor/oneUpMon.py:111-127 | strictly increasing x values inside [lo, hi] number at most hi - lo + 1 |
| RollingChart.AppendStaysInWindow | monitor/oneUpMon.py:88-127 | after an append every series lies in the window and holds at most window + 1 points |
| AutoScale.NewScale | monitor/oneUpMon.py:130-133 | a new scale starts at the first unit of a non-empty ladder |
| AutoScale.ScaleValue | monitor/oneUpMon.py:138-139 | a scaled value times the current factor gives the value back; there is no result only when the factor is missing or zero |
| AutoScale.NextScale | monitor/oneUpMon.py:141-144 | one unit up, or unchanged at the top; the index stays on the ladder |
| AutoScale.PrevScale | monitor/oneUpMon.py:146-149 | one unit down, or unchanged at the bottom; the index stays on the ladder |
| AutoScale.NextPrevInverse | monitor/oneUpMon.py:141-149 | a step up then down, or down then up, away from the ends, returns to the same unit |
| AutoScale.ScaleUpUndoesScaleDown | monitor/oneUpMon.py:156-160 | `scaleUp` and `scaleDown` are inverse |
| AutoScale.ScalePointsDown | monitor/oneUpMon.py:151-154 | it succeeds exactly when the factor is usable, and divides every y by it while keeping x |
| AutoScale.ScalePointsUp | monitor/oneUpMon.py:162-165 | it succeeds exactly when there is a factor, and multiplies every y by it while keeping x |
| AutoScale.ScalePointsRoundTrip | monitor/oneUpMon.py:151-165 | scaling points down and then up restores them |
| AutoScale.FitIndex | monitor/oneUpMon.py:181-186 | the position of the first ceiling strictly above the value |
| AutoScale.BestFit | monitor/oneUpMon.py:181-186 | the axis ceiling is always one of 4, 8, ..., 1024 |
| AutoScale.BestFitIsLeastCeiling | monitor/oneUpMon.py:181-186 | below 1024 it is the least listed ceiling strictly above the value; from 1024 on it falls back to 4 |
| AutoScale.BestFitCapped | monitor/oneUpMon.py:181-186 | the intended fit: the least ceiling above the value, or 1024 at the top |
| AutoScale.SampleOf1024GetsAxis4 | monitor/oneUpMon.py:181-186 | a peak of exactly 1024 gets an axis of 4 as written and 1024 as intended |
| AutoScale.ScaledValues | monitor/oneUpMon.py:189-199 | each present value is scaled into the current unit; a value whose scaling raises is dropped |
| AutoScale.DivideY | monitor/oneUpMon.py:219-221 | every point keeps its x and has its y divided by 1024 |
| AutoScale.MultiplyY | monitor/oneUpMon.py:240-247 | every point keeps its x and has its y multiplied by 1024 |
| AutoScale.Peak | monitor/oneUpMon.py:223-234 | `maxV` of a series: at least 0 and every y, and equal to 0 or to some y |
| AutoScale.PeakAll | monitor/oneUpMon.py:223-234 | `maxV` bounds every y of every series, and is never negative |
| AutoScale.LastBelow | monitor/oneUpMon.py:223-234 | `drop` is the last index below the cut-off, so every later point is inside the window |
| AutoScale.DynAppend | monitor/oneUpMon.py:187-247 | the window, the series count and the ladder are unchanged, and `xpos` advances by one |
| AutoScale.DynAppendKeepsIndexInRange | monitor/oneUpMon.py:187-247 | the unit index never leaves the ladder |
| AutoScale.AxisRefitOnlyAbove1 | monitor/oneUpMon.py:236-237 | the axis is refit to the best fit of `maxV` exactly when `maxV` exceeds 1, and is unchanged otherwise |
| AutoScale.UpAndDownExclusive | monitor/oneUpMon.py:203-247 | a tick that scales up keeps a point above 1, so it never also scales down: the unit moves up exactly once |
| AutoScale.ScaleUpAtTopStillDivides | monitor/oneUpMon.py:203-221 | at the top unit a scale-up keeps the unit but still divides the points by 1024 |
| AutoScale.ScaleDownAtBottomStillMultiplies | monitor/oneUpMon.py:240-247 | at the bottom unit a scale-down keeps the unit but still multiplies the kept points by 1024 |
| AutoScale.OneStalePointRetained | monitor/oneUpMon.py:223-234 | the trim keeps `points[drop:]`, so one point before the cut-off survives when there is one; a series wholly inside is untouched |
| AutoScale.DynAppendSeries | monitor/oneUpMon.py:187-247 | after any tick a series is its old points plus the new scaled value at the new `xpos`, divided by 1024 on a scale-up, cut before `drop`, and multiplied by 1024 when every point is below 1 |
| AutoScale.NewValueIsLastPoint | monitor/oneUpMon.py:197-247 | a present value that scales becomes the last point of its series at the new `xpos`, divided by 1024 on a scale-up and multiplied by 1024 when every point is below 1 |
| MonitorRefresh.OrNone | monitor/oneUpMon.py:324-370 | a reading that raised becomes `None`; one that succeeded is kept |
| MonitorRefresh.RwData | monitor/oneUpMon.py:324-370 | read and write of every drive, in dictionary order, or two `None` values when the reading raised |
| MonitorRefresh.Flatten | monitor/oneUpMon.py:324-370 | the read and write figures of each drive in turn |
| MonitorRefresh.LoadValues | monitor/oneUpMon.py:324-370 | one figure per core name when every name has one; one `None` per name otherwise |
| MonitorRefresh.Refresh | monitor/oneUpMon.py:324-370 | every chart gets exactly one append per tick, whatever raised |
| MonitorRefresh.FailedTemperatureIsAGap | monitor/oneUpMon.py:324-370 | a failed CPU temperature adds no point; the series is only trimmed |
| MonitorRefresh.FailedIoAddsNoPoint | monitor/oneUpMon.py:324-370 | a failed I/O reading neither scales the I/O chart up nor adds a point |
| MonitorRefresh.LoadFiguresGoToTheirSeries | monitor/oneUpMon.py:324-370 | each core's figure lands at the new x in that core's own series |
| MonitorRefresh.ReadingsArePlotted | monitor/oneUpMon.py:331-368 | a CPU temperature, NVMe temperature or fan speed that was read becomes the last point of its series at the new x |
| MonitorRefresh.IoReadingIsPlotted | monitor/oneUpMon.py:349-369 | the read figure of each drive becomes the last point of its I/O series at the new x, in the chart's unit |
| OneUpPower.Level | battery/oneUpPower.c:182-213 | the capacity level bands: FULL above 95, HIGH above 85, NORMAL above 40, LOW above 30, CRITICAL otherwise |
| OneUpPower.StatusFor | battery/oneUpPower.c:182-213 | FULL on AC above 95, CHARGING on AC otherwise, DISCHARGING off AC |
| OneUpPower.SetPowerStates | battery/oneUpPower.c:182-213 | only level and status change, and afterwards they agree with capacity and AC |
| OneUpPower.LevelMonotone | battery/oneUpPower.c:182-213 | a higher capacity never gives a lower level |
| OneUpPower.SetPowerStatesIdempotent | battery/oneUpPower.c:182-213 | recomputing the states twice equals recomputing them once |
| OneUpPower.PluggedIn | battery/oneUpPower.c:223-241 | AC is online exactly when bit 7 of the current register is clear |
| OneUpPower.CheckAcPower | battery/oneUpPower.c:223-241 | AC follows the register; an unchanged reading changes nothing, and a change re-derives the states |
| OneUpPower.CheckBatteryState | battery/oneUpPower.c:251-266 | capacity follows the charge register clamped to [0, 100]; an unchanged reading changes nothing, and a change re-derives the states |
| OneUpPower.ErrnoReadings | battery/oneUpPower.c:223-266 | an I2C error code read as a register gives capacity 0 and AC online 0 |
| OneUpPower.Init | battery/oneUpPower.c:54-75 | the driver starts consistent, at capacity 90 with AC online |
| OneUpPower.MonitorStepKeepsValid | battery/oneUpPower.c:319-329 | each monitor pass takes AC from bit 7 and capacity from the clamped charge register, re-derives the states, and keeps the driver valid |
| OneUpPower.GetAcProperty | battery/oneUpPower.c:365-377 | the AC supply answers only its advertised properties, and -EINVAL for the rest |
| OneUpPower.GetBatteryIntProperty | battery/oneUpPower.c:396-451 | each integer property reports its field of the battery state: status, health, presence, technology, level and capacity as stored, the charge and time to full from capacity by their formulas, the fixed totals; failures are -EINVAL, never a string |
| OneUpPower.GetBatteryProperty | battery/oneUpPower.c:468-487 | the three string properties give the model name, the maker and the release; failures are -EINVAL |
| OneUpPower.AnswersExactlyAdvertised | battery/oneUpPower.c:396-487 | a battery property fails exactly when the driver does not advertise it |
| OneUpPower.ReportedStateIsDerived | battery/oneUpPower.c:182-213 | in a consistent driver the level and status read are those derived from capacity and AC, and AC online reads the flag |
| OneUpPower.ChargeNowInRange | battery/oneUpPower.c:425-426 | the charge figure fits in 32 bits, lies in [0, TOTAL_CHARGE], and is TOTAL_CHARGE at 100% |
| OneUpPower.ChargeNowMonotone | battery/oneUpPower.c:425-426 | more capacity never reports less charge |
| OneUpPower.TimeToFullInRange | battery/oneUpPower.c:435-436 | the time to full lies in [0, one hour] and is 0 at 100% |
| OneUpPower.TimeToFullAntitone | battery/oneUpPower.c:435-436 | more capacity never reports a longer time to full |
| OneUpPower.Exit | battery/oneUpPower.c:547-573 | on unload AC reads offline and the status reads discharging; every other battery field, capacity and level included, is kept |
| OneUpPower.ExitKeepsValid | battery/oneUpPower.c:547-573 | the unload state is still consistent |
| DummyBattery.Probe | battery/dummy_battery.c:239-283 | the start state is in range; a start capacity in [0, 100] is used as given, below 0 it becomes 0 and above 100 it becomes 100; it is charging exactly when told to start charging, otherwise discharging; voltage, current and temperature take their defaults; AC follows the start flag |
| DummyBattery.Tick | battery/dummy_battery.c:193-234 | a tick changes something only while charging below 100 or discharging above 0; voltage and current follow capacity and status |
| DummyBattery.TickMovesCapacity | battery/dummy_battery.c:201-225 | charging adds the rate up to 100 and becomes FULL there; discharging subtracts it down to 0 and becomes NOT_CHARGING there |
| DummyBattery.TickKeepsInRange | battery/dummy_battery.c:193-234 | with non-negative rates a tick keeps the battery in range |
| DummyBattery.NegativeRateLeavesRange | battery/dummy_battery.c:53-58 | the rates are not checked: a negative one pushes the capacity past 100 |
| DummyBattery.RunFromFixedPoint | battery/dummy_battery.c:193-234 | FULL and NOT_CHARGING are fixed points of the simulation |
| DummyBattery.ChargingReachesFull | battery/dummy_battery.c:201-225 | with a positive rate, charging reaches FULL at 100 within 100 - capacity ticks |
| DummyBattery.DischargingReachesEmpty | battery/dummy_battery.c:201-225 | with a positive rate, discharging reaches 0 within capacity ticks |
| DummyBattery.GetProperty | battery/dummy_battery.c:84-131 | a property fails with -EINVAL exactly when it is not advertised; there are no string properties; online, status, capacity, voltage, current and temperature report the battery state, and present, health, technology and scope their constants |
| DummyBattery.SetProperty | battery/dummy_battery.c:134-177 | a write succeeds exactly for online, a settable status, or a capacity in [0, 100]; an out-of-range capacity gives -ERANGE; a failed write changes nothing; a successful write changes only the written field, and an online write also sets the status to charging or discharging |
| DummyBattery.WriteableIffSomeWriteSucceeds | battery/dummy_battery.c:179-190 | a property is writeable exactly when some write of it succeeds |
| DummyBattery.SetThenGet | battery/dummy_battery.c:84-177 | a value that was set successfully reads back (online as 0 or 1) |
| DummyBattery.SetKeepsInRange | battery/dummy_battery.c:134-177 | no write can move the battery out of range |
| DummyBattery.ApplyKeepsInRange | battery/dummy_battery.c:134-234 | any sequence of writes, ticks and non-negative rate changes keeps the battery in range |
| DummyBattery.ReachableInRange | battery/dummy_battery.c:239-283 | every state reachable from probe, while the rates written are non-negative, is in range |
| DummyBattery.NegativeRateWriteLeavesRange | battery/dummy_battery.c:53-58 | the rates are writable parameters: writing a negative one at run time pushes the capacity past 100 on the next tick |
| TestPower.CString | battery/test_power.c:364 | the C string is the text up to the first NUL |
| TestPower.KeyBuffer | battery/test_power.c:361-364 | the copied key fits the buffer and holds no NUL |
| TestPower.FirstMatch | battery/test_power.c:370-378 | the value of the first entry whose key matches without case, or none when no key matches |
| TestPower.MapGetValue | battery/test_power.c:358-379 | an empty key or a key no entry matches gives the default; a key that matches gives the value of the first entry it matches, ignoring case and one trailing newline |
| TestPower.MapGetKey | battery/test_power.c:382-392 | the key of the first entry holding the value, or the default key when none holds it |
| TestPower.RoundTrip | battery/test_power.c:358-392 | in a well-formed table a key and its value map to each other, with or without a trailing newline |
| TestPower.AcTableIsGood | battery/test_power.c:337-341 | the AC table is well formed |
| TestPower.PresentTableIsGood | battery/test_power.c:352-356 | the presence table is well formed |
| TestPower.HealthTableIsGood | battery/test_power.c:343-350 | the health table is well formed |
| TestPower.UpperCaseWithNewlineMatches | battery/test_power.c:366-373 | "ON" with a newline sets AC online: one newline is stripped and the match ignores case |
| TestPower.SecondNewlineKept | battery/test_power.c:366-373 | only one trailing newline is stripped, so "true" with two newlines matches nothing |
| TestPower.ParamSetAcOnline | battery/test_power.c:400-405 | only the AC flag can change; a word that matches an entry of its table sets it to that entry's value, and any other word leaves the state alone |
| TestPower.ParamSetBatteryHealth | battery/test_power.c:413-419 | only the health can change; a word that matches an entry of its table sets it to that entry's value, and any other word leaves the state alone |
| TestPower.ParamSetBatteryPresent | battery/test_power.c:427-433 | only the presence can change; a word that matches an entry of its table sets it to that entry's value, and any other word leaves the state alone |
| TestPower.ParamGetAcOnline | battery/test_power.c:407-411 | 0 prints "off", 1 prints "on", anything else prints "unknown" |
| TestPower.AcOnlineRoundTrip | battery/test_power.c:400-411 | writing back what was read keeps the state; reading after writing a table key gives that key |
| TestPower.UnknownWordKeepsAcOnline | battery/test_power.c:400-405 | a word that no table key matches leaves the flag as it was |
| TestPower.ParamGetBatteryHealth | battery/test_power.c:421-425 | as written, good health prints "on" and any other value than 0 or 1 prints "unknown" |
| TestPower.ParamGetBatteryPresent | battery/test_power.c:435-440 | as written, present prints "on" and absent prints "off" |
| TestPower.HealthGetterUsesAcTable | battery/test_power.c:413-425 | good health prints "on", which is not a key of the health table, so writing the printed word back is silently ignored: the health stays whatever it was |
| TestPower.PresentGetterUsesAcTable | battery/test_power.c:427-440 | a present battery prints "on", which is not a key of the presence table, so writing the printed word back is silently ignored: the presence stays whatever it was |
| TestPower.ParamGetBatteryHealthFixed | battery/test_power.c:421-425 | the intended getter prints the health table's word, "good" for good health |
| TestPower.ParamGetBatteryPresentFixed | battery/test_power.c:435-440 | the intended getter prints "true" and "false" |
| TestPower.HealthFixedRoundTrip | battery/test_power.c:413-425 | with the intended getter, writing back what was read keeps the health |
| TestPower.PresentFixedRoundTrip | battery/test_power.c:427-440 | with the intended getter, writing back what was read keeps the presence |
| TestPower.GetAcProperty | battery/test_power.c:129-141 | the AC supply answers only online, with the flag; the rest gives -EINVAL |
| TestPower.GetBatteryProperty | battery/test_power.c:143-219 | a property fails with -EINVAL exactly when it is not advertised; strings are exactly the three name properties; every integer property reports its field of the state, the charge and time to full from capacity by their formulas, and the fixed totals |
| TestPower.DerivedFigures | battery/test_power.c:143-219 | charge and time to full are derived from capacity, inside their totals, with the 80% figures given |
| TestPower.ChargeNowFigure | battery/test_power.c:182-184 | the charge figure is capacity times TOTAL_CHARGE / 100, within [0, TOTAL_CHARGE], 1600000 at 80% |
| TestPower.TimeToFullFigure | battery/test_power.c:192-194 | the time to full is 36 seconds per missing percent, within an hour, 720 at 80% |
| TestPower.WrittenHealthIsReported | battery/test_power.c:413-419 | after writing a key of the health table, the health property reports that key's value |
| TestPower.WrittenPresentIsReported | battery/test_power.c:427-433 | after writing a key of the presence table, the present property reports that key's value |
| TestPower.WrittenAcOnlineIsReported | battery/test_power.c:400-405 | after writing a key of the AC table, the AC supply's online property reports that key's value |
| TestPower.Exit | battery/test_power.c:309-326 | on unload AC reads offline and the status reads discharging; every other setting is kept |
| Keyboard.DeviceChanged | pythonscript/latest/argonkeyboard.py:160-170 | the device list changed exactly when the two lists do not hold the same paths |
| Keyboard.ParseLogLine | pythonscript/latest/argonkeyboard.py:120-129 | a stripped line gives an entry exactly when it holds a colon; the key is the first space-separated word of the lowered text before the first colon, and the value is the text after that colon, stripped |
| Keyboard.ParseLines | pythonscript/latest/argonkeyboard.py:120-129 | every line is parsed on its own |
| Keyboard.LoadEntries | pythonscript/latest/argonkeyboard.py:120-129 | the log dictionary never holds a key twice |
| Keyboard.LastSetter | pythonscript/latest/argonkeyboard.py:120-129 | the last line that sets a key, or none |
| Keyboard.LastEntryWins | pythonscript/latest/argonkeyboard.py:120-129 | a key is present exactly when some entry sets it, and then its value is the last such entry's |
| Keyboard.LastLineWins | pythonscript/latest/argonkeyboard.py:114-137 | for the log lines, a key's value is the value on the last line that sets it |
| Keyboard.LineWithoutColonIgnored | pythonscript/latest/argonkeyboard.py:120-129 | a line without a colon adds nothing |
| Keyboard.BatteryNotice | pythonscript/latest/argonkeyboard.py:614-619 | a battery notice is shown exactly when the log has a "power" entry with a non-empty value, and then it is that value |
| Keyboard.NoticeIsLastPowerLine | pythonscript/latest/argonkeyboard.py:114-137 | the notice shown is the value on the last log line that sets "power" |
| Keyboard.RunCmdList | pythonscript/latest/argonkeyboard.py:44-67 | only a command that exits with a non-zero status makes the helper raise, with UnboundLocalError |
| Keyboard.BrightnessInfo | pythonscript/latest/argonkeyboard.py:172-188 | a failed command gives the default level |
| Keyboard.BrightnessOfFields | pythonscript/latest/argonkeyboard.py:178 | the number after the last colon, the "=" and the blank, and before the comma, is the level read |
| Keyboard.BrightnessOfDdcutilLine | pythonscript/latest/argonkeyboard.py:172-188 | on a `ddcutil getvcp 10` line the level read is the current value |
| Keyboard.AdjustBrightness | pythonscript/latest/argonkeyboard.py:191-223 | a step of 0 keeps the level; a successful set gives the stepped level clamped to [10, 100]; a failed set re-reads it |
| Keyboard.BrightnessStepStaysInRange | pythonscript/latest/argonkeyboard.py:191-223 | from a level in [10, 100] a step stays in [10, 100], and lands on the exact sum when that is inside |
| Keyboard.Trunc | pythonscript/latest/argonkeyboard.py:303-322 | `int()` of a float truncates toward zero |
| Keyboard.ReadLevel | pythonscript/latest/argonkeyboard.py:303-322 | a word that is neither a percentage nor a decimal reads as 0; the only error is ValueError |
| Keyboard.ReadPercentRoundTrip | pythonscript/latest/argonkeyboard.py:303-322 | "n%" reads as n |
| Keyboard.ReadFraction | pythonscript/latest/argonkeyboard.py:303-322 | a decimal fraction reads as its percentage, truncated |
| Keyboard.ParseVolume | pythonscript/latest/argonkeyboard.py:303-322 | the mute flag read is 0 or 1, and a failure is ValueError |
| Keyboard.ParseVolumeLine | pythonscript/latest/argonkeyboard.py:303-322 | an unmuted `wpctl` line reads its level word, with flag 0 |
| Keyboard.ParseMutedVolumeLine | pythonscript/latest/argonkeyboard.py:303-322 | a muted `wpctl` line reads the word before the flag, with flag 1 |
| Keyboard.GetVolumeInfo | pythonscript/latest/argonkeyboard.py:285-338 | a parsed reading is returned as is; every failure path returns the two defaults swapped |
| Keyboard.AdjustVolume | pythonscript/latest/argonkeyboard.py:346-352 | a sink id of "0" leaves the level and mute as given |
| Keyboard.VolumeStep | pythonscript/latest/argonkeyboard.py:361-414 | with both commands succeeding the level is the read level stepped into [10, 100]; a step unmutes; a toggle at a level inside [10, 100] flips the flag, and one at a level outside it unmutes |
| Keyboard.VolumeCommandFailureKeepsReading | pythonscript/latest/argonkeyboard.py:361-414 | a failed level command returns what was read |
| Keyboard.MuteCommandFailureKeepsFlag | pythonscript/latest/argonkeyboard.py:389-402 | when the set-mute command fails the new level is returned with the mute flag that was read |
| Keyboard.FailedReadSetsVolumeToTen | pythonscript/latest/argonkeyboard.py:285-414 | when the read fails the swapped defaults make a volume-up press set the volume to 10% |
| Keyboard.PressAction | pythonscript/latest/argonkeyboard.py:519-553 | a press acts exactly for the brightness and volume keys, pause and mute |
| Keyboard.HoldAction | pythonscript/latest/argonkeyboard.py:555-589 | a hold acts only on brightness and volume keys, with a doubled step |
| Keyboard.Dispatch | pythonscript/latest/argonkeyboard.py:496-589 | events other than press and hold do nothing; an accepted press records its time; an accepted hold records its time, or the press time when no press was recorded |
| Keyboard.PressThenEarlyHoldIgnored | pythonscript/latest/argonkeyboard.py:518-562 | a hold of a level key less than the press wait after its press does nothing, because the press recorded its time |
| Keyboard.DispatchTable | pythonscript/latest/argonkeyboard.py:519-589 | each key and event kind maps to its action |
| Keyboard.MuteGuard | pythonscript/latest/argonkeyboard.py:525-535 | mute acts only when at least the press wait has passed since the last mute |
| Keyboard.DoubleMuteIgnored | pythonscript/latest/argonkeyboard.py:525-535 | a second mute within the press wait is ignored |
| Keyboard.HoldGuard | pythonscript/latest/argonkeyboard.py:560-576 | a hold of a level key acts exactly when its press is unrecorded, or when the press wait has passed since the press and the hold wait since the last hold |
| Keyboard.HoldsAreSpaced | pythonscript/latest/argonkeyboard.py:560-576 | two hold actions on one key are at least the hold wait apart |
| Keyboard.Perform | pythonscript/latest/argonkeyboard.py:593-620 | a held lock or no action changes nothing; a brightness step sets the brightness that `keyboardevent_adjustbrigthness` returns; a volume step or mute sets volume and flag from `keyboardevent_adjustvolume` (step 0 for mute); the battery key shows the notice of the status log and nothing else |
| Keyboard.HandleEvent | pythonscript/latest/argonkeyboard.py:496-620 | an event that is neither press nor hold does nothing; with every lock held the levels stay unchanged and no notice is shown |

## Left out

- Input and output are not modelled: files, `os.popen`, `subprocess`, evdev device reads and the kernel's I2C transfers. Their results are inputs.
- The Qt widgets, the notification messages, `debuglog`, and all printing are not modelled.
- `round(x, 2)` and floating point are not modelled: figures are exact reals, and `float()` is a parameter, so inf and NaN are not covered.
- The configuration reader is a map from lowered keys to values. The `DEFAULT` section, interpolation and the file parse of `configparser` are not modelled.
- Lowering is ASCII-only. Python's full Unicode case mapping, and the Latin-1 `tolower` of the kernel's `strncasecmp`, are not modelled.
- The keyboard helper's clock is whole seconds, and its lock file is a boolean.
- `keyboardevent_getdevicepaths` is not modelled: it is the scan of input devices.
- `createlockfile` and `deletelockfile` are not modelled: they are file writes.
- The `wpctl status` parse of `keyboardevent_getvolumesinkid` (pythonscript/latest/argonkeyboard.py:229-282) is not modelled: the service always asks for the default sink, which is the constant `DEFAULT_SINK`.
- monitor/fanspeed.py, monitor/simple_monitor.py and `multiDriveStat.driveSize` are not modelled. They are small display or size-lookup scripts outside the counters.
- `multiDriveStat.readWriteSectors` (monitor/systemsupport.py:196-208) is not modelled. It is the loop of `readWriteBytes` without the factor of 512; only the bytes form is modelled.
- The per-field accessors `readAllStats`, `readSectors`, `writeSectors` and `discardSectors` are not modelled: each indexes one field of a delta.
- monitor/oneUpMon.py imports `systemData` from `systemsupport`, which does not define it; that class is in monitor/oneUpSupport.py. The refresh step takes its readings as inputs, so the mismatch is not modelled.
- The `battery_health` module parameter of test_power.c is declared with its get and set operations but never registered. The model still gives those operations.
- The property-name printing of the drivers' debug output is not modelled.
- DummyBattery.Tick: C `int` overflow is not modelled, because it needs rates near 2^31.
- Module registration, work queues, kthreads, `power_supply_changed` notifications and memory management of the three drivers are not modelled.
- CpuLoad.Percentages: the figures are exact. They are not rounded to two places as `round(x, 2)` does.
- Sensors.FanSpeed: it returns the integer read. systemsupport.py hands it back as `float(speed)`, which is the same number.
- Keyboard.HandleEvent: its contract states only the event filter and the effect of the lock. Each key name goes through Keyboard.Dispatch and then Keyboard.Perform, whose contracts give the timers, the action and which adjust operation runs.
- Keyboard.AdjustVolume: its own contract covers only the early return for sink "0". The other paths are stated by Keyboard.VolumeStep, Keyboard.VolumeCommandFailureKeepsReading and Keyboard.MuteCommandFailureKeepsFlag.
- BlockStats.FirstLine: a `"\r"` stays inside the line. Python's text-mode `readline()` also ends a line at a lone `"\r"` (universal newlines); `/sys/block/*/stat` holds none.
- Text.ParseInt: it rejects the underscores that Python's `int()` accepts between digits (`"1_000"`), and it accepts only ASCII digits. Kernel counters hold neither.
- Keyboard.IsDigits: it is ASCII-only, unlike Python's `str.isdigit`, which also accepts other Unicode digits. The command output it checks is ASCII.
- AutoScale.ScalePointsDown and AutoScale.ScalePointsUp model the `scalePointsDown` and `scalePointsUp` helpers of `scaleValues` (monitor/oneUpMon.py:151-165), which nothing in the program calls. The append rescales with the fixed factor 1024 instead, modelled by AutoScale.DivideY and AutoScale.MultiplyY.
- Keyboard.BrightnessInfo: its own contract covers only the failure path. The parse is stated by Keyboard.BrightnessOfFields and Keyboard.BrightnessOfDdcutilLine.

## Findings

| source | as written | input that shows it | evidently intended | confidence | as-written member | corrected member |
|---|---|---|---|---|---|---|
| monitor1up.py:172-180 | the loop divides while the value exceeds 1023 and then indexes a five-entry unit list | 1024^5 bytes (1 PiB) needs five divisions and raises IndexError | stop at the last unit (TiB) | not executed | Sensors.OnePebibyteRaises | Sensors.KbStrCapped |
| monitor/oneUpMon.py:181-186 | the fit list stops at 1024, and a value not below every entry falls back to 4 | a peak of exactly 1024.0 gets an axis of 4, so the line is drawn off the chart | the largest ceiling, 1024 | not executed | AutoScale.SampleOf1024GetsAxis4 | AutoScale.BestFitCapped |
| battery/test_power.c:421-425 | the health getter looks its value up in the AC table | health GOOD prints "on"; "on" is not a health key, so writing the printed word to a battery whose health has since changed is ignored and cannot restore GOOD | look up the health table ("good") | not executed | TestPower.HealthGetterUsesAcTable | TestPower.HealthFixedRoundTrip |
| battery/test_power.c:435-440 | the presence getter looks its value up in the AC table | present 1 prints "on"; "on" is not a presence key, so writing the printed word to a battery since made absent is ignored and cannot restore presence | look up the presence table ("true"/"false") | not executed | TestPower.PresentGetterUsesAcTable | TestPower.PresentFixedRoundTrip |
