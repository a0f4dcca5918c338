# Wireless pulse monitor: the sampling-to-estimate pipeline

A Dafny model of the sender side of the wireless pulse monitor (`sender.py`,
class `HeartRateMonitor`). The worker thread polls a MAX30102 sensor. Each
poll is a tick. A tick appends every sample the sensor has ready to an
infrared buffer and a red buffer, and trims both to the last 100 samples.
When a buffer holds exactly 100 samples, the tick calls the estimator. A
valid BPM estimate enters a history of the last four. The published `bpm`
becomes the mean of that history, unless both channels are dark. Dark means
the channel's mean is below 50000. Then `bpm` is forced to 0 and a "Finger not
detected" report is produced. Otherwise the tick produces a BPM/SpO2 reading,
unless SpO2 is the sentinel -999. Reports are sent over Bluetooth as one line
each, terminated by `'\n'`.

Modules:

- `Seqs` (`seqs.dfy`): the bounded-tail policy `Last` (Python `s[-n:]` under
  `len(s) > n`), and sums.
- `Window` (`window.dfy`): samples, buffer refill and trim, and the finger test.
- `Smoothing` (`smoothing.dfy`): the four-entry BPM history and its mean.
- `Telemetry` (`telemetry.dfy`): reports, their text where modelled, line
  framing, and a reference line reader that states what the framing makes
  recoverable (`receiver.py` itself prints raw chunks and splits nothing).
- `Monitor` (`monitor.dfy`): the pure `Tick` step over
  `State(ir, red, history, bpm)`, runs of ticks, and end-to-end scenarios.
- `Controller` (`controller.dfy`): `stop_sensor` and the published `bpm`.
- `Wrappers` (`wrappers.dfy`): `Option`.

The estimator (`hrcalc.calc_hr_and_spo2`) is a parameter of type
`(seq<nat>, seq<nat>) -> Estimate`, called on the infrared window first. The
samples a tick reads are a parameter too (`batch`, one `Sample(red, ir)` per
`read_fifo()`), and so is the `print_result` flag.

Points where the code's behaviour is easy to misread; the model follows the code:

- The finger check and all reports sit inside `if valid_bpm:`. A full window
  with an invalid estimate changes nothing and reports nothing, even when both
  channels are dark.
- When the finger is absent only `bpm` is zeroed. The history keeps the
  estimate that was just accepted.
- Whether a reading is reported depends on `spo2 != -999`. The estimator's
  `valid_spo2` flag is never consulted.
- Reports exist only when `print_result` is set.
- A tick that reads no samples skips estimation even when the buffer is
  already full.

Sample intensities are `nat`. The finger test is stated over integers as
`Sum(s) < 50000 * |s|`, and `Window.FingerAbsentIffMeansBelow` proves it
equivalent to the source's mean comparison over reals. BPM values and their
mean are `real`.

## Model

| member | source | states |
|---|---|---|
| Seqs.Last | sender.py:72-74 | trimming to `n` keeps min(length, n) elements, and they are the final elements of the input in order |
| Seqs.LastOfLastAppend | sender.py:63-74 | trimming, appending more and trimming again equals appending everything and trimming once |
| Window.Refill | sender.py:63-74 | appending a batch and trimming leaves both buffers the same length, at most 100, each a tail of its old contents plus the batch |
| Window.RefillIsLast | sender.py:72-74 | the length-guarded trim on both channels is exactly "keep the last 100" of each channel |
| Window.DarkIffMeanBelow | sender.py:89-92 | the integer test `sum < 50000 * length` holds iff the channel is non-empty and its mean is strictly below 50000 |
| Window.FingerAbsentIffMeansBelow | sender.py:89-92 | finger absent iff both channel means are strictly below 50000 |
| Window.AtThresholdIsNotDark | sender.py:90-91 | a channel whose samples all read exactly 50000 is not dark: the comparison is strict |
| Window.BelowThresholdIsDark | sender.py:90-91 | a channel whose samples all read 49999 is dark |
| Window.ZerosAreDark | sender.py:90-91 | a channel of zero readings is dark |
| Smoothing.Accept | sender.py:82-84 | accepting a valid estimate gives a history of at most four that ends with that estimate and is a tail of the old history plus it |
| Smoothing.AcceptAllIsLastFour | sender.py:82-84 | after any run of valid estimates the history is the last at most four of everything accepted, in order |
| Smoothing.MeanWithinBounds | sender.py:86 | the published mean lies between the smallest and largest estimate in the history |
| Smoothing.MeanOfEqual | sender.py:86 | a history of equal estimates publishes that estimate |
| Smoothing.FiveKeepAllButFirst | sender.py:82-84 | five valid estimates from an empty history keep all but the first |
| Smoothing.FifthEstimateDropsFirst | sender.py:82-86 | after valid b1..b5 from an empty history, the history is b2..b5 and the mean is (b2+b3+b4+b5)/4 |
| Telemetry.Send | sender.py:109-116 | with no socket no line goes out; otherwise the line is the data followed by exactly one terminator |
| Telemetry.Text | sender.py:95-97 | only the finger-absent report has modelled text, and it is the literal "Finger not detected", free of terminators |
| Telemetry.SplitStream | sender.py:109-116 | a reference line reader splitting the stream of sent lines at terminators gets back exactly the lines sent, when none contains a terminator |
| Telemetry.SentLineReadsBack | sender.py:109-116 | one sent line reads back as exactly the data sent |
| Telemetry.NotDetectedLine | sender.py:97-112 | a connected sender writes the finger-absent report's text, "Finger not detected", followed by one terminator |
| Monitor.Assess | sender.py:81-104 | an invalid estimate changes nothing and reports nothing; a valid one ends the history; "Finger not detected" iff printing, valid and dark; a reading carries the published mean and the estimator's SpO2, only when lit and SpO2 is not -999 |
| Monitor.Tick | sender.py:60-105 | a tick with no samples changes nothing; a tick that does not consult the estimator keeps history and `bpm` and reports nothing; reports only come from printing ticks on a full window |
| Monitor.TickKeepsWf | sender.py:63-93 | every tick keeps equal buffer lengths within 100, a history within 4, and `bpm` either 0 or the history's mean |
| Monitor.TickBuffersAreLatest | sender.py:63-74 | after a tick each buffer is the last at most 100 of its old contents plus the batch, in arrival order |
| Monitor.EstimatorIgnoredUnlessFull | sender.py:77-80 | when the refilled buffer is not exactly 100 long, the tick's outcome does not depend on the estimator |
| Monitor.NinetyNineIsNotFull | sender.py:77 | from any state and with any batch, a buffer left at 99 samples never triggers estimation or a report, and history and `bpm` stay |
| Monitor.ValidEstimateIsSmoothed | sender.py:81-93 | a valid estimate enters the history; `bpm` is then the history's mean when the finger is present and 0 when it is absent |
| Monitor.InvalidEstimateChangesNothing | sender.py:81 | with an invalid estimate only the buffers move and nothing is reported, dark window or not |
| Monitor.TickReports | sender.py:94-104 | both directions: "Finger not detected" iff printing, consulted, valid and dark; a reading of (bpm, spo2) iff printing, consulted, valid, lit and SpO2 is not -999 |
| Monitor.RunKeepsWf | sender.py:59-105 | every run of ticks keeps the state invariant |
| Monitor.RunBuffersAreLatest | sender.py:59-74 | after any run each buffer is the last at most 100 of its start plus every sample read, in arrival order |
| Monitor.RunFromInitKeepsLatest | sender.py:54-74 | from empty buffers, both buffers hold the last min(100, total) samples read, in arrival order |
| Monitor.IdleRunChangesNothing | sender.py:60-61 | any number of ticks that read no samples leave the state unchanged and report nothing |
| Monitor.SilentWithoutPrint | sender.py:94-100 | a run with `print_result` false reports nothing |
| Monitor.AcceptedIgnoresHistory | sender.py:77-82 | which estimates a run accepts depends only on the buffers, not on history or `bpm` |
| Monitor.TickHistory | sender.py:81-84 | one tick's history is the last four of the old history plus that tick's accepted estimate, if any |
| Monitor.RunHistoryIsLastFour | sender.py:81-93 | after any run the history is the last at most four of its start plus every accepted estimate; the finger check never clears it |
| Monitor.DarkWindowReportsNoFinger | sender.py:63-97 | 100 zero samples from the start with a valid estimate publish 0 and report `FingerNotDetected`, whose text a connected sender frames as "Finger not detected" plus one terminator |
| Monitor.DarkFilledWindow | sender.py:63-77 | 100 zero samples read from the start fill the window with zeros on both channels and trigger estimation |
| Monitor.DarkWindowInvalidEstimateIsSilent | sender.py:81 | the same dark window with an invalid estimate reports nothing and leaves history empty and `bpm` 0 |
| Controller.StartSensor | sender.py:23-29 | starting creates a worker and leaves `bpm` as it was |
| Controller.StopSensor | sender.py:31-35 | as written: without a worker nothing changes; with one, `bpm` is 0 after the stop unless an in-flight tick's write lands during the join |
| Monitor.LitWindowPublishes | sender.py:77-86 | from the start, a full window at the threshold with a valid estimate publishes that estimate (the mean of a one-entry history) |
| Monitor.LitWindowIsLit | sender.py:77-92 | 100 samples at exactly 50000 on both channels fill the window and count as finger present |
| Monitor.LitFilledWindow | sender.py:63-77 | 100 threshold samples read from the start fill both channels with them and trigger estimation |
| Monitor.FirstAcceptedIsMean | sender.py:82-86 | the first accepted estimate is the whole history and is published as the mean |
| Controller.StopCanLeaveNonZeroBpm | sender.py:31-35 | a reachable tick publishes 72, and when that write lands during the join `bpm` is 72 after `stop_sensor` |
| Controller.StopSensorJoined | sender.py:31-35 | with the reset after the join, a stop with a worker always leaves `bpm` at 0 |
| Controller.StopJoinedResetsBpm | sender.py:14-35 | with the corrected order, `bpm` is 0 after any stop, and stopping again changes nothing |
| Controller.StopOrdersAgreeWhenIdle | sender.py:31-35 | when no tick is in flight the written and corrected orders give the same result |

## Left out

- Threads, the `stopped` flag, `join(timeout)` and the 10 ms sleep: a run is a
  sequence of ticks, and stop is a pure function of the controller's view.
  Only the interleaving of one in-flight tick with the stop is modelled.
- The Bluetooth socket: connecting, closing and send exceptions are transport
  I/O. `Telemetry.Send` models only the no-socket and send branches. A send
  failure is caught in the source and changes no state, so it needs no model.
- The MAX30102 driver and `hrcalc.calc_hr_and_spo2`: they are not part of this
  model. The batch and the estimator are parameters.
- The `%.2f` text of a reading, and all `print` output including `print_raw`:
  a reading stays the abstract `Reading(bpm, spo2)`.
- Floating point: means are exact reals. For the finger test this loses
  nothing, because sums of 100 sensor readings are exact in double precision.
  The BPM mean ignores rounding.
- `receiver.py` and `main`: plumbing around the core.
- Controller.StopSensorJoined: assumes the join returns after the worker's
  last write; when `join(timeout)` times out, a later write can still land,
  because threads are not modelled.

## Findings

| source | as written | input that shows it | evidently intended | confidence | as-written member | corrected member |
|---|---|---|---|---|---|---|
| sender.py:31-35 | `stop_sensor` sets `bpm = 0` before `join`, so a tick still running on the worker can publish a non-zero `bpm` after the reset | the worker is inside a tick with a valid estimate and a lit window when stop is called; the tick publishes 72 during the join | `bpm` is 0 once `stop_sensor` returns | medium, not executed | Controller.StopCanLeaveNonZeroBpm | Controller.StopJoinedResetsBpm |
