# Detector history and simulated clock of sumo-control

This project models two pieces of state logic from a real-time traffic-signal
control system built on the SUMO simulator.

- **Detector occupancy history** (`detector.dfy`, module `Network`).
  - An inductive-loop `Detector` keeps an append-only list of `Detection(timeInstant, state)` records.
  - It also keeps a `state` field that mirrors the last record.
  - A new detector starts with the implicit record `(0.0, false)`.
  - `UpdateDetectionHistory` sets the state and appends one record, even when the state did not change.
  - `ExportDetectionHistory` turns every record into two `(time, level)` points: first the negated new level at `t`, then the new level at `t + 0.01`.
  - The export method is proved equal to the specification function `Export`.
  - The lemmas about `Export` state its length, its value at each index, its levels, when its time axis is ordered, how it splits over concatenation, and that the history can be recovered from it.
- **Simulated clock** (`clock.dfy`, module `Clock`).
  - `ClockGenerator` counts simulation steps and adds a fixed step to the simulated time on every `ClockTick`.
  - When the whole-second part of the time grows, it publishes the new time, once, on the `clock_tick` fan-out exchange.
  - The exchange is modelled as `published`, the log of the times published on it.
  - The object invariant ties the time to `steps × step` and ties the log to the specification function `PublishedTimes`.
  - Lemmas then count the ticks:
    - with `0 < step <= 1` the count is the number of whole seconds elapsed;
    - with `step >= 1` every step publishes;
    - with any step there is at most one tick per elapsed second, each tick announces a later second than the one before it, and the latest tick announces the current second.

Times are Python floats in the system. Here they are exact reals. Python's
`int()` on a float is modelled as truncation toward zero (`Clock.Trunc`). For the
non-negative times the clock reaches, this is the floor.

The clock publishes at most one tick per call, even when one step spans several
whole seconds. For every number of steps, the number of ticks equals the number
of whole seconds elapsed if and only if the step is at most one second
(`Clock.TickCountIsSecondsIff`). For a longer step every step publishes, and the
ticks fall behind the seconds once `k × (step - 1) >= 1`
(`Clock.LargeStepTickCount`, `Clock.LargeStepFallsBehind`). The model follows
the code here. A reading of "one tick per boundary crossed" would not match the
code.

The export's time axis is non-decreasing if and only if consecutive detections
are at least 0.01 s apart (`Network.ExportTimesOrdered`). Two detections at the
same instant, or any two closer than 0.01 s, make it go back. The code does not
check this, so keeping the times apart is the caller's job.

The first point of a pair is the negated new level, not a stored old level. It
shows the level before the change exactly when the detection changed the state
(`Network.ExportPreviousLevel`). Recording the same state twice, which the code
allows, gives a first point that is not the level before it
(`Network.RepeatedStateExport`). The seed record `(0.0, false)` exports level 1
at time 0.0, although nothing was recorded before it. Recording only real
changes is the caller's job.

## Model

| member | source | states |
|---|---|---|
| Network.Detector.constructor | model/network/detector.py:33-45 | id, edge, lane and position are kept as given (constants, never changed later); the history is exactly `[Detection(0.0, false)]`, the state is false, and the state mirrors the last record |
| Network.Detector.UpdateDetectionHistory | model/network/detector.py:56-61 | appends exactly one `Detection(t, s)` after the unchanged earlier records, with no deduplication; the state becomes `s`, so it still equals the last record's state |
| Network.Detector.ExportDetectionHistory | model/network/detector.py:63-76 | the list built by the loop is `Export` of the history; the method modifies nothing, so the history and the state are untouched |
| Network.BoolToInt | model/network/detector.py:72-73 | Python's `int` of a boolean is 0 or 1, and it is 1 exactly when the boolean is true |
| Network.Export | model/network/detector.py:70-76 | the export has exactly twice as many points as the history has records |
| Network.ExportAt | model/network/detector.py:71-74 | for record i, point 2i is `(t_i, int(not s_i))` and point 2i+1 is `(t_i + 0.01, int(s_i))` |
| Network.ExportPoint | model/network/detector.py:71-74 | every point of the export equals the reference point at the same index (even index: negated new level at the record's time; odd index: new level 0.01 s later) |
| Network.ExportIsPointwise | model/network/detector.py:70-76 | the export equals the reference sequence built point by point from the history, over its whole length |
| Network.ExportAppend | model/network/detector.py:70-76 | the export of a concatenation is the concatenation of the exports, so an update extends the export by exactly its two points |
| Network.ExportLevels | model/network/detector.py:72-74 | every exported level is 0 or 1; within each pair the two levels differ and the second time is 0.01 s after the first |
| Network.ExportTimesOrdered | model/network/detector.py:71-74 | the exported times never decrease if and only if consecutive records are at least 0.01 s apart |
| Network.ExportPreviousLevel | model/network/detector.py:72 | the first point of record i shows the level of record i - 1 if and only if record i changed the state |
| Network.RepeatedStateExport | model/network/detector.py:56-61 | recording false twice exports level 1 at the second record's time, after level 0, so the first point of a pair is not always the level before it |
| Network.SameInstantExportGoesBack | model/network/detector.py:71-74 | two records at the same instant give exported times 1.01 then 1.0, so the time axis goes back |
| Network.Recover | model/network/detector.py:72-73 | reading a history back from an even-length point list gives one record per pair |
| Network.ExportRoundTrip | model/network/detector.py:70-76 | the export loses nothing: reading it back gives the history |
| Network.OccupancyScenario | model/network/detector.py:42-76 | a new detector that records `(1.0, true)` then `(2.5, false)` exports `[(0.0,1),(0.01,0),(1.0,0),(1.01,1),(2.5,1),(2.51,0)]` |
| Clock.Trunc | system/clock_generator.py:42-46 | Python's `int()` on a float truncates toward zero; for a non-negative time it is the whole-second part |
| Clock.PublishedTimes | system/clock_generator.py:38-49 | after k steps at most k times have been published |
| Clock.SmallStepTickCount | system/clock_generator.py:42-49 | with `0 < step <= 1`, the number of ticks after k steps equals the whole seconds of the current time |
| Clock.LargeStepTickCount | system/clock_generator.py:42-49 | with `step >= 1`, every step publishes, so there are k ticks after k steps |
| Clock.TickFacts | system/clock_generator.py:42-49 | for any positive step: at most one tick per whole second elapsed; ticks announce strictly increasing seconds; each tick lies between 1.0 and the current time; the latest tick is in the current second; with no ticks, the current second is 0 |
| Clock.LargeStepFallsBehind | system/clock_generator.py:42-49 | with `step > 1`, once `k × (step - 1) >= 1` there are fewer ticks than whole seconds elapsed |
| Clock.TickCountIsSecondsIff | system/clock_generator.py:42-49 | for a positive step, the tick count equals the whole seconds elapsed after every number of steps if and only if the step is at most one second |
| Clock.MultiSecondStepTicksOnce | system/clock_generator.py:46-49 | one step of 2.5 s publishes the single tick 2.5, although two whole seconds have passed |
| Clock.ClockGenerator.constructor | system/clock_generator.py:22-36 | keeps the given step; starts with zero steps, time 0.0 and nothing published |
| Clock.ClockGenerator.ClockTick | system/clock_generator.py:38-49 | increments the step count by exactly one and adds exactly one step to the time; appends the new time to the published log iff its floor exceeds the old time's floor, and appends nothing otherwise; keeps time = steps × step and the log = `PublishedTimes` |
| Clock.UnitStepScenario | system/clock_generator.py:38-49 | with step 1.0, three ticks publish 1.0, 2.0 and 3.0 |
| Clock.FractionalStepScenario | system/clock_generator.py:38-49 | with step 0.3, four ticks publish only once, the time 1.2, at the fourth tick |

## Left out

- Connecting to the RabbitMQ broker, opening the channel and declaring the exchange (system/clock_generator.py:24-31) are calls into a foreign library. The publish itself is an append to the `published` log.
- Clock.ClockGenerator.ClockTick records the published time as a real number. It does not model the `str()` text of the float sent as the message body.
- Floating-point rounding is not modelled. This covers the repeated `+=` of the step and the `+ 0.01` of the export. Times are exact reals, so the model states no float-drift behaviour, for example which second a tick falls in after many inexact additions.
- Clock.ClockGenerator.constructor requires a positive step. The code does not check the step. Its callers are assumed to pass a positive one. A failure path for a non-positive step is not modelled.
- Broker failures at publish time are not modelled, because the broker is outside the model.
- The `__main__` test drivers (system/clock_generator.py:52-82, model/network/detector.py:79-84) are not modelled. They do wall-clock sleeps, argument parsing and printing. `Network.OccupancyScenario` covers the detector driver's update sequence without the printing.
- The `__str__` methods (model/network/detector.py:21-25, 47-54) are not modelled. They only format text for display.
- main.py is not modelled. It spawns and joins controller processes, waits with sleeps, has an unfinished queue handshake, and runs the console presentation. These are process orchestration and concurrency outside a sequential model. Its `Simulation` and `Controller` collaborators are not part of this model.
