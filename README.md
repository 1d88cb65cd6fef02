# libgsensors poll context and drivers, in Dafny

libgsensors is an Android sensors HAL. A single poll context
(`sensors_poll_context_t`) owns four drivers:

- the accelerometer, an evdev input device;
- the ambient light sensor;
- the proximity sensor;
- the temperature monitor.

The last three are "value sensors": each reads a sysfs text file whenever it is asked for events.

The context keeps a bit mask `mEnabled` of the enabled value sensors, and a timeout `mTimeout` that is the shortest of their delays. It offers three operations to the framework:

- `activate` turns a sensor on or off, keeps the mask and the timeout up to date, and writes a wake byte to a pipe.
- `setDelay` checks the handle and the delay, passes the delay to the driver, and recomputes the timeout.
- `pollEvents` fills the caller's buffer. In each pass every driver may return a share of the remaining room. Then `poll()` is called on the accelerometer's descriptor and the wake pipe, and the pass repeats while descriptors are ready and room is left.

One Dafny module models each driver's source file, and two model `sensors.cpp`:

- `sensor_types.dfy` (`SensorTypes`): sensor ids, the event record, and the inputs the drivers receive from the kernel.
- `accelerometer.dfy` (`AccelerometerDriver`):
  - the rate-code choice;
  - a class `Accelerometer` with the driver's fields;
  - its `readEvents` loop, proved against `Drain`, a record-by-record specification function. `Drain` is in turn related to a declarative reading (`Snapshots`, `Process`).
- `light_sensor.dfy`, `temperature_monitor.dfy`, `proximity_sensor.dfy`: one class per value sensor. Each class has the fields `enabled`, `delayTime`, `lastValue` and `alreadyWarned`.
- `poll_model.dfy` (`PollModel`): the poll context's logic on values.
  - The handle check, and the delay and timeout arithmetic with its C conversions.
  - The drivers' states as one value (`DriverStates`), what each driver hands over when read (`Output`, `After`), one pass of the driver loop (`Pass`), and the whole call of `pollEvents` with its passes and `poll()` calls (`Run`).
  - The lemmas that relate these to one another.
- `sensors.dfy` (`PollContext`): the class `SensorsPollContext` over the four driver objects, with its invariant `Valid()`:
  - `mEnabled` holds exactly the enabled value sensors and never the accelerometer;
  - `mTimeout` is the shortest of their delays;
  - the ready flags of the three descriptor-less slots and of the wake pipe are clear between calls.

  Its methods are proved against `PollModel`: a pass writes exactly `Pass` of the drivers' states into the buffer, and `pollEvents` returns exactly what `Run` gives.

The environment enters the model as inputs:

- Each file read is an outcome: the open failed, the read failed, or a parsed value.
- The clock is a timestamp carried with each reading.
- The input device supplies a batch of evdev records per `fill()`.
- `poll()` is a scripted reply: an errno, or a count of ready descriptors plus the accelerometer's readiness.
- The wake pipe is a counter of unread bytes.

`pollEvents` takes the whole script: one `Cycle` per pass of its do-while loop. It returns the events and the list of `poll()` calls it made, with the timeout each call was given.

Modelling choices:

- `mEnabled` is modelled as the set of its 1 bits. `mask & (1 << i)` becomes `i in mask`, `mask &= ~(1 << i)` becomes `mask - {i}`, and `mask |= newState << i` becomes `mask + {i}` or `mask`. `if (mEnabled)` becomes `mask != {}`. Only bits 0..3 are ever touched, so nothing is lost.
- `(uint64_t) getDelay()` is modelled by `U64`, with its wrap-around.
- The `(int)` cast of the millisecond timeout is modelled by `ToInt32`, which keeps the value modulo 2^32. `setDelay` accepts any non-negative int64, so long timeouts are reachable:
  - a timeout from 2^31 ms up to (not including) 2^32 ms becomes a negative `poll()` timeout, so `poll()` waits forever (`LongDelayWaitsForever`);
  - larger timeouts wrap around: 2^32 ms becomes 0, a poll that does not block, and 2^32 ms plus t behaves as t (`LongDelayWrapsAround`).
- The source compares each read with `count`, the room still left in the buffer, to decide whether to clear the ready flag. The model does the same (`left` in the model).

## Model

| member | source | states |
|---|---|---|
| `PollModel.HandleToDriver` | libgsensors/sensors.cpp:131-143 | a handle yields a slot exactly when it is one of the four sensor ids, and then the slot equals the handle; otherwise the result is -EINVAL |
| `PollModel.U64` | libgsensors/sensors.cpp:220 | the uint64_t conversion of a delay is in range and congruent to it modulo 2^64 |
| `PollModel.ShortestDelayIsMinimum` | libgsensors/sensors.cpp:214-226 | the loop's minimum is no larger than the delay of any enabled slot, and it equals one of them, or 2^64-1 when no slot is enabled |
| `PollModel.EmptyMaskHasNoTimeout` | libgsensors/sensors.cpp:215-217 | with an empty mask the timeout is 2^64-1 |
| `PollModel.ToInt32` | libgsensors/sensors.cpp:273 | the (int) cast lands in the int32 range and keeps the value modulo 2^32 |
| `PollModel.PollDelay` | libgsensors/sensors.cpp:273 | "no timeout" gives poll() -1; a timeout under 2^31 ms gives its whole milliseconds |
| `PollModel.LongDelayWaitsForever` | libgsensors/sensors.cpp:273 | a timeout from 2^31 ms up to 2^32 ms is passed to poll() as a negative number, so poll() waits forever |
| `PollModel.LongDelayWrapsAround` | libgsensors/sensors.cpp:273 | 2^32 ms more gives poll() the same timeout, and exactly 2^32 ms gives 0, a poll that does not block |
| `PollModel.ReadShare` | libgsensors/sensors.cpp:254 | each driver's share is at least 1; it is a quarter of the room rounded down when the room exceeds four, so four shares never exceed the room |
| `PollModel.SharesIsProduct` | libgsensors/sensors.cpp:254-255 | n shares of the room take n times the share |
| `PollModel.OutputFits` | libgsensors/sensors.cpp:258 | a driver read for at most readCount events hands over at most readCount |
| `PollModel.OutputReported` | libgsensors/sensors.cpp:256-258 | every event a driver hands over carries that driver's slot and sensor type and comes from an enabled driver; reading enables or disables nothing |
| `PollModel.CollectStep` | libgsensors/sensors.cpp:255-266 | one turn of the for loop: the events so far, then slot i's events, then the rest of the pass from slot i + 1 make the whole pass; slot i is among the slots the pass reaches |
| `PollModel.CollectNothing` | libgsensors/sensors.cpp:255-266 | slots that hand over nothing add nothing to the pass |
| `PollModel.CollectFits` | libgsensors/sensors.cpp:254-266 | when every slot hands over at most its share, a pass collects at most the room it started with |
| `PollModel.CollectInSlotOrder` | libgsensors/sensors.cpp:255-266 | when each slot hands over only its own events, a pass holds them grouped by slot in the order 0..3, all from enabled drivers |
| `PollModel.AdvanceStep` | libgsensors/sensors.cpp:256-258 | the drivers share no state: reading slot i after other slots sees and hands over what it would have first, and whether it is served does not change |
| `PollModel.AdvanceNothing` | libgsensors/sensors.cpp:255-257 | a pass in which no slot is served changes no driver |
| `PollModel.ProgressStart` | libgsensors/sensors.cpp:254-255 | before slot 0, nothing is emitted, the whole room is left, and the room holds all four shares |
| `PollModel.ProgressRoom` | libgsensors/sensors.cpp:254-258 | while room is left, the next driver's share fits in it |
| `PollModel.ProgressStep` | libgsensors/sensors.cpp:256-265 | serving slot i as the loop does (read it when it has pending data or its ready flag, clear the flag on a read shorter than the room) hands over exactly that slot's part of the pass and advances the pass by one slot |
| `PollModel.ProgressEnd` | libgsensors/sensors.cpp:255 | once the room is used up or every slot had its turn, the events, the drivers' states and the accelerometer's ready flag are exactly those of the pass |
| `PollModel.PassShape` | libgsensors/sensors.cpp:254-267 | a pass holds at most its room, only events of enabled drivers, grouped by slot in the order 0..3, at most one share from each slot, and enables or disables nothing |
| `PollModel.RunShape` | libgsensors/sensors.cpp:252-292 | pollEvents collects at most its count, keeps the events already collected, returns their number or a negative error, and adds only events of enabled drivers |
| `PollModel.RunPolls` | libgsensors/sensors.cpp:269-291 | pollEvents makes at most one poll() per cycle; a negative result is the -errno of the last poll(), and returning less than count means the last poll() found nothing ready; with no room it makes no poll() and returns what it had |
| `PollModel.RunPollCalls` | libgsensors/sensors.cpp:273-274 | every poll() comes after between 0 and count events were collected, and waits for mTimeout only when none were, otherwise not at all |
| `PollModel.IdlePass` | libgsensors/sensors.cpp:255-267 | with no value sensor enabled and the accelerometer's flag clear, a pass reads nothing and changes nothing |
| `PollModel.AccelerometerPass` | libgsensors/sensors.cpp:255-267 | with no value sensor enabled and the accelerometer's flag set, a pass collects exactly the accelerometer's own read |
| `PollModel.LightOnlyRun` | libgsensors/sensors.cpp:252-292 | with only the light sensor enabled and the accelerometer not flagged, a call whose poll() finds nothing ready returns exactly the light sensor's own output: its new value, or nothing |
| `PollModel.RunStep` | libgsensors/sensors.cpp:252-291 | one turn of the do-while loop: a full buffer, a failed poll() or a poll() with nothing ready ends the call with the events, poll() calls and states it has; ready descriptors with room left lead to the next turn |
| `PollModel.OneReadyDriver` | libgsensors/sensors.cpp:252-292 | with only the accelerometer enabled and idle, the first poll() waits for the full timeout; when it then reports the accelerometer ready, pollEvents returns exactly the k events the device had (k at most the share), polling once more without a timeout when room is left |
| `PollContext.SensorsPollContext.TimeoutIsShortestEnabledDelay` | libgsensors/sensors.cpp:214-226 | in every valid state mTimeout is at most every enabled value sensor's delay and equals one of them, and it is "no timeout" exactly when none is enabled |
| `PollContext.SensorsPollContext.constructor` | libgsensors/sensors.cpp:148-178 | four fresh drivers, all disabled, the accelerometer on the given descriptor, delays -1 for the accelerometer and 200000000 for the others; the drivers' reading state as their constructors leave it (no input records, a zeroed motion, last values -1, no failed read warned about); an empty mask, no timeout, no wake byte, no ready flag, and the invariant established |
| `PollContext.SensorsPollContext.EnableDriver` | libgsensors/sensors.cpp:195 | only the addressed driver's enabled flag changes; proximity also forgets its last value; the result is 0 |
| `PollContext.SensorsPollContext.UpdateDelay` | libgsensors/sensors.cpp:214-226 | mTimeout becomes the shortest (uint64_t) delay of the slots in the mask, 2^64-1 when the mask is empty |
| `PollContext.SensorsPollContext.SetDriverDelay` | libgsensors/sensors.cpp:239 | the addressed value sensor's delay becomes ns, the accelerometer's stays -1, the others are unchanged, and the result is 0 |
| `PollContext.SensorsPollContext.SyncMask` | libgsensors/sensors.cpp:196-203 | the slot's bit follows its new state, the other bits are unchanged, the timeout is recomputed, and it is unchanged when the bit did not flip |
| `PollContext.SensorsPollContext.Activate` | libgsensors/sensors.cpp:189-212 | an unknown handle returns -EINVAL and changes nothing. Otherwise only the addressed driver's enabled flag changes, and proximity's last value is reset exactly when proximity is enabled; the mask gains or loses that value sensor's bit, never the accelerometer's; the timeout changes only when the mask does; one wake byte is written exactly when enabling succeeded; the invariant is kept |
| `PollContext.SensorsPollContext.SetDelay` | libgsensors/sensors.cpp:228-243 | a bad handle, then a negative delay, return -EINVAL with delays and timeout unchanged; otherwise the addressed value sensor takes the delay and the invariant (timeout = shortest enabled delay) is re-established |
| `PollContext.SensorsPollContext.ReadDriver` | libgsensors/sensors.cpp:258 | a driver read returns exactly that driver's own output for the budget (the accelerometer's `Drain` over its records, a value sensor's reading when new), writes it at buf[p..p+nb] and nowhere else, and takes the driver to its own next state |
| `PollContext.SensorsPollContext.ServeSlot` | libgsensors/sensors.cpp:256-266 | a driver is read exactly when it has pending events or its descriptor was ready, and then hands over its own output; its ready flag is cleared exactly when it was read and returned less than the room left |
| `PollContext.SensorsPollContext.ServeNext` | libgsensors/sensors.cpp:256-266 | slot i's turn hands over exactly slot i's part of the pass, right after the events of the slots before it, and advances the pass by one slot |
| `PollContext.SensorsPollContext.ReadPass` | libgsensors/sensors.cpp:254-267 | one pass writes exactly the events of `Pass` over the drivers' states at buf[start..start+got], leaves the drivers in the pass's final states, clears the accelerometer's ready flag when it returned less than the room, and changes nothing else in buf |
| `PollContext.SensorsPollContext.PollOnce` | libgsensors/sensors.cpp:274-288 | a failing poll() yields -errno and changes nothing; otherwise the ready flags of the descriptor-less slots and the wake pipe are cleared, one wake byte is consumed if any was pending, and the count of ready descriptors is returned |
| `PollContext.SensorsPollContext.Round` | libgsensors/sensors.cpp:252-289 | one turn of the do-while loop: exactly the pass, then poll() only when room is left; the accelerometer's flag is poll()'s answer after a successful poll() and the pass's otherwise |
| `PollContext.SensorsPollContext.Turn` | libgsensors/sensors.cpp:252-291 | a turn on its way to the outcome of `Run`: with room left and descriptors ready the next turn is on its way to it; otherwise it is reached, with the events in buf, the poll() calls made and the drivers' states |
| `PollContext.SensorsPollContext.PollRounds` | libgsensors/sensors.cpp:252-292 | the do-while loop returns `Run`'s result and poll() calls, leaves its events in buf and its states in the drivers, and consumes one wake byte per answered poll() |
| `PollContext.SensorsPollContext.PollEvents` | libgsensors/sensors.cpp:245-293 | the result, the events at buf[0..], the poll() calls and the drivers' states are exactly those of `Run` over the script; so at most count events, each from an enabled driver; beyond r the buffer is unchanged; a poll() failure returns -errno; poll() gets timeout 0 once events were collected and PollDelay(mTimeout) otherwise; returning fewer than count events means the last poll() reported nothing ready; wake bytes are consumed one per answered poll |
| `PollContext.SensorsPollContext.DriverViewsAgree` | libgsensors/sensors.cpp:256-257 | the context's per-slot views (enabled flags, hasPendingEvents()) agree with the model's enabled set and pending test |
| `PollContext.FirstLightReading` | libgsensors/sensors.cpp:148-293 | a new context with the light sensor enabled, whose first pass reads a value other than -1 while nothing else is ready, returns exactly one event: that value as a light event, with the reading's time |
| `PollContext.DelayScenario` | libgsensors/sensors.cpp:189-243 | with 20 ms on the accelerometer and 200 ms on the temperature monitor, both enabled, the timeout is 200 ms; disabling the monitor leaves no timeout, and enabling it again restores 200 ms |
| `AccelerometerDriver.RateCode` | libgsensors/Accelerometer.cpp:57-77 | the rate code is 5, 10, 20 or 40 and is the period of its frequency in ms; it is 5 exactly when ns <= FASTEST and 40 exactly when ns exceeds all three thresholds; with ordered thresholds, 10 and 20 exactly on their intervals |
| `AccelerometerDriver.RateCodeMonotone` | libgsensors/Accelerometer.cpp:71-77 | a longer delay never selects a faster rate |
| `AccelerometerDriver.Snapshots` | libgsensors/Accelerometer.cpp:118-141 | an enabled reader publishes one accelerometer event per EV_SYN record |
| `AccelerometerDriver.Drain` | libgsensors/Accelerometer.cpp:118-141 | the read loop publishes at most count events and leaves no more records than it was given |
| `AccelerometerDriver.DrainStops` | libgsensors/Accelerometer.cpp:118 | with the budget spent or no records, nothing is consumed or published |
| `AccelerometerDriver.DrainStep` | libgsensors/Accelerometer.cpp:118-140 | one turn of the loop consumes the first record and publishes it only if it is EV_SYN while enabled |
| `AccelerometerDriver.DrainShape` | libgsensors/Accelerometer.cpp:118-141 | the records left unread are a suffix; a disabled driver publishes nothing; the loop stops early only when count is spent; every event is tagged ID_A / accelerometer |
| `AccelerometerDriver.DrainFullEndsAtSync` | libgsensors/Accelerometer.cpp:118-141 | a drain that fills its budget was enabled and stopped right after the EV_SYN record it published last |
| `AccelerometerDriver.DrainPending` | libgsensors/Accelerometer.cpp:118-141 | the pending event left behind is the one after the consumed records |
| `AccelerometerDriver.DrainEvents` | libgsensors/Accelerometer.cpp:118-141 | while enabled, the events written are exactly the snapshots of the consumed records |
| `AccelerometerDriver.DrainIsSnapshots` | libgsensors/Accelerometer.cpp:118-141 | the loop consumes a prefix of the records and leaves the pending event after that prefix; it writes one snapshot per EV_SYN of the prefix while enabled, none while disabled |
| `AccelerometerDriver.ProcessIsLatest` | libgsensors/Accelerometer.cpp:120-126 | the pending event carries the most recent ABS_X/ABS_Y/ABS_Z values and the most recent EV_SYN time |
| `AccelerometerDriver.Accelerometer.constructor` | libgsensors/Accelerometer.cpp:36-48 | the driver starts disabled with delay -1, an empty reader and a zeroed pending event |
| `AccelerometerDriver.Accelerometer.SetDelay` | libgsensors/Accelerometer.cpp:55-89 | returns 0 whatever happens to the rate file, and the code it would write is RateCode(ns) |
| `AccelerometerDriver.Accelerometer.GetDelay` | libgsensors/Accelerometer.cpp:91-93 | the delay is always -1 |
| `AccelerometerDriver.Accelerometer.Enable` | libgsensors/Accelerometer.cpp:95-101 | enabled becomes en != 0 and the input descriptor is open; the result is 0 |
| `AccelerometerDriver.Accelerometer.HasPendingEvents` | libgsensors/Accelerometer.cpp:103-105 | never claims pending events |
| `AccelerometerDriver.Accelerometer.ProcessEvent` | libgsensors/Accelerometer.cpp:145-157 | an ABS_X/ABS_Y/ABS_Z record updates that axis of the pending event, any other code nothing |
| `AccelerometerDriver.Accelerometer.ReadEvents` | libgsensors/Accelerometer.cpp:107-143 | count < 1 gives -EINVAL and a fill failure gives -errno, both consuming nothing; otherwise the result, the pending event, the records left and buf[p..p+nb] are exactly what Drain gives for the buffered plus newly filled records, and the rest of buf is unchanged |
| `LightDriver.LightSensor.constructor` | libgsensors/LightSensor.cpp:39-47 | the sensor starts disabled with delay 200000000 and last value -1 |
| `LightDriver.LightSensor.SetDelay` | libgsensors/LightSensor.cpp:52-59 | the delay is stored verbatim, getDelay returns it, and the result is 0 |
| `LightDriver.LightSensor.Enable` | libgsensors/LightSensor.cpp:61-67 | enabled becomes en != 0, the last value is kept, and the result is 0 |
| `LightDriver.LightSensor.HasPendingEvents` | libgsensors/LightSensor.cpp:69-74 | pending exactly when enabled |
| `LightDriver.LightSensor.ReadEvents` | libgsensors/LightSensor.cpp:76-118 | at most one event. It is written exactly when count >= 1, the buffer is non-null, the sensor is enabled and a value different from the last one was read; it is then (ID_L, light, value, now) and becomes the last value. Otherwise nothing changes. The warned flag stays false |
| `LightDriver.RepeatedReadingReportsOnce` | libgsensors/LightSensor.cpp:106-117 | the same reading twice after enabling is reported once |
| `TemperatureDriver.TemperatureMonitor.constructor` | libgsensors/TemperatureMonitor.cpp:31-39 | the monitor starts disabled with delay 200000000 and last value -1 |
| `TemperatureDriver.TemperatureMonitor.SetDelay` | libgsensors/TemperatureMonitor.cpp:44-51 | the delay is stored verbatim, getDelay returns it, and the result is 0 |
| `TemperatureDriver.TemperatureMonitor.Enable` | libgsensors/TemperatureMonitor.cpp:53-59 | enabled becomes en != 0, the last value is kept, and the result is 0 |
| `TemperatureDriver.TemperatureMonitor.HasPendingEvents` | libgsensors/TemperatureMonitor.cpp:61-66 | pending exactly when enabled |
| `TemperatureDriver.TemperatureMonitor.ReadEvents` | libgsensors/TemperatureMonitor.cpp:68-110 | at most one event. It is written exactly when count >= 1, the buffer is non-null, the sensor is enabled and a value different from the last one was read; it is then (ID_T, temperature, value, now) and becomes the last value. Otherwise nothing changes |
| `ProximityDriver.DistanceOf` | libgsensors/ProximitySensor.cpp:96 | the distance is 0 (near) exactly for readings above 5000, and 1 (far) otherwise |
| `ProximityDriver.Observed` | libgsensors/ProximitySensor.cpp:77-90 | a parsed value is used as is; an open failure gives nothing; a failed read gives nothing the first time and 0 (the zeroed buffer) once warned |
| `ProximityDriver.ProximitySensor.constructor` | libgsensors/ProximitySensor.cpp:31-39 | the sensor starts disabled, not warned, with delay 200000000 and last value -1 |
| `ProximityDriver.ProximitySensor.SetDelay` | libgsensors/ProximitySensor.cpp:44-51 | the delay is stored verbatim, getDelay returns it, and the result is 0 |
| `ProximityDriver.ProximitySensor.Enable` | libgsensors/ProximitySensor.cpp:53-61 | enabled becomes en != 0; enabling also resets the last value to -1; the result is 0 |
| `ProximityDriver.ProximitySensor.HasPendingEvents` | libgsensors/ProximitySensor.cpp:63-68 | pending exactly when enabled |
| `ProximityDriver.ProximitySensor.ReadEvents` | libgsensors/ProximitySensor.cpp:70-101 | the warned flag is set by the first failed read. At most one event: it is written exactly when count >= 1, the buffer is non-null, the sensor is enabled and the observed value differs from the last one; it is then (ID_P, proximity, near/far of the value, now) and becomes the last value |
| `ProximityDriver.ReenableReportsAgain` | libgsensors/ProximitySensor.cpp:53-61 | a repeated value is suppressed, but after disable and enable the same value is reported again |
| `ProximityDriver.SecondFailedReadReports` | libgsensors/ProximitySensor.cpp:85-98 | only the first failed read is silent: the second reports the zeroed buffer as value 0, i.e. far |

## Left out

- HAL boilerplate is not modelled: the sensor list, the module descriptor and the C-ABI device shim. They are wiring without logic.
- The `pipe`, `fcntl`, `write`, `read` and `close` calls of the wake channel are not modelled. The pipe is a counter of unread wake bytes, and `poll()` reports the read end ready exactly when the counter is positive. A `write` that fails on a full pipe is not modelled.
- `poll()` is an input: one scripted reply per pass. File opens, file reads and `atof` are inputs too: a `FileRead` outcome carrying the parsed number. The clock `now_ns` is a timestamp carried with each reading.
- Logging is not modelled, and neither are the `getFd` accessors or the rate-control write of `Accelerometer::setDelay`. That write's code is returned instead.
- `InputReader` internals (`fill`, `readEvent`, `next`, the 32-record capacity) are not modelled. The reader is a sequence of pending records. `fill()` is an input that either appends a batch or fails with an errno.
- Floating point is not modelled. Readings are `real`, comparisons are exact, and NaN and rounding do not arise. `G_SCALE` is not applied: accelerations carry the raw axis values.
- The `SENSOR_DELAY_FASTEST`, `SENSOR_DELAY_GAME` and `SENSOR_DELAY_UI` thresholds are defined in a header that is not part of this model. They are a `RateThresholds` parameter of the accelerometer.
- `poll()`'s reply is not checked against the descriptors. The model takes any reply: for example a count of 0 with the accelerometer flagged, or a positive count with no descriptor ready. With a reply of 0 while wake bytes are pending, which a real poll() would not give, the model still reads one wake byte, following the counter.
- The `version` field of every event and the accelerometer's `acceleration.status` are not modelled. Each driver fixes them (`sizeof(sensors_event_t)` and `SENSOR_STATUS_ACCURACY_HIGH`), so they carry no information.
- Concurrency between `activate` and a blocked `pollEvents` is not modelled. Every operation runs alone.
- Some fields are left uninitialized in the source. The accelerometer's pending axes and timestamp start at 0 in the model. The `revents` of the three descriptor-less slots, which the constructor never sets, start clear.
- PollContext.SensorsPollContext.PollEvents: four contract notes.
  - It requires the script to end with a reply that stops the loop (an error, or no ready descriptor). The source could loop for ever; the finite script is the fuel.
  - A negative `count` is excluded. In the source a negative count passes the loop's `count &&` test, and each served driver is still read for a share of 1, so events are written although the caller asked for none; and `count > 0` fails, so no poll() follows. The model does not cover that call.
  - Inside it the accelerometer's `fill()` always succeeds. A fill failure would return a negative count to `pollEvents`, which the source would add to its totals; that path is not modelled.
  - Its contract ties the result to `Run`. Properties of `Run` are proved as separate lemmas (`RunShape`, `RunPolls`, `RunPollCalls`, `OneReadyDriver`); the slot order within one pass is proved for `Pass` (`PassShape`) and not restated for the whole call.
- PollModel.OneReadyDriver: the accelerometer returns at most one share of the room in the pass after the wake-up. So "exactly k" holds for the k events the device has within that share; with more records ready, the rest waits for a later pass or call.
- PollContext.SensorsPollContext.Activate: the driver-error branch is not modelled. Every driver's `enable` returns 0, so that branch of `activate` is dead, and the model proves the result is 0 for every valid handle.
- LightDriver.LightSensor.ReadEvents and TemperatureDriver.TemperatureMonitor.ReadEvents require the class invariant that the warned flag is false. The constructor establishes it and every method preserves it. The branch the source takes for a failed read once warned is therefore dead, but it is kept.
- The buffer of every `pollEvents` call is assumed large enough for `count` events (`count <= buf.Length`). That is the caller's promise in the HAL interface.
