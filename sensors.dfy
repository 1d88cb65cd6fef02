// The sensors HAL poll context: it owns the four drivers, keeps a bit mask of
// the enabled value sensors and the shortest of their delays, and multiplexes
// driver reads with poll() over the accelerometer's input device and a wake pipe.

module PollContext {
  import opened SensorTypes
  import opened AccelerometerDriver
  import opened LightDriver
  import opened ProximityDriver
  import opened TemperatureDriver
  import opened PollModel

  class SensorsPollContext {
    const accelerometer: Accelerometer
    const light: LightSensor
    const proximity: ProximitySensor
    const temperature: TemperatureMonitor
    /** mEnabled, as the set of its 1 bits: slot i is in it when value sensor i is enabled. */
    var enabledMask: set<int>
    /** mTimeout: the shortest delay of the enabled value sensors, U64_MAX when none. */
    var timeout: nat
    /** The POLLIN bit of each mPollFds[i].revents. */
    var revents: seq<bool>
    /** Wake messages written to the pipe and not yet read back. */
    var wakePending: nat

    /** The drivers' getDelay(), by slot. */
    function Delays(): (ds: seq<Int64>)
      reads accelerometer`delayTime, light`delayTime, proximity`delayTime, temperature`delayTime
      requires accelerometer.Valid()
      ensures |ds| == NUM_DRIVERS
    {
      [accelerometer.GetDelay(), light.GetDelay(), proximity.GetDelay(), temperature.GetDelay()]
    }

    /** Whether the driver in slot i is enabled. */
    predicate DriverEnabled(i: int)
      reads accelerometer`enabled, light`enabled, proximity`enabled, temperature`enabled
    {
      if i == ACCELEROMETER then accelerometer.enabled
      else if i == LIGHT then light.enabled
      else if i == PROXIMITY then proximity.enabled
      else if i == TEMPERATURE then temperature.enabled
      else false
    }

    /** The driver in slot i says it has data without a poll. */
    predicate DriverHasPendingEvents(i: int)
      reads accelerometer`enabled, light`enabled, proximity`enabled, temperature`enabled
    {
      if i == ACCELEROMETER then accelerometer.HasPendingEvents()
      else if i == LIGHT then light.HasPendingEvents()
      else if i == PROXIMITY then proximity.HasPendingEvents()
      else if i == TEMPERATURE then temperature.HasPendingEvents()
      else false
    }

    /** The slots of the enabled drivers. */
    function EnabledDrivers(): (slots: set<int>)
      reads accelerometer`enabled, light`enabled, proximity`enabled, temperature`enabled
      ensures forall i | 0 <= i < NUM_DRIVERS :: i in slots <==> DriverEnabled(i)
      ensures slots <= {ACCELEROMETER, LIGHT, PROXIMITY, TEMPERATURE}
    {
      (if accelerometer.enabled then {ACCELEROMETER} else {})
      + (if light.enabled then {LIGHT} else {})
      + (if proximity.enabled then {PROXIMITY} else {})
      + (if temperature.enabled then {TEMPERATURE} else {})
    }

    /** The state the drivers' readEvents works on. */
    function States(): DriverStates
      reads accelerometer`enabled, accelerometer`pending, accelerometer`reader,
            light`enabled, light`lastValue, light`alreadyWarned,
            proximity`enabled, proximity`lastValue, proximity`alreadyWarned,
            temperature`enabled, temperature`lastValue, temperature`alreadyWarned
    {
      DriverStates(accelerometer.enabled, accelerometer.pending, accelerometer.reader,
                   ValueState(light.enabled, light.lastValue, light.alreadyWarned),
                   ValueState(proximity.enabled, proximity.lastValue, proximity.alreadyWarned),
                   ValueState(temperature.enabled, temperature.lastValue, temperature.alreadyWarned))
    }

    /**
     * The context's per-driver views agree with the model of the drivers'
     * states: the same slots are enabled, and the same ones have pending data.
     */
    lemma DriverViewsAgree()
      ensures EnabledDrivers() == Enabled(States())
      ensures forall i | 0 <= i < NUM_DRIVERS :: DriverHasPendingEvents(i) == Pending(States(), i)
    {
    }

    /** The drivers' own invariants. */
    ghost predicate DriversValid()
      reads accelerometer`delayTime, light`alreadyWarned, temperature`alreadyWarned
    {
      accelerometer.Valid() && light.Valid() && temperature.Valid()
    }

    /** The mask and the timeout agree with the value sensors' enabled flags and delays. */
    ghost predicate MaskValid()
      reads this`enabledMask, this`timeout, light`enabled, proximity`enabled, temperature`enabled,
            accelerometer`delayTime, light`delayTime, proximity`delayTime, temperature`delayTime
    {
      accelerometer.Valid()
      && MaskAgrees(enabledMask, light.enabled, proximity.enabled, temperature.enabled, Delays(), timeout)
    }

    /** The poll context's invariant: the drivers', the mask's and the descriptors'. */
    ghost predicate Valid()
      reads this`enabledMask, this`timeout, this`revents, light`alreadyWarned, temperature`alreadyWarned,
            light`enabled, proximity`enabled, temperature`enabled,
            accelerometer`delayTime, light`delayTime, proximity`delayTime, temperature`delayTime
    {
      DriversValid() && MaskValid() && FdsAgree(revents)
    }

    /**
     * mTimeout is the shortest delay among the enabled value sensors, and it
     * is "no timeout" exactly when none of them is enabled.
     */
    lemma TimeoutIsShortestEnabledDelay()
      requires Valid()
      ensures forall i | i in enabledMask :: LIGHT <= i < NUM_DRIVERS && timeout <= Delays()[i]
      ensures enabledMask != {} ==> exists i | i in enabledMask :: 0 <= i < NUM_DRIVERS && timeout == Delays()[i]
      ensures timeout == U64_MAX <==> enabledMask == {}
    {
      ShortestDelayIsMinimum(enabledMask, Delays(), NUM_DRIVERS);
    }

    /**
     * Four new drivers, all disabled, with their initial delays and reading
     * state (no input records, a zeroed motion, last values -1, no failed read
     * warned about); nothing is enabled, there is no timeout and no
     * descriptor is flagged ready. The accelerometer's input descriptor and
     * rate thresholds come from outside.
     */
    constructor (accelerometerFd: int, rates: RateThresholds)
      ensures Valid()
      ensures fresh(accelerometer) && fresh(light) && fresh(proximity) && fresh(temperature)
      ensures accelerometer.dataFd == accelerometerFd && accelerometer.rates == rates
      ensures enabledMask == {} && timeout == U64_MAX && wakePending == 0
      ensures revents == [false, false, false, false, false]
      ensures Delays() == [-1, 200000000, 200000000, 200000000]
      ensures forall i | 0 <= i < NUM_DRIVERS :: !DriverEnabled(i)
      ensures States() == DriverStates(false, Motion(0, 0, 0, 0), [], ValueState(false, -1.0, false),
                                       ValueState(false, -1.0, false), ValueState(false, -1.0, false))
    {
      accelerometer := new Accelerometer(accelerometerFd, rates);
      light := new LightSensor();
      proximity := new ProximitySensor();
      temperature := new TemperatureMonitor();
      enabledMask := {};
      timeout := U64_MAX;
      revents := [false, false, false, false, false];
      wakePending := 0;
      new;
      EmptyMaskHasNoTimeout(Delays());
    }

    /** The enable() of the driver in slot index. */
    method EnableDriver(index: int, en: int) returns (err: int)
      requires 0 <= index < NUM_DRIVERS
      modifies accelerometer`enabled, light`enabled, proximity`enabled, proximity`lastValue,
               temperature`enabled
      ensures err == 0
      ensures accelerometer.enabled == if index == ACCELEROMETER then en != 0 && accelerometer.dataFd >= 0
                                       else old(accelerometer.enabled)
      ensures light.enabled == if index == LIGHT then en != 0 else old(light.enabled)
      ensures proximity.enabled == if index == PROXIMITY then en != 0 else old(proximity.enabled)
      ensures proximity.lastValue == if index == PROXIMITY && en != 0 then -1.0 else old(proximity.lastValue)
      ensures temperature.enabled == if index == TEMPERATURE then en != 0 else old(temperature.enabled)
      ensures forall j | 0 <= j < NUM_DRIVERS && j != index :: DriverEnabled(j) == old(DriverEnabled(j))
    {
      if index == ACCELEROMETER {
        err := accelerometer.Enable(en);
      } else if index == LIGHT {
        err := light.Enable(en);
      } else if index == PROXIMITY {
        err := proximity.Enable(en);
      } else {
        err := temperature.Enable(en);
      }
    }

    /** update_delay: recomputes mTimeout from the enabled drivers' delays. */
    method UpdateDelay()
      requires accelerometer.Valid()
      modifies this`timeout
      ensures timeout == AggregateTimeout(enabledMask, Delays())
    {
      var time: nat := U64_MAX;
      var delays := Delays();
      if enabledMask != {} {
        for i := 0 to NUM_DRIVERS
          invariant time == ShortestDelay(enabledMask, delays, i)
        {
          if i in enabledMask {
            var temp := U64(delays[i]);
            time := if time < temp then time else temp;
          }
        }
      } else {
        EmptyMaskHasNoTimeout(delays);
      }
      timeout := time;
    }

    /** The setDelay() of the driver in slot index. */
    method SetDriverDelay(index: int, ns: Int64) returns (ret: int)
      requires 0 <= index < NUM_DRIVERS && accelerometer.Valid()
      modifies light`delayTime, proximity`delayTime, temperature`delayTime
      ensures ret == 0
      ensures forall j | 0 <= j < NUM_DRIVERS :: Delays()[j] == if j == index && j != ACCELEROMETER then ns else old(Delays()[j])
    {
      if index == ACCELEROMETER {
        var code;
        ret, code := accelerometer.SetDelay(ns);
      } else if index == LIGHT {
        ret := light.SetDelay(ns);
      } else if index == PROXIMITY {
        ret := proximity.SetDelay(ns);
      } else {
        ret := temperature.SetDelay(ns);
      }
    }

    /**
     * The mask half of activate: once the value sensor in slot index has been
     * switched to newState, its bit in mEnabled follows and the timeout is
     * recomputed when the bit changed.
     */
    method SyncMask(index: int, newState: bool)
      requires LIGHT <= index < NUM_DRIVERS && accelerometer.Valid()
      requires DriverEnabled(index) == newState
      requires enabledMask <= {LIGHT, PROXIMITY, TEMPERATURE}
      requires index == LIGHT || (LIGHT in enabledMask) == light.enabled
      requires index == PROXIMITY || (PROXIMITY in enabledMask) == proximity.enabled
      requires index == TEMPERATURE || (TEMPERATURE in enabledMask) == temperature.enabled
      requires forall j | LIGHT <= j < NUM_DRIVERS :: Delays()[j] >= 0
      requires timeout == AggregateTimeout(enabledMask, Delays())
      modifies this`enabledMask, this`timeout
      ensures MaskValid()
      ensures enabledMask == if newState then old(enabledMask) + {index} else old(enabledMask) - {index}
      ensures enabledMask == old(enabledMask) ==> timeout == old(timeout)
    {
      // uint32_t(newState) << index, as a set of bits
      var bit: set<int> := if newState then {index} else {};
      if bit != enabledMask * {index} {
        enabledMask := (enabledMask - {index}) + bit;
        UpdateDelay();
      }
    }

    /**
     * activate: enables or disables the sensor behind handle, keeps the mask
     * and the timeout in step with the value sensors, and wakes a pending
     * poll when a sensor is turned on.
     */
    method Activate(handle: int, enabled: int) returns (r: int)
      requires Valid()
      modifies this`enabledMask, this`timeout, this`wakePending,
               accelerometer`enabled, light`enabled, proximity`enabled, proximity`lastValue,
               temperature`enabled
      ensures Valid()
      ensures r == (if 0 <= handle < NUM_DRIVERS then 0 else -EINVAL)
      ensures r == 0 ==> DriverEnabled(handle) == (enabled != 0 && (handle == ACCELEROMETER ==> accelerometer.dataFd >= 0))
      ensures forall j | 0 <= j < NUM_DRIVERS && (r != 0 || j != handle) :: DriverEnabled(j) == old(DriverEnabled(j))
      ensures wakePending == old(wakePending) + (if r == 0 && enabled != 0 then 1 else 0)
      ensures enabledMask == if r == 0 && handle != ACCELEROMETER
                             then (if enabled != 0 then old(enabledMask) + {handle} else old(enabledMask) - {handle})
                             else old(enabledMask)
      ensures enabledMask == old(enabledMask) ==> timeout == old(timeout)
      ensures proximity.lastValue == if r == 0 && handle == PROXIMITY && enabled != 0 then -1.0
                                     else old(proximity.lastValue)
    {
      var index := HandleToDriver(handle);
      if index < 0 {
        return index;
      }
      var err := EnableDriver(index, enabled);
      if err == 0 && index != ACCELEROMETER {
        SyncMask(index, enabled != 0);
      }
      if enabled != 0 && err == 0 {
        wakePending := wakePending + 1;
      }
      return err;
    }

    /**
     * setDelay: rejects an unknown handle and then a negative delay, hands the
     * delay to the driver and recomputes the timeout.
     */
    method SetDelay(handle: int, ns: Int64) returns (r: int)
      requires Valid()
      modifies this`timeout, light`delayTime, proximity`delayTime, temperature`delayTime
      ensures Valid()
      ensures r == (if 0 <= handle < NUM_DRIVERS && ns >= 0 then 0 else -EINVAL)
      ensures forall j | 0 <= j < NUM_DRIVERS ::
                Delays()[j] == if r == 0 && j == handle && j != ACCELEROMETER then ns else old(Delays()[j])
      ensures r != 0 ==> timeout == old(timeout)
    {
      var index := HandleToDriver(handle);
      if index < 0 {
        return index;
      }
      if ns < 0 {
        return -EINVAL;
      }
      var ret := SetDriverDelay(index, ns);
      if ret >= 0 {
        UpdateDelay();
      }
      return ret;
    }
    /**
     * The readEvents() of the driver in slot i, given what the outside world
     * shows it this cycle: exactly that driver's output for the budget,
     * written at buf[p..] and nowhere else, and that driver's step; the
     * events are all from that driver while it is enabled.
     */
    method ReadDriver(i: int, buf: array<Event>, p: int, budget: int, c: Cycle) returns (nb: int)
      requires Valid()
      requires 0 <= i < NUM_DRIVERS && budget >= 1 && 0 <= p && p + budget <= buf.Length
      modifies accelerometer`pending, accelerometer`reader, light`lastValue, light`alreadyWarned,
               proximity`lastValue, proximity`alreadyWarned, temperature`lastValue, temperature`alreadyWarned, buf
      ensures Valid()
      ensures 0 <= nb <= budget
      ensures var out := Output(old(States()), i, budget, c);
              nb == |out| && forall k | 0 <= k < nb :: buf[p + k] == out[k]
      ensures States() == After(old(States()), i, budget, c)
      ensures forall j | p <= j < p + nb :: buf[j].sensor == i && Reported(buf[j], EnabledDrivers())
      ensures forall j | 0 <= j < p :: buf[j] == old(buf[j])
      ensures forall j | p + nb <= j < buf.Length :: buf[j] == old(buf[j])
    {
      ghost var delays := Delays();
      if i == ACCELEROMETER {
        ghost var d := Drain(accelerometer.pending, accelerometer.reader + c.records, accelerometer.enabled, budget);
        DrainShape(accelerometer.pending, accelerometer.reader + c.records, accelerometer.enabled, budget);
        nb := accelerometer.ReadEvents(buf, p, budget, Filled(c.records));
        forall j | p <= j < p + nb
          ensures buf[j].sensor == ACCELEROMETER && buf[j].kind == KindOf(ACCELEROMETER)
        {
          assert buf[p + (j - p)] == d.events[j - p];
        }
      } else if i == LIGHT {
        nb := light.ReadEvents(buf, p, budget, c.light);
      } else if i == PROXIMITY {
        nb := proximity.ReadEvents(buf, p, budget, c.proximity);
      } else {
        nb := temperature.ReadEvents(buf, p, budget, c.temperature);
      }
      assert Delays() == delays;
    }

    /**
     * One turn of pollEvents' for loop: the driver in slot i is read for its
     * share when it has pending data or its descriptor was ready, handing
     * over exactly its own output, and its ready flag is dropped once it
     * returns less than the room left.
     */
    method ServeSlot(i: int, buf: array<Event>, p: int, share: int, left: int, c: Cycle) returns (nb: int)
      requires Valid()
      requires 0 <= i < NUM_DRIVERS && 1 <= share <= left && 0 <= p && p + left <= buf.Length
      requires forall j | 0 <= j < p :: Reported(buf[j], EnabledDrivers())
      modifies this`revents,
               accelerometer`pending, accelerometer`reader, light`lastValue, light`alreadyWarned,
               proximity`lastValue, proximity`alreadyWarned, temperature`lastValue, temperature`alreadyWarned, buf
      ensures Valid()
      ensures 0 <= nb <= share
      ensures !(DriverHasPendingEvents(i) || old(revents)[i]) ==> nb == 0
      ensures var served := DriverHasPendingEvents(i) || old(revents)[i];
              var out := if served then Output(old(States()), i, share, c) else [];
              nb == |out| && (forall k | 0 <= k < nb :: buf[p + k] == out[k])
              && States() == if served then After(old(States()), i, share, c) else old(States())
      ensures revents == if (DriverHasPendingEvents(i) || old(revents)[i]) && nb < left
                         then old(revents)[i := false] else old(revents)
      ensures forall j | 0 <= j < p + nb :: Reported(buf[j], EnabledDrivers())
      ensures forall j | p <= j < p + nb :: buf[j].sensor == i
      ensures forall j | 0 <= j < p :: buf[j] == old(buf[j])
      ensures forall j | p + nb <= j < buf.Length :: buf[j] == old(buf[j])
    {
      nb := 0;
      if DriverHasPendingEvents(i) || revents[i] {
        nb := ReadDriver(i, buf, p, share, c);
        if nb < left {
          // a short read means the driver is drained for now
          revents := revents[i := false];
        }
      }
    }

    /**
     * How far a pass of pollEvents' for loop has got, on the buffer (orig
     * before the pass, emitted at buf[start..start + got] now) and on the
     * drivers' states and descriptor flags. Progress is stated for the
     * states st the drivers are in, as in OnWay.
     */
    ghost predicate PassSoFar(buf: array<Event>, orig: seq<Event>, rev0: seq<bool>, start: int, room: int,
                              share: int, c: Cycle, s0: DriverStates, ready: bool,
                              i: int, left: int, got: int, emitted: seq<Event>, reached: set<int>)
      reads this, accelerometer, light, proximity, temperature, buf
    {
      Valid() && |orig| == buf.Length && 0 <= start && start + room <= buf.Length
      && 0 <= i <= NUM_DRIVERS && share == ReadShare(room)
      && 0 <= got && 0 <= left && got + left == room && |emitted| == got
      && (forall j | 0 <= j < start + got :: Reported(buf[j], EnabledDrivers()))
      && (forall j | 0 <= j < start :: buf[j] == orig[j])
      && (forall j | start + got <= j < buf.Length :: buf[j] == orig[j])
      && (forall k | 0 <= k < got :: buf[start + k] == emitted[k])
      && (forall st | st == States() ::
            Progress(s0, ready, room, share, c, rev0, i, left, got, emitted, reached, st, revents))
    }

    /**
     * The turn of slot i seen from the pass it belongs to: the slot hands
     * over its offer from s0 right after the events emitted so far, and the
     * pass advances by one slot.
     */
    method ServeNext(buf: array<Event>, ghost orig: seq<Event>, ghost rev0: seq<bool>, start: int, room: int,
                     share: int, c: Cycle, ghost s0: DriverStates, ghost ready: bool,
                     i: int, left: int, got: int, ghost emitted: seq<Event>, ghost reached: set<int>)
      returns (nb: int)
      requires PassSoFar(buf, orig, rev0, start, room, share, c, s0, ready, i, left, got, emitted, reached)
      requires i < NUM_DRIVERS && left != 0
      modifies this`revents,
               accelerometer`pending, accelerometer`reader, light`lastValue, light`alreadyWarned,
               proximity`lastValue, proximity`alreadyWarned, temperature`lastValue, temperature`alreadyWarned, buf
      ensures nb == |Offers(s0, ready, share, c)[i]|
      ensures PassSoFar(buf, orig, rev0, start, room, share, c, s0, ready, i + 1, left - nb, got + nb,
                        emitted + Offers(s0, ready, share, c)[i], reached + {i})
    {
      ghost var states := States();
      ghost var rev := revents;
      ghost var pending := DriverHasPendingEvents(i);
      assert pending == Pending(states, i);
      ProgressRoom(s0, ready, room, share, c, rev0, i, left, got, emitted, reached, states, rev);
      var p := start + got;
      nb := ServeSlot(i, buf, p, share, left, c);
      ProgressStep(s0, ready, room, share, c, rev0, i, left, got, emitted, reached, states, rev,
                   pending, nb, States(), revents);
      ghost var out := Offers(s0, ready, share, c)[i];
      forall k | 0 <= k < got + nb
        ensures buf[start + k] == (emitted + out)[k]
      {
        if k >= got {
          assert buf[p + (k - got)] == out[k - got];
        }
      }
    }

    /**
     * One pass of pollEvents' for loop over the drivers, each given the same
     * share of the room: the events land at buf[start..start + got] and are
     * the pass of the drivers' states (each served driver's own output, in
     * slot order, until the room is used up); the accelerometer's ready flag
     * is dropped when it returned less than the room.
     */
    method ReadPass(buf: array<Event>, start: int, room: int, c: Cycle) returns (got: int)
      requires Valid()
      requires 0 <= start && 0 <= room && start + room <= buf.Length
      requires forall j | 0 <= j < start :: Reported(buf[j], EnabledDrivers())
      modifies this`revents,
               accelerometer`pending, accelerometer`reader, light`lastValue, light`alreadyWarned,
               proximity`lastValue, proximity`alreadyWarned, temperature`lastValue, temperature`alreadyWarned, buf
      ensures Valid()
      ensures 0 <= got <= room
      ensures room == 0 ==> got == 0
      ensures var pass := Pass(old(States()), old(revents)[ACCELEROMETER], room, c);
              got == |pass.events| && (forall k | 0 <= k < got :: buf[start + k] == pass.events[k])
              && States() == pass.after
      ensures revents == old(revents)[ACCELEROMETER := ReadyAfter(old(States()), old(revents)[ACCELEROMETER], room, c)]
      ensures forall j | 0 <= j < start + got :: Reported(buf[j], EnabledDrivers())
      ensures forall j | 0 <= j < start :: buf[j] == old(buf[j])
      ensures forall j | start + got <= j < buf.Length :: buf[j] == old(buf[j])
    {
      var readCount := ReadShare(room);
      ghost var s0 := States();
      ghost var ready := revents[ACCELEROMETER];
      ghost var orig := buf[..];
      ghost var rev0 := revents;
      ghost var emitted: seq<Event> := [];
      ghost var reached: set<int> := {};
      ProgressStart(s0, ready, room, c, rev0);
      var left := room;
      got := 0;
      var i := 0;
      while left != 0 && i < NUM_DRIVERS
        invariant PassSoFar(buf, orig, rev0, start, room, readCount, c, s0, ready, i, left, got, emitted, reached)
        decreases NUM_DRIVERS - i
      {
        var nb := ServeNext(buf, orig, rev0, start, room, readCount, c, s0, ready, i, left, got, emitted, reached);
        emitted := emitted + Offers(s0, ready, readCount, c)[i];
        reached := reached + {i};
        left := left - nb;
        got := got + nb;
        i := i + 1;
      }
      ProgressEnd(s0, ready, room, readCount, c, rev0, i, left, got, emitted, reached, States(), revents);
    }

    /**
     * The poll() of pollEvents and what follows it, given poll()'s answer:
     * an error comes back as -errno with nothing changed; otherwise revents
     * takes the accelerometer's readiness (poll() clears the three
     * descriptor-less slots), a ready wake pipe has one message read back,
     * and the count of ready descriptors comes back.
     */
    method PollOnce(reply: PollReply) returns (n: int)
      requires Valid()
      modifies this`revents, this`wakePending
      ensures Valid()
      ensures n == if reply.PollFailed? then -(reply.errno as int) else reply.n
      ensures reply.PollFailed? ==> revents == old(revents) && wakePending == old(wakePending)
      ensures reply.PollReady? ==> revents == [reply.accelerometerIn, false, false, false, false]
      ensures reply.PollReady? ==> wakePending == if old(wakePending) > 0 then old(wakePending) - 1 else 0
    {
      match reply
      case PollFailed(errno) =>
        return -(errno as int);
      case PollReady(ready, accelerometerIn) =>
        n := ready;
        revents := [accelerometerIn, false, false, false, wakePending > 0];
        if revents[WAKE] {
          wakePending := wakePending - 1;
          revents := revents[WAKE := false];
        }
    }

    /**
     * One turn of pollEvents' do-while loop: a pass over the drivers, then,
     * when room is left, a poll() answered by c.reply. n is what poll()
     * returned, or 0 when there was no room left to poll for.
     */
    method Round(buf: array<Event>, start: int, room: int, c: Cycle, ghost emitted: seq<Event>) returns (got: int, n: int)
      requires Valid()
      requires 0 <= start && 0 <= room && start + room <= buf.Length
      requires forall j | 0 <= j < start :: Reported(buf[j], EnabledDrivers())
      requires |emitted| == start && forall j | 0 <= j < start :: buf[j] == emitted[j]
      modifies this`revents, this`wakePending,
               accelerometer`pending, accelerometer`reader, light`lastValue, light`alreadyWarned,
               proximity`lastValue, proximity`alreadyWarned, temperature`lastValue, temperature`alreadyWarned, buf
      ensures Valid()
      ensures 0 <= got <= room
      ensures room == 0 ==> got == 0
      ensures var pass := Pass(old(States()), old(revents)[ACCELEROMETER], room, c);
              got == |pass.events| && (forall k | 0 <= k < got :: buf[start + k] == pass.events[k])
              && States() == pass.after
      ensures revents[ACCELEROMETER] == if got < room && c.reply.PollReady? then c.reply.accelerometerIn
                                        else ReadyAfter(old(States()), old(revents)[ACCELEROMETER], room, c)
      ensures forall j | 0 <= j < start + got :: Reported(buf[j], EnabledDrivers())
      ensures var pass := Pass(old(States()), old(revents)[ACCELEROMETER], room, c);
              forall j | 0 <= j < start + got :: buf[j] == (emitted + pass.events)[j]
      ensures forall j | start + got <= j < buf.Length :: buf[j] == old(buf[j])
      ensures n == if got == room then 0 else if c.reply.PollFailed? then -(c.reply.errno as int) else c.reply.n
      ensures wakePending == if got < room && c.reply.PollReady? && old(wakePending) > 0
                             then old(wakePending) - 1 else old(wakePending)
    {
      got := ReadPass(buf, start, room, c);
      ghost var pass := Pass(old(States()), old(revents)[ACCELEROMETER], room, c);
      forall j | 0 <= j < start + got
        ensures buf[j] == (emitted + pass.events)[j]
      {
        if j >= start {
          assert buf[start + (j - start)] == pass.events[j - start];
        }
      }
      n := 0;
      if got < room {
        n := PollOnce(c.reply);
      }
    }

    /**
     * The drivers and the accelerometer's flag as they now are, having made
     * the calls polls to poll() and collected got, are on pollEvents' way to
     * the outcome o from its k-th pass with left events of room. RunSoFar is
     * stated for the states s the drivers are in, so that the loop of
     * pollEvents, which only carries it from one turn to the next, does not
     * unfold the pass it describes.
     */
    ghost predicate OnWay(o: Outcome, script: seq<Cycle>, k: nat, left: int, got: seq<Event>, polls: seq<PollCall>)
      reads this`revents, this`timeout, accelerometer, light, proximity, temperature
    {
      |revents| == NUM_FDS && k < |script| && EndsPolling(script[|script| - 1].reply)
      && forall s | s == States() :: RunSoFar(o, s, revents[ACCELEROMETER], timeout, script, k, left, got, polls)
    }

    /**
     * A turn of pollEvents' do-while loop on its way to the outcome o: when
     * room is left and poll() reports ready descriptors, the next turn is on
     * its way to o; otherwise o is reached, with the events in buf[..start +
     * got], the calls to poll() made, the drivers' states and the
     * accelerometer's flag as they now are.
     */
    method Turn(buf: array<Event>, start: int, room: int, script: seq<Cycle>, k: nat, ghost emitted: seq<Event>,
                ghost o: Outcome, polls: seq<PollCall>) returns (got: int, n: int, made: seq<PollCall>, ghost next: seq<Event>)
      requires Valid()
      requires 0 <= start && 0 <= room && start + room <= buf.Length
      requires forall j | 0 <= j < start :: Reported(buf[j], EnabledDrivers())
      requires |emitted| == start && forall j | 0 <= j < start :: buf[j] == emitted[j]
      requires OnWay(o, script, k, room, emitted, polls)
      modifies this`revents, this`wakePending,
               accelerometer`pending, accelerometer`reader, light`lastValue, light`alreadyWarned,
               proximity`lastValue, proximity`alreadyWarned, temperature`lastValue, temperature`alreadyWarned, buf
      ensures Valid()
      ensures 0 <= got <= room
      ensures room == 0 ==> got == 0
      ensures forall j | 0 <= j < start + got :: Reported(buf[j], EnabledDrivers())
      ensures forall j | start + got <= j < buf.Length :: buf[j] == old(buf[j])
      ensures |next| == start + got && forall j | 0 <= j < start + got :: buf[j] == next[j]
      ensures n == if got == room then 0
                   else if script[k].reply.PollFailed? then -(script[k].reply.errno as int) else script[k].reply.n
      ensures wakePending == if got < room && script[k].reply.PollReady? && old(wakePending) > 0
                             then old(wakePending) - 1 else old(wakePending)
      ensures made == if got < room then polls + [PollCall(start + got, if start + got != 0 then 0 else PollDelay(timeout))]
                      else polls
      ensures if got < room && n > 0
              then OnWay(o, script, k + 1, room - got, next, made)
              else o.result == (if n < 0 then n else start + got) && o.events == next && o.polls == made
                   && o.after == States() && o.ready == revents[ACCELEROMETER]
    {
      RunStep(o, States(), revents[ACCELEROMETER], timeout, script, k, room, emitted, polls);
      next := emitted + Pass(States(), revents[ACCELEROMETER], room, script[k]).events;
      got, n := Round(buf, start, room, script[k], emitted);
      made := polls;
      if got < room {
        var delay := PollDelay(timeout);
        made := polls + [PollCall(start + got, if start + got != 0 then 0 else delay)];
      }
    }

    /**
     * The loop of pollEvents, passes each followed by a poll(), run against
     * the outcome o that Run gives from the state it starts in: it returns
     * o's result with o's poll() calls, leaves o's events in buf and o's
     * states in the drivers.
     */
    method PollRounds(buf: array<Event>, count: int, script: seq<Cycle>, ghost o: Outcome)
      returns (r: int, polls: seq<PollCall>)
      requires Valid()
      requires 0 <= count <= buf.Length
      requires OnWay(o, script, 0, count, [], [])
      modifies this`revents, this`wakePending,
               accelerometer`pending, accelerometer`reader, light`lastValue, light`alreadyWarned,
               proximity`lastValue, proximity`alreadyWarned, temperature`lastValue, temperature`alreadyWarned, buf
      ensures Valid()
      ensures r == o.result && polls == o.polls && States() == o.after && revents[ACCELEROMETER] == o.ready
      ensures r <= count && |o.events| <= count && forall q | 0 <= q < |o.events| :: buf[q] == o.events[q]
      ensures r >= 0 ==> (forall k | 0 <= k < r :: Reported(buf[k], EnabledDrivers()))
                         && (forall j | r <= j < buf.Length :: buf[j] == old(buf[j]))
      ensures var answered := if r < 0 then |polls| - 1 else |polls|;
              wakePending == if old(wakePending) >= answered then old(wakePending) - answered else 0
    {
      ghost var emitted: seq<Event> := [];
      var nbEvents := 0;
      var left := count;
      var n := 0;
      var k := 0;
      polls := [];
      while true
        invariant Valid()
        invariant 0 <= k < |script| && |polls| == k
        invariant 0 <= nbEvents && nbEvents + left == count
        invariant forall q | 0 <= q < nbEvents :: Reported(buf[q], EnabledDrivers())
        invariant forall j | nbEvents <= j < buf.Length :: buf[j] == old(buf[j])
        invariant wakePending == if old(wakePending) >= k then old(wakePending) - k else 0
        invariant |emitted| == nbEvents && forall q | 0 <= q < nbEvents :: buf[q] == emitted[q]
        invariant OnWay(o, script, k, left, emitted, polls)
        decreases |script| - k
      {
        var got, ready;
        got, ready, polls, emitted := Turn(buf, nbEvents, left, script, k, emitted, o, polls);
        left := left - got;
        nbEvents := nbEvents + got;
        if ready < 0 {
          return ready, polls;
        }
        n := ready;
        // another round only after poll() saw a ready descriptor, and only with room left
        if !(n > 0 && left > 0) {
          break;
        }
        k := k + 1;
      }
      r := nbEvents;
    }

    /**
     * pollEvents: reads the drivers that have data or whose descriptor was
     * ready, giving each a share of the room left in buf, then polls (without
     * blocking once it holds events) and goes round again while poll() reports
     * ready descriptors and there is room. The k-th pass sees script[k].
     */
    method PollEvents(buf: array<Event>, count: int, script: seq<Cycle>) returns (r: int, polls: seq<PollCall>)
      requires Valid()
      requires 0 <= count <= buf.Length
      requires |script| > 0 && EndsPolling(script[|script| - 1].reply)
      modifies this`revents, this`wakePending,
               accelerometer`pending, accelerometer`reader, light`lastValue, light`alreadyWarned,
               proximity`lastValue, proximity`alreadyWarned, temperature`lastValue, temperature`alreadyWarned, buf
      ensures Valid()
      ensures |polls| <= |script|
      ensures r < 0 ==> |polls| > 0 && script[|polls| - 1].reply.PollFailed?
                        && r == -(script[|polls| - 1].reply.errno as int)
      ensures r >= 0 ==> r <= count && (forall k | 0 <= k < r :: Reported(buf[k], EnabledDrivers()))
                         && (forall j | r <= j < buf.Length :: buf[j] == old(buf[j]))
      ensures 0 <= r < count ==> |polls| > 0 && script[|polls| - 1].reply.PollReady? && script[|polls| - 1].reply.n == 0
      ensures count == 0 ==> r == 0 && polls == []
      ensures forall q | 0 <= q < |polls| ::
                0 <= polls[q].collected <= count
                && polls[q].delay == if polls[q].collected == 0 then PollDelay(timeout) else 0
      ensures var answered := if r < 0 then |polls| - 1 else |polls|;
              wakePending == if old(wakePending) >= answered then old(wakePending) - answered else 0
      ensures var o := Run(old(States()), old(revents)[ACCELEROMETER], timeout, script, 0, count, []);
              r == o.result && polls == o.polls && States() == o.after && revents[ACCELEROMETER] == o.ready
              && |o.events| <= count && forall q | 0 <= q < |o.events| :: buf[q] == o.events[q]
    {
      ghost var o := Run(States(), revents[ACCELEROMETER], timeout, script, 0, count, []);
      RunShape(States(), revents[ACCELEROMETER], timeout, script, 0, count, []);
      RunPolls(States(), revents[ACCELEROMETER], timeout, script, 0, count, []);
      RunPollCalls(States(), revents[ACCELEROMETER], timeout, script, 0, count, []);
      assert [] + o.polls == o.polls;
      r, polls := PollRounds(buf, count, script, o);
    }
  }

  /**
   * The delay scenario: with 20 ms on the accelerometer and 200 ms on the
   * temperature monitor and both enabled, the timeout is 200 ms, since the
   * accelerometer takes no part in it; disabling the temperature monitor
   * leaves no timeout, and enabling it again brings back the same 200 ms.
   */
  method DelayScenario(accelerometerFd: int, rates: RateThresholds) returns (both: nat, off: nat, again: nat)
    ensures both == 200 * NS_PER_MS
    ensures off == U64_MAX
    ensures again == both
  {
    var ctx := new SensorsPollContext(accelerometerFd, rates);
    var r := ctx.SetDelay(ID_A, 20 * NS_PER_MS);
    r := ctx.SetDelay(ID_T, 200 * NS_PER_MS);
    r := ctx.Activate(ID_A, 1);
    r := ctx.Activate(ID_T, 1);
    ctx.TimeoutIsShortestEnabledDelay();
    both := ctx.timeout;
    r := ctx.Activate(ID_T, 0);
    ctx.TimeoutIsShortestEnabledDelay();
    off := ctx.timeout;
    r := ctx.Activate(ID_T, 1);
    ctx.TimeoutIsShortestEnabledDelay();
    again := ctx.timeout;
  }

  /**
   * The first poll after start-up: a new context with the light sensor
   * enabled, whose first pass reads a value v from the light file while
   * nothing else is ready, returns exactly one event, v as a light event.
   */
  method FirstLightReading(accelerometerFd: int, rates: RateThresholds, buf: array<Event>, count: int,
                           v: real, now: int) returns (r: int)
    requires 1 <= count <= buf.Length && v != -1.0
    modifies buf
    ensures r == 1 && buf[0] == Event(ID_L, LightType, Lux(v), now)
  {
    var ctx := new SensorsPollContext(accelerometerFd, rates);
    r := ctx.Activate(ID_L, 1);
    var idle := Reading(OpenFailed, now);
    var c := Cycle([], Reading(Parsed(v), now), idle, idle, PollReady(0, false));
    LightOnlyRun(ctx.States(), ctx.timeout, c, count);
    var polls;
    r, polls := ctx.PollEvents(buf, count, [c]);
  }
}
