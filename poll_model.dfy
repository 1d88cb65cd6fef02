// The model of one call to the sensors HAL poll context, on values: the
// drivers' states, what a pass over the drivers collects, and what pollEvents
// returns after its passes and poll() calls; with the delay and timeout
// arithmetic the context keeps.

module PollModel {
  import opened SensorTypes
  import opened AccelerometerDriver
  import opened LightDriver
  import opened ProximityDriver
  import opened TemperatureDriver

  /** Driver slots; the sensor handles 0..3 map onto them one to one. */
  const ACCELEROMETER: int := 0
  const LIGHT: int := 1
  const PROXIMITY: int := 2
  const TEMPERATURE: int := 3
  const NUM_DRIVERS: int := 4
  /** The poll descriptors: one per driver, then the read end of the wake pipe. */
  const NUM_FDS: int := 5
  const WAKE: int := 4

  /** The uint64_t -1 that stands for "no timeout". */
  const U64_MAX: nat := 0xFFFF_FFFF_FFFF_FFFF
  const NS_PER_MS: nat := 1000000

  /** handleToDriver: the four sensor ids name their own driver slot, anything else is -EINVAL. */
  function HandleToDriver(handle: int): (index: int)
    ensures index == -EINVAL || 0 <= index < NUM_DRIVERS
    ensures 0 <= index <==> 0 <= handle < NUM_DRIVERS
    ensures 0 <= index ==> index == handle
  {
    if handle == ID_A then ACCELEROMETER
    else if handle == ID_L then LIGHT
    else if handle == ID_P then PROXIMITY
    else if handle == ID_T then TEMPERATURE
    else -EINVAL
  }

  /** The C conversion of an int64_t to uint64_t. */
  function U64(d: Int64): (u: nat)
    ensures u <= U64_MAX
    ensures (u - d) % (U64_MAX + 1) == 0
  {
    if d < 0 then d + U64_MAX + 1 else d
  }

  function Min(a: nat, b: nat): nat
  {
    if a < b then a else b
  }

  /** The shortest delay, as uint64_t, among the drivers 0..n-1 whose bit is set; U64_MAX if none. */
  function ShortestDelay(mask: set<int>, delays: seq<Int64>, n: nat): nat
    requires n <= |delays|
  {
    if n == 0 then U64_MAX
    else
      var t := ShortestDelay(mask, delays, n - 1);
      if n - 1 in mask then Min(t, U64(delays[n - 1])) else t
  }

  /**
   * ShortestDelay is the minimum over the set bits: no enabled driver has a
   * shorter delay, and it is one of their delays, or U64_MAX when none is enabled.
   */
  lemma {:induction false} ShortestDelayIsMinimum(mask: set<int>, delays: seq<Int64>, n: nat)
    requires n <= |delays|
    ensures var t := ShortestDelay(mask, delays, n);
            (forall i | 0 <= i < n && i in mask :: t <= U64(delays[i]))
            && ((exists i | 0 <= i < n && i in mask :: t == U64(delays[i]))
                || ((forall i | 0 <= i < n :: i !in mask) && t == U64_MAX))
  {
    if n > 0 {
      ShortestDelayIsMinimum(mask, delays, n - 1);
    }
  }

  /** mTimeout as update_delay leaves it for a mask and the drivers' delays. */
  function AggregateTimeout(mask: set<int>, delays: seq<Int64>): nat
    requires |delays| == NUM_DRIVERS
  {
    ShortestDelay(mask, delays, NUM_DRIVERS)
  }

  /**
   * mEnabled has the bit of each enabled value sensor and no other, and
   * mTimeout is the shortest of their (non-negative) delays.
   */
  predicate MaskAgrees(mask: set<int>, lightOn: bool, proximityOn: bool, temperatureOn: bool,
                       delays: seq<Int64>, timeout: nat)
    requires |delays| == NUM_DRIVERS
  {
    mask <= {LIGHT, PROXIMITY, TEMPERATURE}
    && (LIGHT in mask) == lightOn
    && (PROXIMITY in mask) == proximityOn
    && (TEMPERATURE in mask) == temperatureOn
    && (forall i | LIGHT <= i < NUM_DRIVERS :: delays[i] >= 0)
    && timeout == AggregateTimeout(mask, delays)
  }

  /** One revents entry per descriptor; only the accelerometer's survives a poll. */
  predicate FdsAgree(revents: seq<bool>)
  {
    |revents| == NUM_FDS
    && !revents[LIGHT] && !revents[PROXIMITY] && !revents[TEMPERATURE] && !revents[WAKE]
  }

  /** With no bit set the loop of update_delay would leave "no timeout" too. */
  lemma EmptyMaskHasNoTimeout(delays: seq<Int64>)
    requires |delays| == NUM_DRIVERS
    ensures AggregateTimeout({}, delays) == U64_MAX
  {
    ShortestDelayIsMinimum({}, delays, NUM_DRIVERS);
  }

  /** The C (int) conversion of a value: it keeps the low 32 bits, as a signed number. */
  function ToInt32(x: int): (y: int)
    ensures -0x8000_0000 <= y < 0x8000_0000
    ensures (y - x) % 0x1_0000_0000 == 0
  {
    var low := x % 0x1_0000_0000;
    if low < 0x8000_0000 then low else low - 0x1_0000_0000
  }

  /**
   * The poll() timeout in milliseconds for an mTimeout: "no timeout" waits
   * forever (-1); below 2^31 ms it is mTimeout in whole milliseconds.
   */
  function PollDelay(timeout: nat): (ms: int)
    ensures timeout == U64_MAX ==> ms == -1
    ensures timeout != U64_MAX && timeout / NS_PER_MS < 0x8000_0000 ==> ms == timeout / NS_PER_MS
  {
    if timeout == U64_MAX then -1 else ToInt32(timeout / NS_PER_MS)
  }

  /**
   * The (int) conversion keeps 32 bits: a delay of 2^31 ms up to (not
   * including) 2^32 ms turns into a negative poll() timeout, so poll() waits
   * forever instead.
   */
  lemma LongDelayWaitsForever(timeout: nat)
    requires timeout != U64_MAX && 0x8000_0000 <= timeout / NS_PER_MS < 0x1_0000_0000
    ensures PollDelay(timeout) < 0
  {
  }

  /** Past 2^32 ms the conversion wraps round: 2^32 ms more gives the same poll() timeout. */
  lemma LongDelayWrapsAround(timeout: nat)
    requires timeout + 0x1_0000_0000 * NS_PER_MS != U64_MAX
    ensures timeout != U64_MAX ==> PollDelay(timeout + 0x1_0000_0000 * NS_PER_MS) == PollDelay(timeout)
    ensures PollDelay(0x1_0000_0000 * NS_PER_MS) == 0
  {
    var shifted := timeout + 0x1_0000_0000 * NS_PER_MS;
    assert shifted / NS_PER_MS == timeout / NS_PER_MS + 0x1_0000_0000;
  }

  /** How many events each driver may return in one pass: a quarter of the room, at least one. */
  function ReadShare(count: int): (share: int)
    ensures share >= 1
    ensures count > NUM_DRIVERS ==> NUM_DRIVERS * share <= count < NUM_DRIVERS * (share + 1)
    ensures count <= NUM_DRIVERS ==> share == 1
  {
    if count > NUM_DRIVERS then count / NUM_DRIVERS else 1
  }

  /** The room that n more shares take. */
  function Shares(n: nat, share: int): int
  {
    if n == 0 then 0 else share + Shares(n - 1, share)
  }

  lemma {:induction false} SharesIsProduct(n: nat, share: int)
    ensures Shares(n, share) == n * share
  {
    if n > 0 {
      SharesIsProduct(n - 1, share);
    }
  }

  /** The tag a driver puts on its events. */
  function KindOf(i: int): SensorType
  {
    if i == ACCELEROMETER then AccelerometerType
    else if i == LIGHT then LightType
    else if i == PROXIMITY then ProximityType
    else TemperatureType
  }

  /** An event that one of the enabled drivers could have produced: its own sensor id and tag. */
  predicate Reported(e: Event, enabled: set<int>)
  {
    0 <= e.sensor < NUM_DRIVERS && e.sensor in enabled && e.kind == KindOf(e.sensor)
  }

  /** What poll() returned to one cycle: an error, or the count of ready descriptors. */
  datatype PollReply = PollFailed(errno: Errno) | PollReady(n: nat, accelerometerIn: bool)

  /** A reply after which pollEvents does not poll again. */
  predicate EndsPolling(reply: PollReply)
  {
    reply.PollFailed? || reply.n == 0
  }

  /**
   * What the outside world supplies to one pass of pollEvents: the records the
   * input device has ready, the three files with the clock, and poll()'s answer.
   */
  datatype Cycle = Cycle(records: seq<InputEvent>, light: Reading, proximity: Reading,
                         temperature: Reading, reply: PollReply)

  /** One call of poll(): the events already collected and the timeout it was given. */
  datatype PollCall = PollCall(collected: int, delay: int)

  /** What a value sensor's readEvents works on: enabled, the last value reported, warned about a failed read. */
  datatype ValueState = ValueState(enabled: bool, last: real, warned: bool)

  /**
   * What the four drivers' readEvents works on: the accelerometer's enabled
   * flag, its pending motion and the input records not yet consumed, and
   * each value sensor's state.
   */
  datatype DriverStates = DriverStates(accelerometerOn: bool, motion: Motion, reader: seq<InputEvent>,
                                       light: ValueState, proximity: ValueState, temperature: ValueState)

  function ValueOf(s: DriverStates, i: int): ValueState
  {
    if i == LIGHT then s.light else if i == PROXIMITY then s.proximity else s.temperature
  }

  function WithValue(s: DriverStates, i: int, v: ValueState): DriverStates
  {
    if i == LIGHT then s.(light := v) else if i == PROXIMITY then s.(proximity := v) else s.(temperature := v)
  }

  /** The slots of the enabled drivers. */
  function Enabled(s: DriverStates): set<int>
  {
    (if s.accelerometerOn then {ACCELEROMETER} else {})
    + (if s.light.enabled then {LIGHT} else {})
    + (if s.proximity.enabled then {PROXIMITY} else {})
    + (if s.temperature.enabled then {TEMPERATURE} else {})
  }

  /** hasPendingEvents(): only an enabled value sensor has data without a poll. */
  predicate Pending(s: DriverStates, i: int)
  {
    LIGHT <= i < NUM_DRIVERS && ValueOf(s, i).enabled
  }

  /** The file reading value sensor i sees in a cycle. */
  function InputOf(c: Cycle, i: int): Reading
  {
    if i == LIGHT then c.light else if i == PROXIMITY then c.proximity else c.temperature
  }

  /** The event value sensor i reports for a value v read at time now. */
  function ValueEvent(i: int, v: real, now: int): Event
  {
    Event(i, KindOf(i),
          if i == LIGHT then Lux(v) else if i == PROXIMITY then Distance(DistanceOf(v)) else Celsius(v),
          now)
  }

  /** A value sensor reports the value it observes when enabled and the value is new. */
  function ValueOutput(i: int, v: ValueState, input: Reading): seq<Event>
  {
    var o := Observed(input.file, v.warned);
    if v.enabled && o.Some? && o.value != v.last then [ValueEvent(i, o.value, input.now)] else []
  }

  /**
   * A value sensor's state after one read: the reported value becomes the
   * last one, and the proximity sensor remembers a failed read it warned about.
   */
  function ValueAfter(i: int, v: ValueState, input: Reading): ValueState
  {
    var o := Observed(input.file, v.warned);
    v.(last := if v.enabled && o.Some? && o.value != v.last then o.value else v.last,
       warned := if i == PROXIMITY then v.warned || (v.enabled && input.file.ReadFailed?) else v.warned)
  }

  /** The events driver i hands over when read for at most budget events in a cycle. */
  function Output(s: DriverStates, i: int, budget: nat, c: Cycle): seq<Event>
  {
    if i == ACCELEROMETER then Drain(s.motion, s.reader + c.records, s.accelerometerOn, budget).events
    else ValueOutput(i, ValueOf(s, i), InputOf(c, i))
  }

  /** The drivers' states after driver i has been read for at most budget events. */
  function After(s: DriverStates, i: int, budget: nat, c: Cycle): DriverStates
  {
    if i == ACCELEROMETER then
      var d := Drain(s.motion, s.reader + c.records, s.accelerometerOn, budget);
      s.(motion := d.pending, reader := d.rest)
    else WithValue(s, i, ValueAfter(i, ValueOf(s, i), InputOf(c, i)))
  }

  /** A driver hands over at most its budget. */
  lemma OutputFits(s: DriverStates, i: int, budget: nat, c: Cycle)
    requires budget >= 1
    ensures |Output(s, i, budget, c)| <= budget
  {
  }

  /**
   * Every event a driver hands over carries its own slot and tag and comes
   * from an enabled driver, and reading it enables or disables nothing.
   */
  lemma OutputReported(s: DriverStates, i: int, budget: nat, c: Cycle)
    requires 0 <= i < NUM_DRIVERS
    ensures forall e | e in Output(s, i, budget, c) :: e.sensor == i && Reported(e, Enabled(s))
    ensures Enabled(After(s, i, budget, c)) == Enabled(s)
  {
    if i == ACCELEROMETER {
      DrainShape(s.motion, s.reader + c.records, s.accelerometerOn, budget);
    }
  }

  /** Whether slot i is read in a pass: an enabled value sensor, or the accelerometer when flagged ready. */
  predicate Served(s: DriverStates, ready: bool, i: int)
  {
    Pending(s, i) || (i == ACCELEROMETER && ready)
  }

  /** What slot i hands over when its turn in a pass comes. */
  function Offer(s: DriverStates, ready: bool, share: nat, c: Cycle, i: int): seq<Event>
  {
    if Served(s, ready, i) then Output(s, i, share, c) else []
  }

  /** The four slots' offers, in slot order. */
  function Offers(s: DriverStates, ready: bool, share: nat, c: Cycle): (outs: seq<seq<Event>>)
    ensures |outs| == NUM_DRIVERS
  {
    [Offer(s, ready, share, c, 0), Offer(s, ready, share, c, 1), Offer(s, ready, share, c, 2), Offer(s, ready, share, c, 3)]
  }

  /** The offers of slots i.. concatenated in slot order, stopping once left events of room are used up. */
  function Collect(outs: seq<seq<Event>>, left: int, i: nat): seq<Event>
    requires i <= |outs|
    decreases |outs| - i
  {
    if i == |outs| || left == 0 then [] else outs[i] + Collect(outs, left - |outs[i]|, i + 1)
  }

  /**
   * One step of Collect and of Reached: what has been collected so far,
   * followed by slot i's offer, is followed by the rest from slot i + 1.
   */
  lemma CollectStep(outs: seq<seq<Event>>, total: seq<Event>, done: seq<Event>, left: int, i: nat)
    requires i < |outs| && left != 0
    requires done + Collect(outs, left, i) == total
    ensures (done + outs[i]) + Collect(outs, left - |outs[i]|, i + 1) == total
    ensures Reached(outs, left, i) == {i} + Reached(outs, left - |outs[i]|, i + 1)
  {
    assert Collect(outs, left, i) == outs[i] + Collect(outs, left - |outs[i]|, i + 1);
  }

  /** Slots that offer nothing add nothing. */
  lemma {:induction false} CollectNothing(outs: seq<seq<Event>>, left: int, i: nat)
    requires i <= |outs|
    requires forall j | i <= j < |outs| :: outs[j] == []
    ensures Collect(outs, left, i) == []
    decreases |outs| - i
  {
    if i < |outs| && left != 0 {
      CollectNothing(outs, left, i + 1);
    }
  }

  /** The slots from i on whose turn comes before the room is used up. */
  function Reached(outs: seq<seq<Event>>, left: int, i: nat): set<int>
    requires i <= |outs|
    decreases |outs| - i
  {
    if i == |outs| || left == 0 then {} else {i} + Reached(outs, left - |outs[i]|, i + 1)
  }

  /** The drivers' states once every served slot in reached has been read, each from its state in s. */
  function Advance(s: DriverStates, ready: bool, reached: set<int>, share: nat, c: Cycle): DriverStates
  {
    var d := Drain(s.motion, s.reader + c.records, s.accelerometerOn, share);
    var acc := ACCELEROMETER in reached && Served(s, ready, ACCELEROMETER);
    DriverStates(s.accelerometerOn,
                 if acc then d.pending else s.motion,
                 if acc then d.rest else s.reader,
                 if LIGHT in reached && Served(s, ready, LIGHT) then ValueAfter(LIGHT, s.light, c.light) else s.light,
                 if PROXIMITY in reached && Served(s, ready, PROXIMITY) then ValueAfter(PROXIMITY, s.proximity, c.proximity)
                 else s.proximity,
                 if TEMPERATURE in reached && Served(s, ready, TEMPERATURE)
                 then ValueAfter(TEMPERATURE, s.temperature, c.temperature) else s.temperature)
  }

  /** The outcome of one pass: the events collected and the drivers' states after it. */
  datatype PassResult = PassResult(events: seq<Event>, after: DriverStates)

  /**
   * One pass over the drivers with room events of room: each slot gets a
   * quarter of the room (at least one event), a served driver hands over its
   * offer, and the pass stops once the room is used up.
   */
  function Pass(s: DriverStates, ready: bool, room: int, c: Cycle): PassResult
  {
    var share := ReadShare(room);
    var outs := Offers(s, ready, share, c);
    PassResult(Collect(outs, room, 0), Advance(s, ready, Reached(outs, room, 0), share, c))
  }

  /**
   * The drivers do not share state: reading slot i after other slots were
   * read sees what it would have seen first, and adds its own step.
   */
  lemma AdvanceStep(s: DriverStates, ready: bool, reached: set<int>, share: nat, c: Cycle, i: int)
    requires 0 <= i < NUM_DRIVERS && i !in reached && share >= 1
    ensures var t := Advance(s, ready, reached, share, c);
            Served(t, ready, i) == Served(s, ready, i)
            && (Served(s, ready, i) ==> Output(t, i, share, c) == Output(s, i, share, c)
                                        && After(t, i, share, c) == Advance(s, ready, reached + {i}, share, c))
            && (!Served(s, ready, i) ==> t == Advance(s, ready, reached + {i}, share, c))
  {
  }

  /** A pass in which no slot is served leaves the drivers as they were. */
  lemma AdvanceNothing(s: DriverStates, ready: bool, reached: set<int>, share: nat, c: Cycle)
    requires forall i | 0 <= i < NUM_DRIVERS :: !Served(s, ready, i)
    ensures Advance(s, ready, reached, share, c) == s
  {
  }

  /**
   * The accelerometer's ready flag after a pass with room events of room:
   * dropped when it was read and returned less than the room.
   */
  predicate ReadyAfter(s: DriverStates, ready: bool, room: int, c: Cycle)
  {
    ready && !(room != 0 && |Output(s, ACCELEROMETER, ReadShare(room), c)| < room)
  }

  /**
   * How far a pass from the drivers' states s0 (accelerometer flag ready,
   * descriptor flags rev0, room events of room, share for each driver) has
   * got after the slots before i: emitted is what the slots in reached
   * handed over, left is the room still free, and states and rev are the
   * drivers' states and the descriptor flags now.
   */
  ghost predicate Progress(s0: DriverStates, ready: bool, room: int, share: int, c: Cycle, rev0: seq<bool>,
                           i: int, left: int, got: int, emitted: seq<Event>, reached: set<int>,
                           states: DriverStates, rev: seq<bool>)
  {
    |rev0| == NUM_FDS && ready == rev0[ACCELEROMETER]
    && 0 <= i <= NUM_DRIVERS && 0 <= got && 0 <= left && got + left == room && (i == 0 ==> got == 0)
    && share == ReadShare(room)
    && (room > NUM_DRIVERS ==> left >= Shares(NUM_DRIVERS - i, share))
    && |emitted| == got
    && emitted + Collect(Offers(s0, ready, share, c), left, i) == Collect(Offers(s0, ready, share, c), room, 0)
    && reached + Reached(Offers(s0, ready, share, c), left, i) == Reached(Offers(s0, ready, share, c), room, 0)
    && (forall j | j in reached :: 0 <= j < i)
    && states == Advance(s0, ready, reached, share, c)
    && rev == if i == 0 then rev0 else rev0[ACCELEROMETER := ReadyAfter(s0, ready, room, c)]
  }

  /** Before the first slot, nothing is emitted and nothing has changed. */
  lemma ProgressStart(s0: DriverStates, ready: bool, room: int, c: Cycle, rev0: seq<bool>)
    requires |rev0| == NUM_FDS && ready == rev0[ACCELEROMETER] && room >= 0
    ensures Progress(s0, ready, room, ReadShare(room), c, rev0, 0, room, 0, [], {}, s0, rev0)
  {
    SharesIsProduct(NUM_DRIVERS, ReadShare(room));
  }

  /** While room is left, the next slot's share fits in it. */
  lemma ProgressRoom(s0: DriverStates, ready: bool, room: int, share: int, c: Cycle, rev0: seq<bool>,
                     i: int, left: int, got: int, emitted: seq<Event>, reached: set<int>,
                     states: DriverStates, rev: seq<bool>)
    requires Progress(s0, ready, room, share, c, rev0, i, left, got, emitted, reached, states, rev)
    requires i < NUM_DRIVERS && left != 0
    ensures 1 <= share <= left
  {
    if room > NUM_DRIVERS {
      assert Shares(NUM_DRIVERS - i, share) == share + Shares(NUM_DRIVERS - (i + 1), share);
      SharesIsProduct(NUM_DRIVERS - (i + 1), share);
    }
  }

  /**
   * Serving slot i the way the poll context does (read it when it has
   * pending events or its descriptor is ready, and drop the descriptor's
   * flag on a short read) hands over the slot's offer from s0 and advances
   * the pass by one slot.
   */
  lemma ProgressStep(s0: DriverStates, ready: bool, room: int, share: int, c: Cycle, rev0: seq<bool>,
                     i: int, left: int, got: int, emitted: seq<Event>, reached: set<int>,
                     states: DriverStates, rev: seq<bool>, pending: bool, nb: int, next: DriverStates, rev1: seq<bool>)
    requires Progress(s0, ready, room, share, c, rev0, i, left, got, emitted, reached, states, rev)
    requires i < NUM_DRIVERS && left != 0
    requires pending == Pending(states, i) && (i != ACCELEROMETER ==> !rev[i])
    requires var served := pending || rev[i];
             var out := if served then Output(states, i, share, c) else [];
             nb == |out| && next == if served then After(states, i, share, c) else states
    requires rev1 == if (pending || rev[i]) && nb < left then rev[i := false] else rev
    ensures Offers(s0, ready, share, c)[i] == if pending || rev[i] then Output(states, i, share, c) else []
    ensures Progress(s0, ready, room, share, c, rev0, i + 1, left - nb, got + nb,
                     emitted + Offers(s0, ready, share, c)[i], reached + {i}, next, rev1)
  {
    var outs := Offers(s0, ready, share, c);
    AdvanceStep(s0, ready, reached, share, c, i);
    CollectStep(outs, Collect(outs, room, 0), emitted, left, i);
    OutputFits(s0, i, share, c);
    if room > NUM_DRIVERS {
      assert Shares(NUM_DRIVERS - i, share) == share + Shares(NUM_DRIVERS - (i + 1), share);
    }
    if i != ACCELEROMETER {
      assert rev[i := false] == rev;
    }
  }

  /** Once the room is used up or every slot had its turn, the pass is complete. */
  lemma ProgressEnd(s0: DriverStates, ready: bool, room: int, share: int, c: Cycle, rev0: seq<bool>,
                    i: int, left: int, got: int, emitted: seq<Event>, reached: set<int>,
                    states: DriverStates, rev: seq<bool>)
    requires Progress(s0, ready, room, share, c, rev0, i, left, got, emitted, reached, states, rev)
    requires left == 0 || i == NUM_DRIVERS
    ensures emitted == Pass(s0, ready, room, c).events && states == Pass(s0, ready, room, c).after
    ensures rev == rev0[ACCELEROMETER := ReadyAfter(s0, ready, room, c)]
  {
    assert emitted + [] == emitted;
    assert reached + {} == reached;
    if i == 0 {
      assert rev0[ACCELEROMETER := ready] == rev0;
    }
  }

  /** Collecting fits the room when the room holds all the shares still to come, or the share is one event. */
  lemma {:induction false} CollectFits(outs: seq<seq<Event>>, left: int, share: int, i: nat)
    requires i <= |outs| == NUM_DRIVERS && share >= 1 && left >= 0
    requires forall j | i <= j < |outs| :: |outs[j]| <= share
    requires share == 1 || left >= Shares(NUM_DRIVERS - i, share)
    ensures |Collect(outs, left, i)| <= left
    decreases |outs| - i
  {
    if i < |outs| && left != 0 {
      assert Shares(NUM_DRIVERS - i, share) == share + Shares(NUM_DRIVERS - (i + 1), share);
      SharesIsProduct(NUM_DRIVERS - (i + 1), share);
      CollectFits(outs, left - |outs[i]|, share, i + 1);
    }
  }

  /**
   * When each slot offers only its own events from enabled drivers, a pass
   * holds only such events, grouped by slot in slot order.
   */
  lemma {:induction false} CollectInSlotOrder(outs: seq<seq<Event>>, left: int, i: nat, enabled: set<int>)
    requires i <= |outs| <= NUM_DRIVERS
    requires forall j, e | i <= j < |outs| && e in outs[j] :: e.sensor == j && Reported(e, enabled)
    ensures var events := Collect(outs, left, i);
            (forall e | e in events :: i <= e.sensor && Reported(e, enabled))
            && (forall a, b | 0 <= a < b < |events| :: events[a].sensor <= events[b].sensor)
    decreases |outs| - i
  {
    if i < |outs| && left != 0 {
      CollectInSlotOrder(outs, left - |outs[i]|, i + 1, enabled);
      var rest := Collect(outs, left - |outs[i]|, i + 1);
      var events := outs[i] + rest;
      forall a, b | 0 <= a < b < |events|
        ensures events[a].sensor <= events[b].sensor
      {
        if b < |outs[i]| {
          assert events[a] in outs[i] && events[b] in outs[i];
        } else if a < |outs[i]| {
          assert events[a] in outs[i] && events[b] == rest[b - |outs[i]|];
          assert rest[b - |outs[i]|] in rest;
        } else {
          assert events[a] == rest[a - |outs[i]|] && events[b] == rest[b - |outs[i]|];
          assert rest[a - |outs[i]|] in rest && rest[b - |outs[i]|] in rest;
        }
      }
    }
  }

  /**
   * A pass holds at most its room, only events of enabled drivers, grouped
   * by slot in slot order, and at most one share from each slot; it enables
   * or disables nothing.
   */
  lemma PassShape(s: DriverStates, ready: bool, room: int, c: Cycle)
    requires room >= 0
    ensures var p := Pass(s, ready, room, c);
            |p.events| <= room
            && (forall e | e in p.events :: Reported(e, Enabled(s)))
            && (forall a, b | 0 <= a < b < |p.events| :: p.events[a].sensor <= p.events[b].sensor)
            && (forall i | 0 <= i < NUM_DRIVERS :: |Offers(s, ready, ReadShare(room), c)[i]| <= ReadShare(room))
            && Enabled(p.after) == Enabled(s)
  {
    var share := ReadShare(room);
    var outs := Offers(s, ready, share, c);
    forall i | 0 <= i < NUM_DRIVERS
      ensures |outs[i]| <= share && forall e: Event | e in outs[i] :: e.sensor == i && Reported(e, Enabled(s))
    {
      OutputFits(s, i, share, c);
      OutputReported(s, i, share, c);
    }
    SharesIsProduct(NUM_DRIVERS, share);
    CollectFits(outs, room, share, 0);
    CollectInSlotOrder(outs, room, 0, Enabled(s));
  }

  /** What pollEvents comes to: its return value, the events it collected, its poll() calls and the state it leaves. */
  datatype Outcome = Outcome(result: int, events: seq<Event>, polls: seq<PollCall>, after: DriverStates, ready: bool)

  /**
   * pollEvents from its k-th pass on, with left events of room and the
   * events got so far: a pass, then, when room is left, a poll() (without a
   * timeout once it holds events) answered by script[k].reply; an error ends
   * the call with -errno, ready descriptors start another pass.
   */
  function Run(s: DriverStates, ready: bool, timeout: nat, script: seq<Cycle>, k: nat, left: int,
               got: seq<Event>): Outcome
    requires k < |script| && EndsPolling(script[|script| - 1].reply)
    decreases |script| - k
  {
    var c := script[k];
    var pass := Pass(s, ready, left, c);
    var events := got + pass.events;
    var room := left - |pass.events|;
    if room <= 0 then Outcome(|events|, events, [], pass.after, ReadyAfter(s, ready, left, c))
    else
      var call := PollCall(|events|, if |events| != 0 then 0 else PollDelay(timeout));
      match c.reply
      case PollFailed(errno) => Outcome(-(errno as int), events, [call], pass.after, ReadyAfter(s, ready, left, c))
      case PollReady(n, accelerometerIn) =>
        if n == 0 then Outcome(|events|, events, [call], pass.after, accelerometerIn)
        else
          var rest := Run(pass.after, accelerometerIn, timeout, script, k + 1, room, events);
          rest.(polls := [call] + rest.polls)
  }

  /**
   * pollEvents never collects more than its room, keeps what was collected
   * before, returns the count collected or a negative error, and adds only
   * events of enabled drivers.
   */
  lemma {:induction false} RunShape(s: DriverStates, ready: bool, timeout: nat, script: seq<Cycle>, k: nat,
                                    left: int, got: seq<Event>)
    requires k < |script| && EndsPolling(script[|script| - 1].reply) && left >= 0
    requires forall e | e in got :: Reported(e, Enabled(s))
    ensures var o := Run(s, ready, timeout, script, k, left, got);
            |got| <= |o.events| <= |got| + left && o.events[..|got|] == got
            && (o.result == |o.events| || o.result < 0)
            && (forall e | e in o.events :: Reported(e, Enabled(s)))
            && Enabled(o.after) == Enabled(s)
    decreases |script| - k
  {
    var c := script[k];
    PassShape(s, ready, left, c);
    var pass := Pass(s, ready, left, c);
    var events := got + pass.events;
    assert events[..|got|] == got;
    var room := left - |pass.events|;
    if room > 0 && c.reply.PollReady? && c.reply.n != 0 {
      RunShape(pass.after, c.reply.accelerometerIn, timeout, script, k + 1, room, events);
      var rest := Run(pass.after, c.reply.accelerometerIn, timeout, script, k + 1, room, events);
      assert rest.events[..|got|] == rest.events[..|events|][..|got|];
    }
  }

  /**
   * How the run o from the k-th pass with total events of room ended:
   * after at most one poll() per cycle left, the last one answered with the
   * error when the result is negative, or with no ready descriptor when the
   * room was not filled.
   */
  ghost predicate PollsEnd(o: Outcome, script: seq<Cycle>, k: nat, total: int)
  {
    match o
    case Outcome(result, events, polls, after, ready) =>
      k + |polls| <= |script|
      && (result < 0 ==> |polls| > 0 && script[k + |polls| - 1].reply.PollFailed?
                         && result == -(script[k + |polls| - 1].reply.errno as int))
      && (0 <= result < total ==> |polls| > 0 && script[k + |polls| - 1].reply.PollReady?
                                  && script[k + |polls| - 1].reply.n == 0)
  }

  /** How pollEvents ends; with no room it makes no poll() at all. */
  lemma {:induction false} RunPolls(s: DriverStates, ready: bool, timeout: nat, script: seq<Cycle>, k: nat,
                                    left: int, got: seq<Event>)
    requires k < |script| && EndsPolling(script[|script| - 1].reply) && left >= 0
    ensures PollsEnd(Run(s, ready, timeout, script, k, left, got), script, k, |got| + left)
    ensures left == 0 ==> Run(s, ready, timeout, script, k, left, got).result == |got|
                          && Run(s, ready, timeout, script, k, left, got).polls == []
    decreases |script| - k
  {
    var c := script[k];
    var pass := Pass(s, ready, left, c);
    assert |pass.events| <= left by { PassShape(s, ready, left, c); }
    var room := left - |pass.events|;
    if room > 0 && c.reply.PollReady? && c.reply.n != 0 {
      RunPolls(pass.after, c.reply.accelerometerIn, timeout, script, k + 1, room, got + pass.events);
    }
  }

  /**
   * The poll() calls ps each came after between lo and hi events were
   * collected, and waited for the timeout only while none were.
   */
  ghost predicate CallsWithin(ps: seq<PollCall>, lo: int, hi: int, timeout: nat)
  {
    forall q | 0 <= q < |ps| ::
      lo <= ps[q].collected <= hi && ps[q].delay == if ps[q].collected == 0 then PollDelay(timeout) else 0
  }

  /** Each poll() of pollEvents comes after between |got| and |got| + left events were collected. */
  lemma {:induction false} RunPollCalls(s: DriverStates, ready: bool, timeout: nat, script: seq<Cycle>, k: nat,
                                        left: int, got: seq<Event>)
    requires k < |script| && EndsPolling(script[|script| - 1].reply) && left >= 0
    ensures CallsWithin(Run(s, ready, timeout, script, k, left, got).polls, |got|, |got| + left, timeout)
    decreases |script| - k
  {
    var c := script[k];
    var pass := Pass(s, ready, left, c);
    assert |pass.events| <= left by { PassShape(s, ready, left, c); }
    var events := got + pass.events;
    var room := left - |pass.events|;
    if room > 0 && c.reply.PollReady? && c.reply.n != 0 {
      var rest := Run(pass.after, c.reply.accelerometerIn, timeout, script, k + 1, room, events);
      RunPollCalls(pass.after, c.reply.accelerometerIn, timeout, script, k + 1, room, events);
      var calls := [PollCall(|events|, if |events| != 0 then 0 else PollDelay(timeout))] + rest.polls;
      assert Run(s, ready, timeout, script, k, left, got).polls == calls;
      forall q | 1 <= q < |calls|
        ensures |got| <= calls[q].collected <= |got| + left
        ensures calls[q].delay == if calls[q].collected == 0 then PollDelay(timeout) else 0
      {
        assert calls[q] == rest.polls[q - 1];
      }
    }
  }

  /** With no value sensor enabled and the accelerometer not flagged, a pass reads nothing. */
  lemma IdlePass(s: DriverStates, room: int, c: Cycle)
    requires !s.light.enabled && !s.proximity.enabled && !s.temperature.enabled
    ensures Pass(s, false, room, c) == PassResult([], s)
  {
    var share := ReadShare(room);
    var outs := Offers(s, false, share, c);
    CollectNothing(outs, room, 0);
    AdvanceNothing(s, false, Reached(outs, room, 0), share, c);
  }

  /** With no value sensor enabled and the accelerometer flagged, a pass is the accelerometer's own read. */
  lemma AccelerometerPass(s: DriverStates, room: int, c: Cycle)
    requires room != 0
    requires !s.light.enabled && !s.proximity.enabled && !s.temperature.enabled
    ensures Pass(s, true, room, c).events == Output(s, ACCELEROMETER, ReadShare(room), c)
  {
    var share := ReadShare(room);
    var outs := Offers(s, true, share, c);
    CollectNothing(outs, room - |outs[0]|, 1);
    assert Collect(outs, room, 0) == outs[0] + [];
  }

  /**
   * With only the light sensor enabled and the accelerometer not flagged, a
   * call whose first poll() finds nothing ready returns exactly what the
   * light sensor reads in its pass: its new value, or nothing.
   */
  lemma LightOnlyRun(s: DriverStates, timeout: nat, c: Cycle, count: int)
    requires count >= 1
    requires s.light.enabled && !s.proximity.enabled && !s.temperature.enabled
    requires c.reply.PollReady? && c.reply.n == 0
    ensures var out := ValueOutput(LIGHT, s.light, c.light);
            var o := Run(s, false, timeout, [c], 0, count, []);
            o.result == |out| && o.events == out
  {
    var outs := Offers(s, false, ReadShare(count), c);
    CollectNothing(outs, count - |outs[1]|, 2);
    assert Collect(outs, count, 0) == outs[1] + Collect(outs, count - |outs[1]|, 2);
  }

  /**
   * pollEvents, having made the calls polls to poll() and collected got,
   * is on its way to the outcome o when running on from its k-th pass
   * reaches o.
   */
  ghost predicate RunSoFar(o: Outcome, s: DriverStates, ready: bool, timeout: nat, script: seq<Cycle>, k: nat,
                           left: int, got: seq<Event>, polls: seq<PollCall>)
  {
    match o
    case Outcome(result, events, made, after, flag) =>
      k < |script| && EndsPolling(script[|script| - 1].reply)
      && var rest := Run(s, ready, timeout, script, k, left, got);
         rest.result == result && rest.events == events && rest.after == after && rest.ready == flag
         && polls + rest.polls == made
  }

  /**
   * One pass of pollEvents on its way to o: when the pass fills the room,
   * or poll() fails or finds nothing ready, the outcome is reached;
   * otherwise the next pass is on its way to the same outcome.
   */
  lemma RunStep(o: Outcome, s: DriverStates, ready: bool, timeout: nat, script: seq<Cycle>, k: nat,
                left: int, got: seq<Event>, polls: seq<PollCall>)
    requires RunSoFar(o, s, ready, timeout, script, k, left, got, polls)
    ensures var c := script[k];
            var pass := Pass(s, ready, left, c);
            var events := got + pass.events;
            var room := left - |pass.events|;
            var call := PollCall(|events|, if |events| != 0 then 0 else PollDelay(timeout));
            (room <= 0 ==> o.result == |events| && o.events == events && o.polls == polls
                           && o.after == pass.after && o.ready == ReadyAfter(s, ready, left, c))
            && (room > 0 && c.reply.PollFailed? ==>
                  o.result == -(c.reply.errno as int) && o.events == events && o.polls == polls + [call]
                  && o.after == pass.after && o.ready == ReadyAfter(s, ready, left, c))
            && (room > 0 && c.reply.PollReady? && c.reply.n == 0 ==>
                  o.result == |events| && o.events == events && o.polls == polls + [call]
                  && o.after == pass.after && o.ready == c.reply.accelerometerIn)
            && (room > 0 && c.reply.PollReady? && c.reply.n != 0 ==>
                  RunSoFar(o, pass.after, c.reply.accelerometerIn, timeout, script, k + 1, room, events, polls + [call]))
  {
    var c := script[k];
    var pass := Pass(s, ready, left, c);
    var events := got + pass.events;
    var room := left - |pass.events|;
    var call := PollCall(|events|, if |events| != 0 then 0 else PollDelay(timeout));
    if room > 0 && c.reply.PollReady? && c.reply.n != 0 {
      var rest := Run(pass.after, c.reply.accelerometerIn, timeout, script, k + 1, room, events);
      assert polls + ([call] + rest.polls) == (polls + [call]) + rest.polls;
    }
  }

  /**
   * The call that finds every driver idle: only the accelerometer is
   * enabled, nothing is pending and its descriptor is not flagged. The first
   * poll() waits for the full timeout and reports the accelerometer ready;
   * the pass after it reads the k events the device now has (at most the
   * share of the room), and pollEvents returns exactly those k, polling
   * again without a timeout when room is left.
   */
  lemma OneReadyDriver(s: DriverStates, timeout: nat, count: int, idle: Cycle, woken: Cycle, n: nat)
    requires count >= 1 && n >= 1
    requires s.accelerometerOn && !s.light.enabled && !s.proximity.enabled && !s.temperature.enabled
    requires idle.reply == PollReady(n, true) && woken.reply.PollReady? && woken.reply.n == 0
    ensures var d := Drain(s.motion, s.reader + woken.records, true, ReadShare(count));
            var k := |d.events|;
            var o := Run(s, false, timeout, [idle, woken], 0, count, []);
            k <= ReadShare(count) <= count
            && o.result == k && o.events == d.events
            && o.polls == [PollCall(0, PollDelay(timeout))]
                          + (if k < count then [PollCall(k, if k != 0 then 0 else PollDelay(timeout))] else [])
  {
    IdlePass(s, count, idle);
    AccelerometerPass(s, count, woken);
  }
}
