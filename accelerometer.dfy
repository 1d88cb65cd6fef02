// The accelerometer driver: an evdev input device whose EV_ABS records update
// a pending event and whose EV_SYN records publish it, plus the choice of the
// hardware sampling-rate code from a requested delay.

module AccelerometerDriver {
  import opened SensorTypes

  /** Rate codes written to the device's rate control: the sample period in ms. */
  const EVENT_RATE_CODE_25HZ: int := 40
  const EVENT_RATE_CODE_50HZ: int := 20
  const EVENT_RATE_CODE_100HZ: int := 10
  const EVENT_RATE_CODE_200HZ: int := 5

  /** The SENSOR_DELAY_FASTEST, SENSOR_DELAY_GAME and SENSOR_DELAY_UI thresholds. */
  datatype RateThresholds = RateThresholds(fastest: int, game: int, ui: int) {
    predicate Ordered() { fastest <= game <= ui }
  }

  /** Sampling frequency in Hz that a rate code selects. */
  function RateHz(code: int): int
  {
    if code == EVENT_RATE_CODE_200HZ then 200
    else if code == EVENT_RATE_CODE_100HZ then 100
    else if code == EVENT_RATE_CODE_50HZ then 50
    else 25
  }

  /** The rate code chosen for a requested delay of ns nanoseconds. */
  function RateCode(ns: int, t: RateThresholds): (code: int)
    ensures code in {EVENT_RATE_CODE_200HZ, EVENT_RATE_CODE_100HZ, EVENT_RATE_CODE_50HZ, EVENT_RATE_CODE_25HZ}
    ensures code * RateHz(code) == 1000
    ensures code == EVENT_RATE_CODE_200HZ <==> ns <= t.fastest
    ensures code == EVENT_RATE_CODE_25HZ <==> ns > t.fastest && ns > t.game && ns > t.ui
    ensures t.Ordered() ==> (code == EVENT_RATE_CODE_100HZ <==> t.fastest < ns <= t.game)
    ensures t.Ordered() ==> (code == EVENT_RATE_CODE_50HZ <==> t.game < ns <= t.ui)
  {
    if ns <= t.fastest then EVENT_RATE_CODE_200HZ
    else if ns <= t.game then EVENT_RATE_CODE_100HZ
    else if ns <= t.ui then EVENT_RATE_CODE_50HZ
    else EVENT_RATE_CODE_25HZ
  }

  /** A longer requested delay never selects a faster rate. */
  lemma RateCodeMonotone(ns1: int, ns2: int, t: RateThresholds)
    requires t.Ordered() && ns1 <= ns2
    ensures RateCode(ns1, t) <= RateCode(ns2, t)
    ensures RateHz(RateCode(ns2, t)) <= RateHz(RateCode(ns1, t))
  {
  }

  /** The variable part of the pending event: the three axes and the timestamp. */
  datatype Motion = Motion(x: int, y: int, z: int, timestamp: int)

  /** The event published for a pending motion. */
  function AsEvent(m: Motion): Event
  {
    Event(ID_A, AccelerometerType, Acceleration(m.x, m.y, m.z), m.timestamp)
  }

  /** Effect of an EV_ABS record with the given code and value. */
  function WithAxis(m: Motion, code: int, value: int): Motion
  {
    if code == ABS_X then m.(x := value)
    else if code == ABS_Y then m.(y := value)
    else if code == ABS_Z then m.(z := value)
    else m
  }

  /** Effect of one input record on the pending motion. */
  function Apply(m: Motion, e: InputEvent): Motion
  {
    if e.kind == EV_ABS then WithAxis(m, e.code, e.value)
    else if e.kind == EV_SYN then m.(timestamp := e.time)
    else m
  }

  /** The pending motion after a sequence of records (defined on the last record). */
  function Process(m: Motion, recs: seq<InputEvent>): Motion
    decreases |recs|
  {
    if recs == [] then m else Apply(Process(m, recs[..|recs| - 1]), recs[|recs| - 1])
  }

  /** Number of EV_SYN records. */
  function CountSyn(recs: seq<InputEvent>): nat
    decreases |recs|
  {
    if recs == [] then 0
    else CountSyn(recs[..|recs| - 1]) + (if recs[|recs| - 1].kind == EV_SYN then 1 else 0)
  }

  /**
   * The events an enabled driver publishes for a sequence of records: one per
   * EV_SYN record, the pending event as it stands right after that record.
   */
  function Snapshots(m: Motion, recs: seq<InputEvent>): (s: seq<Event>)
    ensures |s| == CountSyn(recs)
    ensures forall k | 0 <= k < |s| :: s[k].sensor == ID_A && s[k].kind == AccelerometerType
    decreases |recs|
  {
    if recs == [] then []
    else
      var before := Snapshots(m, recs[..|recs| - 1]);
      if recs[|recs| - 1].kind == EV_SYN then before + [AsEvent(Process(m, recs))] else before
  }

  /** Value of the last EV_ABS record with this code, or dflt if there is none. */
  function LastAbs(recs: seq<InputEvent>, code: int, dflt: int): int
    decreases |recs|
  {
    if recs == [] then dflt
    else
      var e := recs[|recs| - 1];
      if e.kind == EV_ABS && e.code == code then e.value else LastAbs(recs[..|recs| - 1], code, dflt)
  }

  /** Time of the last EV_SYN record, or dflt if there is none. */
  function LastSynTime(recs: seq<InputEvent>, dflt: int): int
    decreases |recs|
  {
    if recs == [] then dflt
    else
      var e := recs[|recs| - 1];
      if e.kind == EV_SYN then e.time else LastSynTime(recs[..|recs| - 1], dflt)
  }

  /** Result of draining the input reader: events written, new pending motion, unread records. */
  datatype Drained = Drained(events: seq<Event>, pending: Motion, rest: seq<InputEvent>)

  /**
   * The read loop of readEvents, record by record: stop when the budget is
   * spent or the records run out; publish on EV_SYN only while enabled.
   */
  function Drain(m: Motion, recs: seq<InputEvent>, enabled: bool, budget: nat): (d: Drained)
    ensures |d.events| <= budget
    ensures |d.rest| <= |recs|
    decreases |recs|
  {
    if budget == 0 || recs == [] then Drained([], m, recs)
    else
      var next := Apply(m, recs[0]);
      if recs[0].kind == EV_SYN && enabled then
        var d := Drain(next, recs[1..], enabled, budget - 1);
        Drained([AsEvent(next)] + d.events, d.pending, d.rest)
      else
        Drain(next, recs[1..], enabled, budget)
  }

  lemma {:induction false} ProcessCons(m: Motion, e: InputEvent, recs: seq<InputEvent>)
    ensures Process(m, [e] + recs) == Process(Apply(m, e), recs)
    decreases |recs|
  {
    if recs != [] {
      var init := recs[..|recs| - 1];
      assert ([e] + recs)[..|recs|] == [e] + init;
      ProcessCons(m, e, init);
    }
  }

  lemma {:induction false} SnapshotsCons(m: Motion, e: InputEvent, recs: seq<InputEvent>)
    ensures Snapshots(m, [e] + recs)
         == (if e.kind == EV_SYN then [AsEvent(Apply(m, e))] else []) + Snapshots(Apply(m, e), recs)
    decreases |recs|
  {
    if recs == [] {
      assert [e][..0] == [];
      assert Process(m, [e]) == Apply(m, e);
    } else {
      var init := recs[..|recs| - 1];
      assert ([e] + recs)[..|recs|] == [e] + init;
      SnapshotsCons(m, e, init);
      ProcessCons(m, e, recs);
    }
  }

  /** The records Drain consumed: everything before what it leaves in the reader. */
  function Consumed(recs: seq<InputEvent>, d: Drained): seq<InputEvent>
    requires |d.rest| <= |recs|
  {
    recs[..|recs| - |d.rest|]
  }

  /** Drain consumes nothing when the budget is spent or the reader is empty. */
  lemma DrainStops(m: Motion, recs: seq<InputEvent>, enabled: bool, budget: nat)
    requires budget == 0 || recs == []
    ensures var d := Drain(m, recs, enabled, budget);
            d == Drained([], m, recs) && Consumed(recs, d) == []
  {
  }

  /** One step of Drain: the first record is consumed in front of what the rest consumes. */
  lemma DrainStep(m: Motion, recs: seq<InputEvent>, enabled: bool, budget: nat)
    requires budget > 0 && recs != []
    ensures var next := Apply(m, recs[0]);
            var publish := recs[0].kind == EV_SYN && enabled;
            var d := Drain(m, recs, enabled, budget);
            var d' := Drain(next, recs[1..], enabled, if publish then budget - 1 else budget);
            d.rest == d'.rest && d.pending == d'.pending
            && d.events == (if publish then [AsEvent(next)] else []) + d'.events
            && Consumed(recs, d) == [recs[0]] + Consumed(recs[1..], d')
  {
    var d := Drain(m, recs, enabled, budget);
    assert recs == [recs[0]] + recs[1..];
  }

  /**
   * What Drain leaves in the reader is a suffix of the records; a disabled
   * driver publishes nothing; the loop only stops early when the budget is
   * spent; every published event is an accelerometer event.
   */
  lemma {:induction false} DrainShape(m: Motion, recs: seq<InputEvent>, enabled: bool, budget: nat)
    ensures var d := Drain(m, recs, enabled, budget);
            d.rest == recs[|recs| - |d.rest|..]
            && (!enabled ==> d.events == [])
            && (|d.events| < budget ==> d.rest == [])
            && (forall k | 0 <= k < |d.events| :: d.events[k].sensor == ID_A && d.events[k].kind == AccelerometerType)
    decreases |recs|
  {
    if budget == 0 || recs == [] {
      DrainStops(m, recs, enabled, budget);
    } else {
      var next := Apply(m, recs[0]);
      var budget' := if recs[0].kind == EV_SYN && enabled then budget - 1 else budget;
      DrainShape(next, recs[1..], enabled, budget');
      DrainStep(m, recs, enabled, budget);
      var d' := Drain(next, recs[1..], enabled, budget');
      assert recs[1..][|recs| - 1 - |d'.rest|..] == recs[|recs| - |d'.rest|..];
    }
  }

  /**
   * A drain that fills its budget was enabled and stopped right after the
   * EV_SYN record it published last: the last record it consumed is an EV_SYN.
   */
  lemma {:induction false} DrainFullEndsAtSync(m: Motion, recs: seq<InputEvent>, enabled: bool, budget: nat)
    requires 0 < budget == |Drain(m, recs, enabled, budget).events|
    ensures var d := Drain(m, recs, enabled, budget);
            enabled && |d.rest| < |recs| && recs[|recs| - |d.rest| - 1].kind == EV_SYN
    decreases |recs|
  {
    DrainStep(m, recs, enabled, budget);
    var next := Apply(m, recs[0]);
    var publish := recs[0].kind == EV_SYN && enabled;
    var budget' := if publish then budget - 1 else budget;
    var d' := Drain(next, recs[1..], enabled, budget');
    if budget' == 0 {
      DrainStops(next, recs[1..], enabled, budget');
    } else {
      DrainFullEndsAtSync(next, recs[1..], enabled, budget');
      assert recs[1..][|recs| - 1 - |d'.rest| - 1] == recs[|recs| - |d'.rest| - 1];
    }
  }

  /** The pending motion Drain leaves is the one after the records it consumed. */
  lemma {:induction false} DrainPending(m: Motion, recs: seq<InputEvent>, enabled: bool, budget: nat)
    ensures var d := Drain(m, recs, enabled, budget);
            d.pending == Process(m, Consumed(recs, d))
    decreases |recs|
  {
    if budget == 0 || recs == [] {
      DrainStops(m, recs, enabled, budget);
    } else {
      var next := Apply(m, recs[0]);
      var budget' := if recs[0].kind == EV_SYN && enabled then budget - 1 else budget;
      DrainPending(next, recs[1..], enabled, budget');
      DrainStep(m, recs, enabled, budget);
      ProcessCons(m, recs[0], Consumed(recs[1..], Drain(next, recs[1..], enabled, budget')));
    }
  }

  /** While enabled, Drain publishes exactly the snapshots of the records it consumed. */
  lemma {:induction false} DrainEvents(m: Motion, recs: seq<InputEvent>, budget: nat)
    ensures var d := Drain(m, recs, true, budget);
            d.events == Snapshots(m, Consumed(recs, d))
    decreases |recs|
  {
    if budget == 0 || recs == [] {
      DrainStops(m, recs, true, budget);
    } else {
      var next := Apply(m, recs[0]);
      var budget' := if recs[0].kind == EV_SYN then budget - 1 else budget;
      DrainEvents(next, recs[1..], budget');
      DrainStep(m, recs, true, budget);
      SnapshotsCons(m, recs[0], Consumed(recs[1..], Drain(next, recs[1..], true, budget')));
    }
  }

  /**
   * Drain agrees with the declarative reading: it consumes a prefix of the
   * records, leaves the pending motion after that prefix, and publishes one
   * snapshot per EV_SYN of the prefix while enabled, none otherwise.
   */
  lemma DrainIsSnapshots(m: Motion, recs: seq<InputEvent>, enabled: bool, budget: nat)
    ensures var d := Drain(m, recs, enabled, budget);
            var consumed := Consumed(recs, d);
            recs == consumed + d.rest
            && d.pending == Process(m, consumed)
            && d.events == (if enabled then Snapshots(m, consumed) else [])
            && (enabled ==> |d.events| == CountSyn(consumed))
  {
    DrainShape(m, recs, enabled, budget);
    DrainPending(m, recs, enabled, budget);
    if enabled {
      DrainEvents(m, recs, budget);
    }
  }

  /** The pending motion carries the most recent axis values and EV_SYN time. */
  lemma {:induction false} ProcessIsLatest(m: Motion, recs: seq<InputEvent>)
    ensures Process(m, recs)
         == Motion(LastAbs(recs, ABS_X, m.x), LastAbs(recs, ABS_Y, m.y),
                   LastAbs(recs, ABS_Z, m.z), LastSynTime(recs, m.timestamp))
    decreases |recs|
  {
    if recs != [] {
      ProcessIsLatest(m, recs[..|recs| - 1]);
    }
  }

  /** How fill() of the input reader ends: new records, or a negative errno. */
  datatype FillOutcome = Filled(records: seq<InputEvent>) | FillFailed(errno: Errno)

  class Accelerometer {
    /** Descriptor of the "gsensor" input device; negative when opening it failed. */
    const dataFd: int
    /** The SENSOR_DELAY_* thresholds of the rate mapping. */
    const rates: RateThresholds
    var enabled: bool
    /** SensorBase::delay_time; the accelerometer never updates it. */
    var delayTime: Int64
    /** The variable part of mPendingEvent. */
    var pending: Motion
    /** Records buffered in the input reader and not yet consumed. */
    var reader: seq<InputEvent>

    ghost predicate Valid()
      reads this`delayTime
    {
      delayTime == -1
    }

    constructor (fd: int, thresholds: RateThresholds)
      ensures Valid()
      ensures dataFd == fd && rates == thresholds
      ensures !enabled && reader == [] && pending == Motion(0, 0, 0, 0)
    {
      dataFd := fd;
      rates := thresholds;
      enabled := false;
      delayTime := -1;
      pending := Motion(0, 0, 0, 0);
      reader := [];
    }

    /**
     * Picks the rate code for ns and returns 0 whether or not the rate control
     * could be opened; the code that would be written is returned beside it.
     */
    method SetDelay(ns: Int64) returns (r: int, code: int)
      ensures r == 0
      ensures code == RateCode(ns, rates)
    {
      code := EVENT_RATE_CODE_25HZ;
      if ns <= rates.fastest {
        code := EVENT_RATE_CODE_200HZ;
      } else if ns <= rates.game {
        code := EVENT_RATE_CODE_100HZ;
      } else if ns <= rates.ui {
        code := EVENT_RATE_CODE_50HZ;
      }
      r := 0;
    }

    function GetDelay(): (d: Int64)
      reads this`delayTime
      requires Valid()
      ensures d == -1
    {
      delayTime
    }

    method Enable(en: int) returns (r: int)
      modifies this`enabled
      ensures r == 0
      ensures enabled == (en != 0 && dataFd >= 0)
    {
      if en != 0 && dataFd >= 0 {
        enabled := true;
      } else {
        enabled := false;
      }
      r := 0;
    }

    /** The accelerometer never claims data without a readable descriptor. */
    function HasPendingEvents(): (b: bool)
      ensures !b
    {
      false
    }

    /** processEvent: an EV_ABS record updates one axis of the pending event. */
    method ProcessEvent(code: int, value: int)
      modifies this`pending
      ensures pending == WithAxis(old(pending), code, value)
    {
      if code == ABS_X {
        pending := pending.(x := value);
      } else if code == ABS_Y {
        pending := pending.(y := value);
      } else if code == ABS_Z {
        pending := pending.(z := value);
      }
    }

    /**
     * Fills the reader, then consumes records while budget remains, writing
     * one event per EV_SYN into buf[p..] while enabled.
     */
    method ReadEvents(buf: array<Event>, p: int, count: int, fill: FillOutcome) returns (nb: int)
      requires count >= 1 ==> 0 <= p && p + count <= buf.Length
      modifies this`pending, this`reader, buf
      ensures count < 1 ==> nb == -EINVAL
      ensures count >= 1 && fill.FillFailed? ==> nb == -(fill.errno as int)
      ensures count < 1 || fill.FillFailed? ==>
                pending == old(pending) && reader == old(reader) && buf[..] == old(buf[..])
      ensures count >= 1 && fill.Filled? ==>
                var d := Drain(old(pending), old(reader) + fill.records, enabled, count);
                nb == |d.events| && pending == d.pending && reader == d.rest
                && (forall k | 0 <= k < nb :: buf[p + k] == d.events[k])
                && (forall j | 0 <= j < buf.Length && !(p <= j < p + nb) :: buf[j] == old(buf[j]))
    {
      if count < 1 {
        return -EINVAL;
      }
      if fill.FillFailed? {
        return -(fill.errno as int);
      }
      reader := reader + fill.records;
      ghost var d0 := Drain(pending, reader, enabled, count);
      ghost var written: seq<Event> := [];
      var left := count;
      nb := 0;
      while left != 0 && reader != []
        invariant 0 <= left <= count && nb + left == count && nb == |written|
        invariant forall k | 0 <= k < nb :: buf[p + k] == written[k]
        invariant var d := Drain(pending, reader, enabled, left);
                  d0.events == written + d.events && d0.pending == d.pending && d0.rest == d.rest
        invariant forall j | 0 <= j < buf.Length && !(p <= j < p + nb) :: buf[j] == old(buf[j])
        decreases |reader|
      {
        ghost var left0, written0 := left, written;
        var e := reader[0];
        ghost var next := Apply(pending, e);
        ghost var publish := e.kind == EV_SYN && enabled;
        DrainStep(pending, reader, enabled, left);
        if e.kind == EV_ABS {
          ProcessEvent(e.code, e.value);
        } else if e.kind == EV_SYN {
          pending := pending.(timestamp := e.time);
          if enabled {
            buf[p + nb] := AsEvent(pending);
            written := written + [AsEvent(pending)];
            left := left - 1;
            nb := nb + 1;
          }
        }
        reader := reader[1..];
        assert pending == next;
        assert left == (if publish then left0 - 1 else left0);
        assert written == written0 + (if publish then [AsEvent(next)] else []);
      }
      DrainStops(pending, reader, enabled, left);
    }
  }
}
