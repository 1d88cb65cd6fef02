// The proximity driver: like the other value sensors it reads a pseudo-file on
// every readEvents call, but it forgets the last reported value when enabled,
// warns only once about a failed read, and reports near/far rather than the
// raw reading.

module ProximityDriver {
  import opened SensorTypes

  /** Readings above this are "near". */
  const NEAR_THRESHOLD: real := 5000.0

  /** The distance reported for a reading: 0 is near, 1 is far. */
  function DistanceOf(value: real): (d: real)
    ensures d == 0.0 || d == 1.0
    ensures d == 0.0 <==> value > NEAR_THRESHOLD
  {
    if value > NEAR_THRESHOLD then 0.0 else 1.0
  }

  /**
   * The value readEvents goes on to compare with the last one: the parsed
   * reading, 0 for a failed read once the warning has been given (the zeroed
   * buffer parses as 0), nothing when the file could not be opened or the
   * failure is the one that is warned about.
   */
  function Observed(file: FileRead, warned: bool): (v: Option<real>)
    ensures file.Parsed? ==> v == Some(file.value)
    ensures file.OpenFailed? ==> v == None
    ensures file.ReadFailed? ==> (v == None <==> !warned) && (warned ==> v == Some(0.0))
  {
    match file
    case OpenFailed => None
    case ReadFailed => if warned then Some(0.0) else None
    case Parsed(value) => Some(value)
  }

  class ProximitySensor {
    var enabled: bool
    /** SensorBase::delay_time: the last delay accepted by setDelay. */
    var delayTime: Int64
    /** mLast_value: the last value reported, -1 before the first and after enabling. */
    var lastValue: real
    /** mAlready_warned: set by the first failed read. */
    var alreadyWarned: bool

    constructor ()
      ensures !enabled && delayTime == 200000000 && lastValue == -1.0 && !alreadyWarned
    {
      enabled := false;
      delayTime := 200000000;
      lastValue := -1.0;
      alreadyWarned := false;
    }

    method SetDelay(ns: Int64) returns (r: int)
      modifies this`delayTime
      ensures r == 0 && GetDelay() == ns
    {
      delayTime := ns;
      r := 0;
    }

    function GetDelay(): Int64
      reads this`delayTime
    {
      delayTime
    }

    /** Turning the sensor on also forgets the last reported value. */
    method Enable(en: int) returns (r: int)
      modifies this`enabled, this`lastValue
      ensures r == 0 && enabled == (en != 0)
      ensures lastValue == if en != 0 then -1.0 else old(lastValue)
    {
      if en != 0 {
        lastValue := -1.0;
        enabled := true;
      } else {
        enabled := false;
      }
      r := 0;
    }

    /** An enabled proximity sensor can always be read without waiting. */
    function HasPendingEvents(): (b: bool)
      reads this`enabled
      ensures b <==> enabled
    {
      if enabled then true else false
    }

    /**
     * Reads the proximity file (its outcome and the clock are inputs) and
     * writes at most one near/far event at buf[p], only for a value different
     * from the last one.
     */
    method ReadEvents(buf: array?<Event>, p: int, count: int, input: Reading) returns (nb: int)
      requires buf != null && count >= 1 ==> 0 <= p < buf.Length
      modifies this`lastValue, this`alreadyWarned, buf
      ensures nb == 0 || nb == 1
      ensures var attempted := count >= 1 && buf != null && enabled && !input.file.OpenFailed?;
              alreadyWarned == (old(alreadyWarned) || (attempted && input.file.ReadFailed?))
      ensures var v := Observed(input.file, old(alreadyWarned));
              nb == 1 <==> count >= 1 && buf != null && enabled && v.Some? && v.value != old(lastValue)
      ensures nb == 1 ==>
                var v := Observed(input.file, old(alreadyWarned)).value;
                buf[p] == Event(ID_P, ProximityType, Distance(DistanceOf(v)), input.now) && lastValue == v
      ensures nb == 0 ==> lastValue == old(lastValue)
      ensures buf != null ==>
                forall j | 0 <= j < buf.Length && (nb == 0 || j != p) :: buf[j] == old(buf[j])
    {
      if count < 1 || buf == null || !enabled {
        return 0;
      }
      if input.file.OpenFailed? {
        return 0;
      }
      if input.file.ReadFailed? && !alreadyWarned {
        alreadyWarned := true;
        return 0;
      }
      var value := if input.file.Parsed? then input.file.value else 0.0;
      if value == lastValue {
        return 0;
      }
      buf[p] := Event(ID_P, ProximityType, Distance(if value > NEAR_THRESHOLD then 0.0 else 1.0), input.now);
      lastValue := value;
      return 1;
    }
  }

  /**
   * A reading reported, repeated (suppressed), then reported again after the
   * sensor is disabled and enabled: enabling forgets the last value.
   */
  method ReenableReportsAgain(value: real) returns (first: int, repeat: int, afterEnable: int)
    requires value != -1.0
    ensures first == 1 && repeat == 0 && afterEnable == 1
  {
    var s := new ProximitySensor();
    var buf := new Event[1];
    var r := s.Enable(1);
    first := s.ReadEvents(buf, 0, 1, Reading(Parsed(value), 0));
    repeat := s.ReadEvents(buf, 0, 1, Reading(Parsed(value), 1));
    r := s.Enable(0);
    r := s.Enable(1);
    afterEnable := s.ReadEvents(buf, 0, 1, Reading(Parsed(value), 2));
  }

  /** Only the first failed read is silent; the next one reports the zeroed buffer as 0 (far). */
  method SecondFailedReadReports() returns (first: int, second: int, e: Event)
    ensures first == 0 && second == 1
    ensures e == Event(ID_P, ProximityType, Distance(1.0), 7)
  {
    var s := new ProximitySensor();
    var buf := new Event[1];
    var r := s.Enable(1);
    first := s.ReadEvents(buf, 0, 1, Reading(ReadFailed, 6));
    second := s.ReadEvents(buf, 0, 1, Reading(ReadFailed, 7));
    e := buf[0];
  }
}
