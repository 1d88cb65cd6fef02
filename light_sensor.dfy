// The ambient light driver: enabled on request, it reads the lux pseudo-file
// on every readEvents call and reports a value only when it differs from the
// last one reported.

module LightDriver {
  import opened SensorTypes

  class LightSensor {
    var enabled: bool
    /** SensorBase::delay_time: the last delay accepted by setDelay. */
    var delayTime: Int64
    /** mLast_value: the last value reported, -1 before the first. */
    var lastValue: real
    /** mAlready_warned: only ever reset to false. */
    var alreadyWarned: bool

    ghost predicate Valid()
      reads this`alreadyWarned
    {
      !alreadyWarned
    }

    constructor ()
      ensures Valid()
      ensures !enabled && delayTime == 200000000 && lastValue == -1.0
    {
      enabled := false;
      delayTime := 200000000;
      lastValue := -1.0;
      alreadyWarned := false;
    }

    method SetDelay(ns: Int64) returns (r: int)
      modifies this`delayTime
      ensures r == 0 && GetDelay() == ns
    {
      delayTime := ns;
      r := 0;
    }

    function GetDelay(): Int64
      reads this`delayTime
    {
      delayTime
    }

    /** Turns the sensor on or off; the last reported value is kept either way. */
    method Enable(en: int) returns (r: int)
      modifies this`enabled
      ensures r == 0 && enabled == (en != 0)
    {
      if en != 0 {
        enabled := true;
      } else {
        enabled := false;
      }
      r := 0;
    }

    /** An enabled light sensor can always be read without waiting. */
    function HasPendingEvents(): (b: bool)
      reads this`enabled
      ensures b <==> enabled
    {
      if enabled then true else false
    }

    /**
     * Reads the lux file (its outcome and the clock are inputs) and writes at
     * most one event at buf[p], only for a value different from the last one.
     */
    method ReadEvents(buf: array?<Event>, p: int, count: int, input: Reading) returns (nb: int)
      requires Valid()
      requires buf != null && count >= 1 ==> 0 <= p < buf.Length
      modifies this`lastValue, this`alreadyWarned, buf
      ensures Valid()
      ensures nb == 0 || nb == 1
      ensures nb == 1 <==> count >= 1 && buf != null && enabled
                           && input.file.Parsed? && input.file.value != old(lastValue)
      ensures nb == 1 ==> buf[p] == Event(ID_L, LightType, Lux(input.file.value), input.now)
                          && lastValue == input.file.value
      ensures nb == 0 ==> lastValue == old(lastValue)
      ensures buf != null ==>
                forall j | 0 <= j < buf.Length && (nb == 0 || j != p) :: buf[j] == old(buf[j])
    {
      if count < 1 || buf == null || !enabled {
        return 0;
      }
      if input.file.OpenFailed? {
        return 0;
      }
      if input.file.ReadFailed? && !alreadyWarned {
        alreadyWarned := false;
        return 0;
      }
      // A failed read past the warning parses the zeroed buffer.
      var value := if input.file.Parsed? then input.file.value else 0.0;
      if value == lastValue {
        return 0;
      }
      buf[p] := Event(ID_L, LightType, Lux(value), input.now);
      lastValue := value;
      return 1;
    }
  }

  /** Two identical readings in a row after enabling yield one event, not two. */
  method RepeatedReadingReportsOnce(value: real, t1: int, t2: int) returns (first: int, second: int)
    requires value != -1.0
    ensures first == 1 && second == 0
  {
    var s := new LightSensor();
    var buf := new Event[1];
    var r := s.Enable(1);
    first := s.ReadEvents(buf, 0, 1, Reading(Parsed(value), t1));
    second := s.ReadEvents(buf, 0, 1, Reading(Parsed(value), t2));
  }
}
