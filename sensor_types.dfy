// Types shared by the poll context and the four sensor drivers: sensor
// identities, the event record handed to the framework, and the inputs the
// drivers receive from the kernel (sysfs text files, evdev records, the clock).

module SensorTypes {

  /** Sensor identities; they double as the sensor handles 0..3. */
  const ID_A: int := 0
  const ID_L: int := 1
  const ID_P: int := 2
  const ID_T: int := 3

  /** Linux errno value returned (negated) for bad arguments. */
  const EINVAL: int := 22

  datatype Option<T> = None | Some(value: T)

  /** A C int64_t. */
  type Int64 = x: int | -0x8000_0000_0000_0000 <= x < 0x8000_0000_0000_0000

  /** A positive errno value, as a failed system call leaves it. */
  type Errno = e: int | e > 0 witness 1

  /** The SENSOR_TYPE_* tag of an event. */
  datatype SensorType = AccelerometerType | LightType | ProximityType | TemperatureType

  /**
   * The type-specific part of an event. Accelerations are the raw axis
   * values reported by the input device; the conversion to m/s^2 is not modelled.
   */
  datatype Payload =
    | Acceleration(x: int, y: int, z: int)
    | Lux(lux: real)
    | Distance(distance: real)
    | Celsius(celsius: real)

  /** A sensors_event_t as the drivers fill it. */
  datatype Event = Event(sensor: int, kind: SensorType, payload: Payload, timestamp: int)

  /** Outcome of opening and reading a sysfs text file, with the parsed number on success. */
  datatype FileRead = OpenFailed | ReadFailed | Parsed(value: real)

  /** What one on-demand read of a value sensor sees: the file and the clock. */
  datatype Reading = Reading(file: FileRead, now: int)

  /** One evdev input_event record; time is already converted to nanoseconds. */
  datatype InputEvent = InputEvent(kind: int, code: int, value: int, time: int)

  const EV_SYN: int := 0
  const EV_ABS: int := 3
  const ABS_X: int := 0
  const ABS_Y: int := 1
  const ABS_Z: int := 2
}
