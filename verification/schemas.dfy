/**
 * The four record shapes of the service (one per collection) with their field
 * defaults and the range constraints the request validation enforces.
 */
module Schemas {
  import opened Wrappers

  /** Instants (the service's `datetime` values), ordered as integers. */
  type Time = int

  /**
   * The store's order on optional instants: `a` is at least as recent as `b`,
   * where a missing instant is older than every instant.
   */
  predicate NotOlder(a: Option<Time>, b: Option<Time>) {
    b.None? || (a.Some? && a.value >= b.value)
  }

  /** The control mode; the schema's literal type admits exactly "auto" and "manual". */
  datatype Mode = Auto | Manual

  /** Fan speed levels 0 to 5. */
  predicate ValidFanSpeed(speed: int) {
    0 <= speed <= 5
  }

  datatype Device = Device(
    deviceId: string,
    name: Option<string>,
    location: Option<string>,
    power: bool,
    mode: Mode,
    fanSpeed: int,
    lastSeen: Option<Time>)

  predicate ValidDevice(d: Device) {
    ValidFanSpeed(d.fanSpeed)
  }

  /** `Device(device_id=id)`: every other field takes its schema default. */
  function DefaultDevice(id: string): (d: Device)
    ensures ValidDevice(d) && d.deviceId == id
    ensures d.power && d.mode == Auto && d.fanSpeed == 1
    ensures d.name.None? && d.location.None? && d.lastSeen.None?
  {
    Device(id, None, None, true, Auto, 1, None)
  }

  datatype SensorReading = SensorReading(
    deviceId: string,
    pm25: real,
    pm10: real,
    co2: Option<real>,
    tvoc: Option<real>,
    temperature: Option<real>,
    humidity: Option<real>,
    aqi: Option<int>,
    timestamp: Option<Time>)

  /** An optional measurement that must not be negative when present. */
  predicate NonNegative(v: Option<real>) {
    v.Some? ==> v.value >= 0.0
  }

  predicate ValidReading(r: SensorReading) {
    && r.pm25 >= 0.0
    && r.pm10 >= 0.0
    && NonNegative(r.co2)
    && NonNegative(r.tvoc)
    && (r.humidity.Some? ==> 0.0 <= r.humidity.value <= 100.0)
    && (r.aqi.Some? ==> 0 <= r.aqi.value <= 500)
  }

  datatype Thresholds = Thresholds(
    deviceId: Option<string>,
    pm25Good: real,
    pm25Moderate: real,
    pm10Good: real,
    co2Max: real,
    tvocMax: real)

  predicate ValidThresholds(t: Thresholds) {
    t.pm25Good >= 0.0 && t.pm25Moderate >= 0.0 && t.pm10Good >= 0.0 && t.co2Max >= 0.0 && t.tvocMax >= 0.0
  }

  /** `Thresholds(device_id=deviceId)`: the five limits at their schema defaults. */
  function DefaultThresholds(deviceId: Option<string>): (t: Thresholds)
    ensures ValidThresholds(t) && t.deviceId == deviceId
    ensures t.pm25Good == 12.0 && t.pm25Moderate == 35.4 && t.pm10Good == 54.0
    ensures t.co2Max == 1200.0 && t.tvocMax == 500.0
  {
    Thresholds(deviceId, 12.0, 35.4, 54.0, 1200.0, 500.0)
  }

  /** A sparse control intent: only `deviceId` is required, a `None` field means "no change". */
  datatype DeviceCommand = DeviceCommand(
    deviceId: string,
    power: Option<bool>,
    mode: Option<Mode>,
    fanSpeed: Option<int>)

  predicate ValidCommand(c: DeviceCommand) {
    c.fanSpeed.Some? ==> ValidFanSpeed(c.fanSpeed.value)
  }

  /** The schema's `device_id`-only command is valid: the three control fields are optional. */
  lemma OnlyDeviceIdRequired(id: string)
    ensures ValidCommand(DeviceCommand(id, None, None, None))
  {
  }
}
