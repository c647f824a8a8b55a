/**
 * Values exchanged on the device WebSocket channel of test.js: the decoded
 * inbound frames, the outbound replies, the rows of the `sensor_data` table
 * and the per-connection state the message handler keeps.
 */
module Telemetry {
  import opened Wrappers

  /** One measurement as found in a decoded `sensor_reading` frame. The value
      is carried unchanged into the stored row; no arithmetic is done on it. */
  datatype Field = Missing | Null | Num(x: real)

  /** A frame after `JSON.parse` and the look at its `type` property.
      `ParseError` is a payload whose parse throws, or the payload `null`
      (reading `.type` of null throws too); `Other` is any payload whose
      `type` is neither "auth" nor "sensor_reading", a non-object included.
      The `device_token` of an auth frame is `None` when absent or null. */
  datatype Frame =
    | ParseError
    | Auth(token: Option<string>)
    | SensorReading(temperature: Field, humidity: Field, lightLevel: Field,
                    soilMoisture: Field, co2Ppm: Field, rainAnalog: Field)
    | Other

  /** The three messages the handler sends back with `ws.send`. */
  datatype Reply = Authorized(deviceId: nat) | Unauthorized | InvalidJson

  /** A row inserted into `sensor_data`: the connection's device id and the
      six measurement columns, `None` standing for SQL NULL. */
  datatype Record = Record(deviceId: nat, temperature: Option<real>, humidity: Option<real>,
                           lightLevel: Option<real>, soilMoisture: Option<real>,
                           co2Ppm: Option<real>, rainAnalog: Option<real>)

  /** A row of `data_device` as the token query sees it. */
  datatype DeviceRow = DeviceRow(token: string, id: nat)

  /** What the outside world supplies to one run of the handler: the frame,
      the rows of `data_device` in the order the database returns them, and
      whether the one database query this frame issues throws. */
  datatype Event = Event(frame: Frame, devices: seq<DeviceRow>, storeFails: bool)

  /** Everything one connection's handler can observe or change: `ws.deviceId`
      (`None` while undefined), whether `ws.close()` has been called, the
      replies sent so far, and the `sensor_data` rows. */
  datatype State = State(deviceId: Option<nat>, closed: bool, outbox: seq<Reply>,
                         readings: seq<Record>)

  /** JavaScript truthiness of `ws.deviceId`: undefined and 0 are falsy. */
  predicate Truthy(deviceId: Option<nat>)
  {
    deviceId.Some? && deviceId.value != 0
  }

  /** The state of a connection right after the `connection` event. */
  function Fresh(readings: seq<Record>): State
  {
    State(None, false, [], readings)
  }
}
