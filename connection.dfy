/**
 * The objects the device WebSocket handler works on: the `sensor_data` table
 * every connection appends to, and one connection (`ws`) with its
 * `deviceId` property, its closed state and the replies sent on it.
 */
module Connections {
  import opened Wrappers
  import opened Telemetry
  import opened Protocol

  /** The `sensor_data` table, shared by all connections. */
  class SensorTable {
    var rows: seq<Record>

    constructor (rows: seq<Record>)
      ensures this.rows == rows
    {
      this.rows := rows;
    }
  }

  /** One device connection, created by the `connection` event
      (test.js:155) and driven by its `message` event (test.js:158-204). */
  class Connection {
    var deviceId: Option<nat>
    var closed: bool
    var outbox: seq<Reply>
    const table: SensorTable

    /** The connection's id is the one it last sent in an Authorized reply. */
    ghost predicate Valid()
      reads this
    {
      deviceId == LastAuthorized(outbox)
    }

    /** The state the handler sees and changes. */
    function Snapshot(): State
      reads this, table
    {
      State(deviceId, closed, outbox, table.rows)
    }

    /** A new connection: no id, open, nothing sent; the table is untouched. */
    constructor (table: SensorTable)
      ensures Valid() && this.table == table
      ensures Snapshot() == Fresh(table.rows)
    {
      deviceId := None;
      closed := false;
      outbox := [];
      this.table := table;
    }

    /** The `message` handler for one frame. `devices` holds the rows of
        `data_device` the query of this frame sees, `storeFails` says that
        query throws. */
    method OnFrame(f: Frame, devices: seq<DeviceRow>, storeFails: bool)
      requires Valid()
      modifies this, table
      ensures Valid()
      ensures Snapshot() == Handle(old(Snapshot()), Event(f, devices, storeFails))
    {
      ghost var before := Snapshot();
      var thrown := false;
      match f {
        case ParseError =>
          thrown := true;
        case Auth(token) =>
          if storeFails {
            thrown := true;
          } else {
            var hit := Lookup(devices, token);
            if hit.Some? {
              deviceId := hit;
              outbox := outbox + [Authorized(hit.value)];
            } else {
              outbox := outbox + [Unauthorized];
              closed := true;
            }
          }
        case SensorReading(temperature, humidity, lightLevel, soilMoisture, co2Ppm, rainAnalog) =>
          if Truthy(deviceId) {
            if storeFails {
              thrown := true;
            } else {
              table.rows := table.rows + [Record(deviceId.value, Column(temperature), Column(humidity),
                                                 Column(lightLevel), Column(soilMoisture),
                                                 Column(co2Ppm), Column(rainAnalog))];
            }
          }
        case Other =>
      }
      if thrown {
        outbox := outbox + [InvalidJson];
      }
      HandleKeepsConsistent(before, Event(f, devices, storeFails));
    }
  }

  // The scenarios of the wire protocol, checked against the class contract.

  /** A known token is answered with its id and the connection stays open. */
  method ScenarioAuthorized(t1: string)
  {
    var table := new SensorTable([]);
    var a := new Connection(table);
    a.OnFrame(Auth(Some(t1)), [DeviceRow(t1, 7)], false);
    assert a.outbox == [Authorized(7)] && a.deviceId == Some(7) && !a.closed;
  }

  /** An unknown token is answered with Unauthorized and the connection closes. */
  method ScenarioRejected(t1: string, bad: string)
    requires t1 != bad
  {
    var table := new SensorTable([]);
    var b := new Connection(table);
    b.OnFrame(Auth(Some(bad)), [DeviceRow(t1, 7)], false);
    assert b.outbox == [Unauthorized] && b.closed && b.deviceId == None;
  }

  /** A reading before auth is dropped silently; a reading after it is stored,
      its null field kept as null. */
  method ScenarioReadings(t1: string, v: real)
  {
    var table := new SensorTable([]);
    var c := new Connection(table);
    var f := SensorReading(Num(v), Null, Missing, Missing, Missing, Missing);
    var devices := [DeviceRow(t1, 7)];
    c.OnFrame(f, devices, false);
    assert c.Snapshot() == State(None, false, [], []);
    c.OnFrame(Auth(Some(t1)), devices, false);
    assert c.Snapshot() == State(Some(7), false, [Authorized(7)], []);
    c.OnFrame(f, devices, false);
    assert c.outbox == [Authorized(7)];
    assert table.rows == [Record(7, Some(v), None, None, None, None, None)];
  }

  /** A garbled frame is reported and the connection still serves the next one. */
  method ScenarioGarbled(t1: string)
  {
    var table := new SensorTable([]);
    var e := new Connection(table);
    var devices := [DeviceRow(t1, 7)];
    e.OnFrame(ParseError, devices, false);
    assert e.Snapshot() == State(None, false, [InvalidJson], []);
    e.OnFrame(Auth(Some(t1)), devices, false);
    assert Lookup(devices, Some(t1)) == Some(7);
    assert e.outbox == [InvalidJson, Authorized(7)] && e.deviceId == Some(7);
  }
}
