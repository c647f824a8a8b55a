/**
 * The `message` handler of the device WebSocket (test.js:158-204) as a
 * function from the connection state and one event to the next state, and
 * what follows from it over a whole sequence of frames.
 */
module Protocol {
  import opened Wrappers
  import opened Telemetry

  /** `SELECT id FROM data_device WHERE device_token = $1` followed by
      `rows[0].id`: the id of the first row carrying the token. An absent
      token is sent as NULL, which equals no row. */
  function Lookup(rows: seq<DeviceRow>, token: Option<string>): (r: Option<nat>)
    ensures r.Some? <==> token.Some? && exists k :: 0 <= k < |rows| && rows[k].token == token.value
    ensures r.Some? ==> exists k :: 0 <= k < |rows| && rows[k] == DeviceRow(token.value, r.value)
                                   && forall j :: 0 <= j < k ==> rows[j].token != token.value
    decreases |rows|
  {
    if token.None? || rows == [] then None
    else if rows[0].token == token.value then Some(rows[0].id)
    else Lookup(rows[1..], token)
  }

  /** No token is registered twice. */
  predicate UniqueTokens(rows: seq<DeviceRow>)
  {
    forall i, j :: 0 <= i < j < |rows| ==> rows[i].token != rows[j].token
  }

  /** When no token is registered twice, the query yields the id registered
      with the token, whichever row holds it: the table acts as a map. */
  lemma LookupUnique(rows: seq<DeviceRow>, k: nat)
    requires UniqueTokens(rows) && k < |rows|
    ensures Lookup(rows, Some(rows[k].token)) == Some(rows[k].id)
  {
  }

  /** Whether the frame makes the handler issue a database query. */
  predicate Queries(s: State, f: Frame)
  {
    f.Auth? || (f.SensorReading? && Truthy(s.deviceId))
  }

  /** The column a measurement becomes: node-postgres sends `undefined` and
      `null` alike as NULL, and a number as itself. */
  function Column(f: Field): Option<real>
  {
    match f
    case Num(x) => Some(x)
    case _ => None
  }

  /** The row a `sensor_reading` frame becomes on a connection with id `id`. */
  function RowOf(id: nat, f: Frame): Record
    requires f.SensorReading?
  {
    Record(id, Column(f.temperature), Column(f.humidity), Column(f.lightLevel),
           Column(f.soilMoisture), Column(f.co2Ppm), Column(f.rainAnalog))
  }

  /** Two measurements the table cannot tell apart: equal, or each missing
      or null. */
  predicate SameColumn(a: Field, b: Field)
  {
    a == b || (!a.Num? && !b.Num?)
  }

  /** Two readings give the same row exactly when each measurement of one is
      the same as the other's or both are missing or null: the table keeps
      every number and no trace of missing versus null. */
  lemma MissingAndNullStoredAlike(id: nat, f: Frame, g: Frame)
    requires f.SensorReading? && g.SensorReading?
    ensures RowOf(id, f) == RowOf(id, g) <==>
              && SameColumn(f.temperature, g.temperature) && SameColumn(f.humidity, g.humidity)
              && SameColumn(f.lightLevel, g.lightLevel) && SameColumn(f.soilMoisture, g.soilMoisture)
              && SameColumn(f.co2Ppm, g.co2Ppm) && SameColumn(f.rainAnalog, g.rainAnalog)
  {
  }

  /** One run of the message handler, taken as one atomic step. */
  function Handle(s: State, e: Event): (t: State)
    ensures s.closed ==> t.closed
    ensures |s.outbox| <= |t.outbox| <= |s.outbox| + 1 && t.outbox[..|s.outbox|] == s.outbox
    ensures t.readings != s.readings ==>
              && e.frame.SensorReading? && Truthy(s.deviceId) && t.outbox == s.outbox
              && t.readings == s.readings + [RowOf(s.deviceId.value, e.frame)]
    ensures t.deviceId != s.deviceId ==> t.deviceId.Some? && t.outbox == s.outbox + [Authorized(t.deviceId.value)]
    ensures t.closed != s.closed ==> t.outbox == s.outbox + [Unauthorized]
  {
    // the catch block sends one "Invalid JSON format" reply and changes nothing else
    var caught := s.(outbox := s.outbox + [InvalidJson]);
    match e.frame
    case ParseError => caught
    case Auth(token) =>
      if e.storeFails then caught
      else
        var hit := Lookup(e.devices, token);
        if hit.Some? then s.(deviceId := hit, outbox := s.outbox + [Authorized(hit.value)])
        else s.(closed := true, outbox := s.outbox + [Unauthorized])
    case SensorReading(_, _, _, _, _, _) =>
      if !Truthy(s.deviceId) then s
      else if e.storeFails then caught
      else s.(readings := s.readings + [RowOf(s.deviceId.value, e.frame)])
    case Other => s
  }

  /** The handler run on each event of a trace in arrival order. */
  function Run(s: State, es: seq<Event>): State
    decreases |es|
  {
    if es == [] then s else Handle(Run(s, es[..|es| - 1]), es[|es| - 1])
  }

  // ---------------------------------------------------------------------
  // One frame

  /** test.js:178 — a reading on a connection whose id is undefined or 0 is
      dropped: no row, no reply, no other change, whatever the store does. */
  lemma UnauthenticatedReadingDropped(s: State, e: Event)
    requires e.frame.SensorReading? && !Truthy(s.deviceId)
    ensures Handle(s, e) == s
  {
  }

  /** test.js:162-171 — a token held by row `k`, and by no earlier row, sets
      the id to that row's id, whatever it was before (a second auth
      overwrites it), and sends exactly one Authorized reply carrying it. */
  lemma AuthHit(s: State, e: Event, k: nat)
    requires e.frame.Auth? && !e.storeFails && e.frame.token.Some?
    requires k < |e.devices| && e.devices[k].token == e.frame.token.value
    requires forall j :: 0 <= j < k ==> e.devices[j].token != e.frame.token.value
    ensures Handle(s, e).deviceId == Some(e.devices[k].id)
    ensures Handle(s, e).outbox == s.outbox + [Authorized(e.devices[k].id)]
    ensures Handle(s, e).closed == s.closed && Handle(s, e).readings == s.readings
  {
  }

  /** test.js:172-175 — an unknown or absent token sends exactly one
      Unauthorized reply, closes the connection and keeps the old id. */
  lemma AuthMiss(s: State, e: Event)
    requires e.frame.Auth? && !e.storeFails
    requires e.frame.token.None? || forall k :: 0 <= k < |e.devices| ==> e.devices[k].token != e.frame.token.value
    ensures Handle(s, e) == s.(closed := true, outbox := s.outbox + [Unauthorized])
  {
  }

  /** test.js:159-160, 200-203 — a frame that does not parse, or a query that
      throws, sends exactly one "Invalid JSON format" reply and changes
      nothing else: the id, the rows and the open connection stay. */
  lemma ErrorsAreReportedAndSurvived(s: State, e: Event)
    requires e.frame.ParseError? || (e.storeFails && Queries(s, e.frame))
    ensures Handle(s, e) == s.(outbox := s.outbox + [InvalidJson])
  {
  }

  /** test.js:178-197 — on a connection with a truthy id a reading whose
      insert succeeds adds exactly one row, tagged with that id and holding
      the six values passed to the insert, and sends nothing. */
  lemma AuthenticatedReadingStored(s: State, e: Event)
    requires e.frame.SensorReading? && Truthy(s.deviceId) && !e.storeFails
    ensures Handle(s, e).readings == s.readings + [Record(s.deviceId.value,
      Column(e.frame.temperature), Column(e.frame.humidity), Column(e.frame.lightLevel),
      Column(e.frame.soilMoisture), Column(e.frame.co2Ppm), Column(e.frame.rainAnalog))]
    ensures Handle(s, e).outbox == s.outbox && Handle(s, e).deviceId == s.deviceId
    ensures Handle(s, e).closed == s.closed
  {
  }

  /** test.js:162, 178 — a frame of any other type does nothing at all. */
  lemma OtherFrameIgnored(s: State, e: Event)
    requires e.frame.Other?
    ensures Handle(s, e) == s
  {
  }

  // ---------------------------------------------------------------------
  // Whole traces

  /** The connection never reopens; the replies and the rows only grow, by at
      most one reply per frame. */
  lemma {:induction false} RunGrows(s: State, es: seq<Event>)
    ensures s.closed ==> Run(s, es).closed
    ensures |s.outbox| <= |Run(s, es).outbox| <= |s.outbox| + |es|
    ensures Run(s, es).outbox[..|s.outbox|] == s.outbox
    ensures |s.readings| <= |Run(s, es).readings| && Run(s, es).readings[..|s.readings|] == s.readings
    decreases |es|
  {
    if es != [] {
      var mid := Run(s, es[..|es| - 1]);
      RunGrows(s, es[..|es| - 1]);
      var t := Handle(mid, es[|es| - 1]);
      assert t.outbox[..|s.outbox|] == t.outbox[..|mid.outbox|][..|s.outbox|];
      assert t.readings[..|s.readings|] == t.readings[..|mid.readings|][..|s.readings|];
    }
  }

  /** No Authorized reply appears in `o` from position `from` on. */
  predicate NoAuthorizedFrom(o: seq<Reply>, from: nat)
  {
    forall k :: from <= k < |o| ==> !o[k].Authorized?
  }

  /** As long as no Authorized reply has been sent, the id never changes, so
      a connection that starts with no id (or id 0) stores no row, however
      many readings, errors and other frames arrive. */
  lemma {:induction false} NoRowsBeforeAuthorized(s: State, es: seq<Event>)
    requires NoAuthorizedFrom(Run(s, es).outbox, |s.outbox|)
    ensures Run(s, es).deviceId == s.deviceId
    ensures !Truthy(s.deviceId) ==> Run(s, es).readings == s.readings
    decreases |es|
  {
    RunGrows(s, es);
    if es != [] {
      var mid := Run(s, es[..|es| - 1]);
      RunGrows(s, es[..|es| - 1]);
      var t := Run(s, es);
      assert mid.outbox == t.outbox[..|mid.outbox|];
      NoRowsBeforeAuthorized(s, es[..|es| - 1]);
      if |t.outbox| > |mid.outbox| {
        assert !t.outbox[|mid.outbox|].Authorized?;
      }
    }
  }

  /** The id in the most recent Authorized reply, if any was sent. */
  function LastAuthorized(o: seq<Reply>): (r: Option<nat>)
    decreases |o|
  {
    if o == [] then None
    else if o[|o| - 1].Authorized? then Some(o[|o| - 1].deviceId)
    else LastAuthorized(o[..|o| - 1])
  }

  /** A reported id was really sent in some Authorized reply. */
  lemma {:induction false} LastAuthorizedWasSent(o: seq<Reply>)
    requires LastAuthorized(o).Some?
    ensures Authorized(LastAuthorized(o).value) in o
    decreases |o|
  {
    if !o[|o| - 1].Authorized? {
      LastAuthorizedWasSent(o[..|o| - 1]);
      assert o == o[..|o| - 1] + [o[|o| - 1]];
    }
  }

  /** The connection's id is the one the device was last told it has. */
  ghost predicate Consistent(s: State)
  {
    s.deviceId == LastAuthorized(s.outbox)
  }

  lemma HandleKeepsConsistent(s: State, e: Event)
    requires Consistent(s)
    ensures Consistent(Handle(s, e))
  {
  }

  lemma {:induction false} RunKeepsConsistent(s: State, es: seq<Event>)
    requires Consistent(s)
    ensures Consistent(Run(s, es))
    decreases |es|
  {
    if es != [] {
      RunKeepsConsistent(s, es[..|es| - 1]);
      HandleKeepsConsistent(Run(s, es[..|es| - 1]), es[|es| - 1]);
    }
  }

  /** Every row a fresh connection stores carries a non-zero id that the
      device was sent in an Authorized reply on that connection. */
  lemma {:induction false} RowsCarryAnnouncedId(readings: seq<Record>, es: seq<Event>, k: nat)
    requires |readings| <= k < |Run(Fresh(readings), es).readings|
    ensures Run(Fresh(readings), es).readings[k].deviceId != 0
    ensures Authorized(Run(Fresh(readings), es).readings[k].deviceId) in Run(Fresh(readings), es).outbox
    decreases |es|
  {
    var s := Fresh(readings);
    var mid := Run(s, es[..|es| - 1]);
    var t := Run(s, es);
    RunGrows(s, es[..|es| - 1]);
    RunGrows(mid, [es[|es| - 1]]);
    assert Run(mid, [es[|es| - 1]]) == t by {
      assert Run(mid, [es[|es| - 1]]) == Handle(Run(mid, []), es[|es| - 1]);
    }
    if k < |mid.readings| {
      RowsCarryAnnouncedId(readings, es[..|es| - 1], k);
      assert t.readings[k] == t.readings[..|mid.readings|][k];
      assert t.outbox[..|mid.outbox|] == mid.outbox;
    } else {
      RunKeepsConsistent(s, es[..|es| - 1]);
      LastAuthorizedWasSent(mid.outbox);
    }
  }

  /** Two identical readings on an authenticated connection give two
      identical rows: there is no deduplication. */
  lemma {:induction false} RepeatedReadingStoredTwice(s: State, e: Event)
    requires e.frame.SensorReading? && Truthy(s.deviceId) && !e.storeFails
    ensures Run(s, [e, e]).readings == s.readings + [RowOf(s.deviceId.value, e.frame), RowOf(s.deviceId.value, e.frame)]
    ensures Run(s, [e, e]).outbox == s.outbox
  {
    assert [e, e][..1] == [e];
    assert Run(s, [e]) == Handle(Run(s, []), e);
  }
}
