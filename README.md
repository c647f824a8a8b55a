# Device WebSocket protocol of the IoT smart-home server

This project models the part of `test.js` that serves ESP32 sensor devices
over a WebSocket, and the bearer-token extraction of its HTTP middleware.

- **Connection** (`connection.dfy`): each connection (`ws`) carries one
  mutable property, `deviceId`, plus the replies sent on it and whether
  `ws.close()` was called. All connections append to the shared
  `sensor_data` table, modelled as the class `SensorTable`.
  `Connection.OnFrame` is the `message` handler for one frame. It is proved
  against the specification function `Protocol.Handle` and keeps the object
  invariant `Valid()`: the connection's id is the id of the last Authorized
  reply it sent.
- **Protocol** (`protocol.dfy`): `Handle` takes one frame as one atomic
  step.
  - An unparsable frame, or a database query that throws, gets
    `{"error":"Invalid JSON format"}`. The connection stays open.
  - `auth` with a known token sets the id and replies Authorized with it.
    An unknown or absent token replies Unauthorized and closes.
  - `sensor_reading` appends one row, but only when the id is truthy
    (set and not 0).
  - Any other frame is ignored.
  - `Run` applies `Handle` over a trace of frames. Lemmas state the
    per-frame rules and what holds over whole traces.
- **Wire** (`wire.dfy`): the text `JSON.stringify` gives each reply, and
  how a device reads it back. Two different replies always have different
  text.
- **Bearer** (`bearer.dfy`): `authHeader && authHeader.split(' ')[1]`, with
  `split` and its inverse `join`, and the `authenticateToken` middleware
  around it. `jwt.verify` is a function passed in. The middleware is
  modelled both as written and with the missing `return` added (see
  Findings).
- **Telemetry** (`telemetry.dfy`) and **Wrappers** (`wrappers.dfy`) hold
  the shared datatypes.

The outside world comes in as parameters:
- the `data_device` table is the sequence of its rows, in the order the
  database returns them;
- a flag per frame says whether the one query that frame issues throws;
- `JSON.parse` and the read of `type` are folded into the `Frame` value the
  handler receives.

In four places the code is less strict than a clean protocol would be;
the model follows the code:
- a second successful `auth` replaces `deviceId` (test.js:169);
- a failed `auth` closes the connection but leaves an earlier `deviceId` set;
- a failing device lookup is answered with "Invalid JSON format", the
  message for a frame that does not parse, and the connection stays open;
- a failing insert is answered with the same message.

A measurement missing from a frame and one sent as `null` are both stored as
NULL: node-postgres sends `undefined` and `null` alike.

## Model

| member | source | states |
|---|---|---|
| `Protocol.Lookup` | test.js:163-169 | the query finds a row exactly when a token is present and some row holds it, and then yields the id of the first such row, as `rows[0].id` takes; an absent token matches nothing |
| `Protocol.LookupUnique` | test.js:163-169 | when no token is registered twice, the query yields the id registered with the token, whichever row holds it |
| `Telemetry.Truthy` | test.js:178 | the `ws.deviceId` test: an undefined id and the id 0 are falsy, every other id is truthy |
| `Protocol.MissingAndNullStoredAlike` | test.js:191-196 | two readings give the same `sensor_data` row exactly when every measurement is the same number in both or is missing or `null` in each: numbers are kept, missing and `null` both become NULL |
| `Protocol.RowOf` | test.js:191-194 | the row of one reading: the connection's id followed by the six measurement columns in the order of the insert |
| `Protocol.Handle` | test.js:158-204 | one frame never reopens a closed connection, sends at most one reply and keeps earlier ones, adds a row only for a reading on a truthy id (and then sends nothing), changes the id only while sending Authorized with the new id, and closes only while sending Unauthorized |
| `Protocol.UnauthenticatedReadingDropped` | test.js:178 | a reading on a connection whose id is undefined or 0 changes nothing: no row, no reply, even when the store is down |
| `Protocol.AuthHit` | test.js:162-171 | a token first held by row `k` sets the id to that row's id, replacing any earlier id, and sends exactly one Authorized reply carrying that id; the connection stays as it was and no row is added |
| `Protocol.AuthMiss` | test.js:172-175 | a token no row holds, or an absent token, sends exactly one Unauthorized reply and closes the connection; the id and the rows are unchanged |
| `Protocol.ErrorsAreReportedAndSurvived` | test.js:158-203 | a frame that does not parse, or a frame whose query throws, sends exactly one Invalid JSON reply and changes nothing else; the id, the rows and the open connection stay |
| `Protocol.AuthenticatedReadingStored` | test.js:178-197 | on a truthy id a reading adds exactly one row, with that id and the six values passed to the insert; nothing is sent and the id is kept |
| `Protocol.OtherFrameIgnored` | test.js:162-178 | a frame of any other type changes nothing and sends nothing |
| `Protocol.Run` | test.js:158-204 | the handler applied to the frames of one connection one after another, in arrival order |
| `Protocol.RunGrows` | test.js:158-204 | over any trace the connection never reopens; replies and rows are only appended; at most one reply is sent per frame |
| `Protocol.NoRowsBeforeAuthorized` | test.js:168-178 | while no Authorized reply has been sent the id never changes, so a connection without a truthy id stores no row whatever frames arrive |
| `Protocol.LastAuthorizedWasSent` | test.js:170 | the id of the last Authorized reply is one that was actually sent |
| `Protocol.HandleKeepsConsistent` | test.js:169-170 | one frame keeps the id equal to the id of the last Authorized reply sent |
| `Protocol.RunKeepsConsistent` | test.js:169-170 | any trace keeps the id equal to the id of the last Authorized reply sent |
| `Protocol.RowsCarryAnnouncedId` | test.js:169-196 | every row a new connection stores has a non-zero id that the connection sent in an Authorized reply |
| `Protocol.RepeatedReadingStoredTwice` | test.js:178-197 | the same reading twice on a truthy id stores two identical rows, with no deduplication, and sends nothing |
| `Wire.Decimal` | test.js:170 | an id is printed as a non-empty string of digits with no leading zero, which reads back as that id |
| `Wire.Encode` | test.js:170-202 | the text `JSON.stringify` gives each of the three replies; a device reading that text gets the same reply back |
| `Wire.EncodeInjective` | test.js:170-202 | two replies with the same text are the same reply |
| `Connections.Connection.constructor` | test.js:155-156 | a new connection has no id, is open, has sent nothing and shares the given table |
| `Connections.Connection.OnFrame` | test.js:158-204 | the connection's id, closed state, replies and the shared table afterwards are `Handle` of their values before; the object invariant is kept |
| `Bearer.Split` | test.js:31 | `split(' ')` yields at least one piece, no piece contains a space, and there is a single piece exactly when the string has no space |
| `Bearer.SplitJoin` | test.js:31 | joining the pieces of `split(' ')` gives the header back |
| `Bearer.JoinSplit` | test.js:31 | pieces without spaces, joined and split again, come back unchanged |
| `Bearer.ExtractToken` | test.js:30-31 | no header gives undefined and the empty header gives ""; a non-empty header gives a token exactly when it contains a space, and that token has no space |
| `Bearer.BearerTokenExtracted` | test.js:30-31 | a header `<scheme> <token>`, possibly followed by more words, yields exactly `<token>` |
| `Bearer.TokenIsSecondWord` | test.js:31 | any token taken from a non-empty header is the word between the first space and the next space or the end |
| `Bearer.TokenMissingIff` | test.js:31-33 | the 401 branch (`!token`) is taken exactly when the header is absent, has no space, or has a space or the end right after its first space |
| `Bearer.AuthenticateToken` | test.js:29-40 | `next()` runs exactly when `jwt.verify` accepts the extracted token, and then with its user (no user otherwise); the responses sent are exactly a 401 when the token is missing, followed by a 403 when verification fails |
| `Bearer.MissingHeaderAnsweredTwice` | test.js:33-36 | with no header and a verifier that refuses, the request as written attempts two responses, 401 then 403 |
| `Bearer.AuthenticateTokenReturning` | test.js:33-39 | with the `return`, a request gets exactly one response or is passed on, never both; a missing token gets only 401; with a token present it behaves as written |

## Findings

| source | as written | input that shows it | evidently intended | confidence | as-written member | corrected member |
|---|---|---|---|---|---|---|
| test.js:33 | `if (!token) res.status(401)...` has no `return`, so `jwt.verify` still runs after the 401 | a request without an `Authorization` header: 401 is sent, then `jwt.verify` refuses the undefined token and a second (403) response is attempted on the finished response | stop after the 401 and send exactly one response | high, not executed | `Bearer.MissingHeaderAnsweredTwice` | `Bearer.AuthenticateTokenReturning` |

## Left out

- The HTTP routes `/register`, `/login`, `/api/device/register` and `/add-device` (test.js:43-152) and all of server.js. They hash passwords, sign tokens and wrap SQL inserts and selects, with no logic of their own.
- SQL, the `sensor_data` schema and its timestamp default. The device query is modelled as a search for the first row holding the token.
- The JSON grammar and `JSON.parse`. A frame arrives already decoded.
- Other JSON kinds in measurement fields. Only a number, null or a missing field is modelled. Numbers are carried as `real` and no arithmetic is done on them. The database's casting of strings, or its rejection of other kinds, is covered only by the store-failure flag.
- The internals of `jwt.verify` and the JWT secret. The verifier is a function parameter.
- Express's refusal of a second response (`ERR_HTTP_HEADERS_SENT`). The model records the attempted responses in order.
- `Wire.Decimal`: JavaScript prints integers of 10^21 and above in exponent form. Database ids never get that large, and the model prints every id in plain digits.
- Interleaving of the asynchronous handler between frames on one connection, and concurrency across connections. Each frame is one atomic step.
- Delivery by the `ws` library after `close()`. The handler still runs on later frames and its replies are recorded, as the handler itself never checks the state.
- The `close` event handler (test.js:206-208) and all console logging. The handler only logs, so it changes no state.
- `server.listen` and the process environment.
