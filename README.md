# Session storage and telemetry relay of capstone-backend

`app.js` is an Express server with two parts that hold logic of its own:

- **The session storage adapter** backs the auth plugin's session storage. It has five callbacks over the `Session` table:
  - `getSession` reads a session and fills in defaults: `expiresAt` becomes "now", and `privateData`/`publicData` become `"{}"`. The handle it was asked for always wins.
  - `createSession` inserts a row. `updateSession` sets `data`. `deleteSession` removes rows.
  - Each of these three returns the first row the statement gave back, with the handle overridden. When no row comes back, it returns a record holding only the handle.
  - `getSessions` lists one user's sessions. Each record keeps its own stored handle, converted to a string.
- **The telemetry handlers** run on the socket server:
  - `"dht"` broadcasts an `esp8266` acknowledgement. If the reading is 32 or more it broadcasts an `alert` `"HIGH"`. It then stores the reading in the `temperature` table and broadcasts it as `temp`.
  - `"alert"` re-broadcasts its payload unchanged.

## How the model is built

| file | module | contents |
|---|---|---|
| `values.dfy` | `JsValues` | cell values (`Null`, `Text`, `Integer`); rows as maps from column to cell; JavaScript truthiness, `??`, `String(...)` and object spread |
| `session_storage.dfy` | `SessionStorage` | the record-shaping functions; the WHERE, INSERT, UPDATE and DELETE effects as functions on the table; class `SessionTable` with the five callbacks; the properties |
| `telemetry.dfy` | `Telemetry` | each handler's effects as a sequence of broadcasts and inserts; class `Hub` holding the broadcast log, the `temperature` table and the interleaved trace; the properties |

### Session table

- The `Session` table is a sequence of rows in table order. No schema is visible, so the model does not assume handles are unique.
- As in SQL, `UPDATE` and `DELETE` act on every matching row. A callback's `rows[0]` is the first matching row.
- `UniqueHandles` states the uniqueness the auth plugin's freshly generated handles give. Under it, lemmas show that `updateSession` changes exactly one row, and only its `data`. They also show that `deleteSession` removes exactly that row and keeps the rest in order.
- Lemmas also show that `updateSession` and `deleteSession` keep handles unique, and so does `createSession` when no row holds the new handle yet.
- Collaborators are parameters:
  - the current time is the text `now`;
  - the `data->>'userId'` ownership test is `owns`;
  - the schema's defaults for columns the INSERT does not name are `defaults`.

### Telemetry

- Each handler call is atomic and runs one after another.
- `stored` is the outcome of the `"dht"` handler's INSERT. When the INSERT fails, the handler's `await` rejects: the acknowledgement and any alert are already out, and no row and no `temp` follow.

### Behaviour kept as the code has it

- None of the five callbacks reports an error when no row matches:
  - `getSession` on a missing handle returns the defaulted record.
  - `updateSession` and `deleteSession` on a missing handle return `{ handle }`.
  - A missing row is not an error.
  - A duplicate `createSession` is whatever the store does.
- `getSession` defaults `expiresAt` at read time. `ExpiryDefaultsAtReadTime` shows that two reads of such a row at different times disagree. The model keeps this behaviour as written.

## Model

| member | source | states |
|---|---|---|
| `SessionStorage.OrEmptyObject` | app.js:45-50 | an absent or falsy `privateData`/`publicData` becomes `"{}"`; a truthy one becomes its `String(...)`; the result is never empty |
| `SessionStorage.ShapeGet` | app.js:39-52 | the record `getSession` resolves to: `handle` is always the argument, whatever the row stored; `expiresAt` is the stored value, or `now` when it is null or missing; `privateData`/`publicData` are defaulted to `"{}"`; every other column is copied; with no row, exactly the four defaulted properties |
| `SessionStorage.ShapeReturned` | app.js:58-61 | `{ ...rows[0], handle }`: every returned column is copied, `handle` is forced to the input, and with no row the record holds only the handle |
| `SessionStorage.ListedRecord` | app.js:85-88 | a listed record has the row's columns, and its `handle` is `String` of the row's own stored handle, not a caller-supplied one |
| `SessionStorage.ShapeList` | app.js:85-88 | `rows.map(...)`: one record per row, in the store's order |
| `SessionStorage.Filter` | app.js:36-38 | a WHERE clause selects exactly the rows it holds for, and no more rows than the table has; that it keeps table order is carried by `FilterAppend`, `FilterAll` and `FilterNone` |
| `SessionStorage.FilterAppend` | app.js:36-38 | filtering a concatenated table is filtering each part, in the same order |
| `SessionStorage.FilterAll` | app.js:36-38 | a clause that holds for every row keeps the whole table, in order |
| `SessionStorage.FilterNone` | app.js:36-38 | a clause that holds for no row selects nothing |
| `SessionStorage.Matching` | app.js:36-38 | `WHERE handle = '...'` selects exactly the rows holding the handle; its order is that of `Filter` (`FilterAppend`, `FilterAll`, `FilterNone`) |
| `SessionStorage.Owned` | app.js:82-84 | `WHERE data->>'userId' = '...'` selects exactly the rows the user owns |
| `SessionStorage.First` | app.js:39 | `rows[0]` is undefined exactly when the query returned no rows |
| `SessionStorage.InsertedRow` | app.js:55-57 | the inserted row holds the five interpolated values, and the schema defaults for the other columns |
| `SessionStorage.Without` | app.js:73-75 | the DELETE keeps exactly the rows without the handle; that with unique handles it removes exactly one row and keeps the rest in order is `DeleteRemovesOneRow` |
| `SessionStorage.WithData` | app.js:64-66 | the UPDATE keeps the table's length; it sets `data` on exactly the rows with the handle and leaves every other column of every row, and every other row, unchanged |
| `SessionStorage.SessionTable.GetSession` | app.js:35-53 | reads the first row with the handle and shapes it; the handle is the argument; with no match only the four defaulted properties |
| `SessionStorage.SessionTable.CreateSession` | app.js:54-62 | appends the inserted row and returns it with `handle` set to `session.handle` |
| `SessionStorage.SessionTable.UpdateSession` | app.js:63-71 | the table becomes the UPDATE's result, and the callback returns the first updated row with the handle forced |
| `SessionStorage.SessionTable.DeleteSession` | app.js:72-80 | the table loses the rows with the handle, and the callback returns the first deleted row with the handle forced |
| `SessionStorage.SessionTable.GetSessions` | app.js:81-89 | returns one shaped record per owned row, in table order |
| `SessionStorage.CreateThenGet` | app.js:35-61 | after creating a session with a fresh handle, `getSession` finds that row: handle, expiry text, both tokens and owner are the caller's |
| `SessionStorage.FirstUpdated` | app.js:63-70 | the first row the UPDATE returns is the previously first matching row with its new `data` |
| `SessionStorage.UpdateThenGet` | app.js:35-70 | after `updateSession(handle, data)` on an existing handle, both the callback's record and a following `getSession` carry `data` and the handle |
| `SessionStorage.DeleteThenGet` | app.js:35-79 | after `deleteSession(handle)` no row holds the handle, and `getSession` gives exactly the defaulted record holding the handle |
| `SessionStorage.UpdateTouchesOneRow` | app.js:63-66 | with unique handles the UPDATE changes exactly the one row holding the handle |
| `SessionStorage.DeleteRemovesOneRow` | app.js:72-75 | with unique handles the DELETE removes exactly the one row holding the handle, and the rest stay in order |
| `SessionStorage.UpdateKeepsHandlesUnique` | app.js:63-66 | the UPDATE never breaks handle uniqueness |
| `SessionStorage.DeleteKeepsHandlesUnique` | app.js:72-75 | the DELETE never breaks handle uniqueness |
| `SessionStorage.CreateKeepsHandlesUnique` | app.js:54-57 | inserting a session whose handle no row holds yet keeps handles unique |
| `SessionStorage.FilterKeepsHandlesUnique` | app.js:36-38 | any WHERE clause keeps handle uniqueness |
| `SessionStorage.ListedSessions` | app.js:81-89 | `getSessions(u)` selects exactly the rows `u` owns; it gives one record per such row, each holding its own stored handle as text |
| `SessionStorage.ExpiryDefaultsAtReadTime` | app.js:42-44 | a row with no stored expiry reads differently at different times, while a stored expiry reads the same every time |
| `Telemetry.DhtEffects` | app.js:166-175 | the `"dht"` effects start with the acknowledgement and include the insert exactly when it succeeds; the full order is `DhtOrder` and what clients see is `DhtObservable` |
| `Telemetry.AlertEffects` | app.js:176-178 | the `"alert"` effects are the one broadcast of `("alert", p)`; what clients see is `AlertObservable` |
| `Telemetry.DhtObservable` | app.js:166-175 | a reading `v` broadcasts `esp8266 true`, then `alert "HIGH"` if and only if `v >= 32`, then `temp v` once stored; the table gains `[v]` if stored, else nothing |
| `Telemetry.DhtOrder` | app.js:166-175 | the acknowledgement comes first; the alert happens exactly when `v >= 32` and comes before the insert; `temp` and the insert happen exactly when the INSERT succeeds, and `temp` comes after the insert |
| `Telemetry.DhtCounts` | app.js:166-175 | exactly one acknowledgement, one alert when `v >= 32` and none otherwise, and exactly one `temp` when stored |
| `Telemetry.AlertObservable` | app.js:176-178 | an `"alert"` message broadcasts exactly `("alert", p)` and stores nothing |
| `Telemetry.DhtOnTrace` | app.js:166-175 | a log and a table already holding some trace gain exactly the `"dht"` events and the row that `DhtObservable` names |
| `Telemetry.ReplayObservable` | app.js:166-175 | over readings handled in sequence, each INSERT succeeding, the table gains them in arrival order; there are as many acknowledgements as readings, and one alert per reading at or above 32 |
| `Telemetry.Hub.OnDht` | app.js:166-175 | the trace grows by exactly the `"dht"` effects; the broadcast log and the `temperature` table grow by exactly the events and the row those effects name |
| `Telemetry.Hub.OnAlert` | app.js:176-178 | the log grows by one `alert` event carrying the payload, and the table is unchanged |
| `Telemetry.Hub.Emit` | app.js:167 | `io.emit` appends one event to the log and leaves the table alone |
| `Telemetry.Hub.Store` | app.js:171-173 | a successful INSERT appends one row to `temperature` and broadcasts nothing |

## Left out

- Express routes, CORS, trust-proxy and the auth middleware hookup (app.js:93-157): framework plumbing.
- Stripe checkout (app.js:127-147): a call into a payment SDK.
- The libSQL client and SQL text construction, including injection through the interpolated strings. Each statement is modelled by its effect on the table.
- The `data->>'userId'` JSON extraction: it is the caller-supplied ownership predicate `owns`.
- SQLite type affinity: a `WHERE handle = '...'` matches only a text cell that equals the handle, and `InsertedRow` stores each interpolated value as text. A column with INTEGER affinity would store `'42'` as the integer 42; the schema is not visible.
- Row order: neither the SELECTs (`getSession`'s `rows[0]`, app.js:36-39; `getSessions`'s list, app.js:82-85) nor `RETURNING *` has an `ORDER BY`, so SQL leaves the order unspecified. The model takes all of them to be table order.
- Duplicate-key errors on `createSession`: the schema is not visible. With no constraint, the model just appends the row.
- A store call that rejects in a session callback (`turso.execute` failing because the store is unavailable, a constraint is violated, or a `'` in an interpolated value breaks the SQL) is not modelled: each callback's statement always takes effect.
- `SessionStorage.SessionTable.UpdateSession`: its `data` is the text the template literal interpolates (app.js:65); how a caller's object renders into it is not modelled.
- `SessionStorage.SessionTable.GetSessions`: its `userId` is the text the template literal interpolates (app.js:83); how a caller's value renders into it is not modelled.
- `SessionStorage.NewSession` holds the texts the INSERT's template literal interpolates. How a `Date` or a number renders into that text (`Date.prototype.toString`) is not modelled.
- `new Date(...)` parsing: the returned `expiresAt` is the value `DateFrom(text)`, which records the text the `Date` was built from. The clock is the caller-supplied `now`.
- Floating-point numbers, bigints and blobs in cells: integers only, with `String` rendered in decimal.
- JavaScript property order in the returned objects: records are maps.
- Socket.io connection and disconnect logging, and `server.listen` (app.js:159-165, 181-183): I/O.
- Delivery itself, i.e. fan-out to each connected client. The broadcast log is what every connected client is sent.
- Async interleaving of concurrent handlers: each handler runs whole, one after another.
- JavaScript comparison of non-numeric `"dht"` payloads with 32: readings are integers.
- `Telemetry.Payload`: the `"alert"` handler forwards whatever value a client sends (objects, arrays, `null`, non-integer numbers). The model's payload is only a boolean, a string or an integer. `AlertObservable` holds for every payload the model has.
- The rows that the temperature INSERT's `RETURNING *` gives back, which the handler ignores.
- A failed INSERT in the `"dht"` handler (app.js:171-173): the `async` listener's promise is discarded by socket.io, and app.js installs no `unhandledRejection` or `uncaughtException` handler. The rejection is unhandled: under Node's default mode since version 15 it ends the server process.
- `Telemetry.Hub.OnDht`: after `OnDht(v, false)` the `Hub` stays valid and keeps handling `"dht"` and `"alert"` messages. The real process would stop, so the model does not capture that a failed INSERT is terminal. `stored = false` models only what had already happened by then: the acknowledgement and any alert went out, and no row and no `temp` followed.
