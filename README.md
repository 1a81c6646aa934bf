# ECG live relay: a Dafny model of `routes/ecg.js`

The ECG router of the PetCardio backend keeps a module-level list `clients`
of open Server-Sent Events (SSE) response streams. Its other pieces are:

- `GET /ecg/stream` sends a new stream a greeting frame and appends the stream to the list.
- The stream's `close` handler replaces the list by a filtered copy without that stream.
- A realtime-database listener forwards each new, truthy reading to `sendDataToClients`.
- `sendDataToClients` writes one frame `data: <JSON>\n\n` to every listed stream.
- `GET /ecg` answers with the latest reading (200), a "no data" message (404), or the error message (500).

The project has four modules.

- `EventStream` (event_stream.dfy): the SSE frame of one message. It also holds a decoder for the
  `text/event-stream` format of section 9.2.6 of the WHATWG HTML Living Standard, "Interpreting an
  event stream". The decoder is the reference used to prove that the bytes a stream receives carry
  exactly the intended messages, in order.
- `JsonValue` (json_value.dfy): the values a database snapshot yields, and JavaScript truthiness on them.
- `Relay` (relay.dfy): the registry as values. It has list removal (`Without`), the broadcast loop
  (`Deliver`), and a state machine (`Apply`, `RunFrom`) over the steps open / close / publish.
  Lemmas follow one connection through any run of those steps.
- `EcgRoutes` (ecg_routes.dfy): the imperative router state as a class `StreamRegistry`. Its fields
  are `clients`, an `outbox` standing for every write made on each response stream, and a ghost
  history of steps. Each handler becomes a method proved against `Relay.Apply`. The module also holds
  the pure reply function of `GET /ecg`.

A connection is identified by a `ConnId`, which stands for the identity of the Express response
object (`client !== res` at routes/ecg.js:48). `JSON.stringify` is the class's constant `serialize`:
an arbitrary deterministic function. The database query and subscription are inputs: the query's
outcome is a parameter of `LatestResponse`, and the listener is a method called with the new value.

Three points where the code's behaviour shapes the model:

- The code keeps an ordered list, not a set. Entries keep their order, and a duplicate would be
  written to twice (`DeliverWrites`).
- A failed write does not remove a stream. routes/ecg.js:13 does not handle write errors.
- Any falsy snapshot gets the 404 reply, not only a missing one (`if (data)` at routes/ecg.js:24).
  The falsy values are `null`, `false`, `0` and `""`.

## Model

| member | source | states |
|---|---|---|
| `EcgRoutes.StreamRegistry.constructor` | routes/ecg.js:7 | The registry starts with no listed stream, nothing written and an empty history. The state invariant holds. |
| `EcgRoutes.StreamRegistry.Write` | routes/ecg.js:13 | `client.write(text)` appends the text to what that connection was sent. No other connection changes, and the list does not change. |
| `EcgRoutes.StreamRegistry.OpenStream` | routes/ecg.js:41-44 | A new stream has been sent exactly the greeting frame `data: Conexão SSE aberta\n\n`. The new list is the old list with the stream appended at the end. Nothing else is written. The invariant is kept: distinct entries, and the state equals the run of the recorded steps. |
| `EcgRoutes.StreamRegistry.CloseStream` | routes/ecg.js:47-49 | Close leaves the list filtered of that stream (`Without`) and writes nothing. The invariant is kept. |
| `EcgRoutes.StreamRegistry.SendDataToClients` | routes/ecg.js:10-15 | The loop over the list leaves the outbox equal to `Deliver` of the old outbox, the list and `DataFrame(serialize(data))`: every listed connection, in list order, is sent the frame of the serialized reading. The list is unchanged. |
| `EcgRoutes.StreamRegistry.OnChildAdded` | routes/ecg.js:53-59 | A truthy value is broadcast exactly as `SendDataToClients` does. A falsy value changes nothing at all. |
| `EcgRoutes.LatestResponse` | routes/ecg.js:18-32 | Status 200 with the data if and only if the query yields a truthy value. Status 404 with `{message: "Nenhum dado encontrado."}` if and only if it yields a falsy one. Status 500 with the error's message if and only if the query fails. |
| `EcgRoutes.EmptyDatabaseIsNotAnError` | routes/ecg.js:24-28 | An empty database (`null` snapshot) gets the 404 "no data" reply, not an error. |
| `EventStream.DataFrame` | routes/ecg.js:13 | The frame template `data: <payload>\n\n` of line 13, also used for the greeting at line 41. What a client reads from it is stated by `FrameDecodes` and `FramesDecode`. |
| `Relay.Append` | routes/ecg.js:13 | One `client.write(text)` on the record of every write: the text goes at the end of the target's record. `AppendWritten` states that the target gains exactly that text and no other record changes. |
| `Relay.Deliver` | routes/ecg.js:12-14 | The `forEach` of `write` calls over the list, in list order, each connection visited once per list entry. What each connection receives is stated by `DeliverWrites`, `DeliverDistinct` and `DeliverKeys`. |
| `Relay.Apply` | routes/ecg.js:10-49 | One step of the router. Open (lines 41-44) writes the greeting and then appends to the list. Close (line 48) filters the list. Publish (lines 10-15) delivers the reading's frame to the list. The run lemmas `WhileOpen`, `WhileClosed` and `Lifecycle` state its effect on one connection. |
| `JsonValue.Truthy` | routes/ecg.js:55 | `null` is never forwarded. Every object or array snapshot is forwarded, even an empty one. |
| `Relay.AppendWritten` | routes/ecg.js:13 | One write adds its text at the end of the target's record. Every other connection's record is unchanged. |
| `Relay.CountIsMultiplicity` | routes/ecg.js:12 | The number of times `forEach` meets a connection in the list (`Count`) is that connection's multiplicity in the list. |
| `Relay.Without` | routes/ecg.js:48 | Filtering drops every occurrence of the closed connection. Every other entry keeps its multiplicity, and membership is exactly "was listed and is not the closed one". |
| `Relay.WithoutAbsent` | routes/ecg.js:48 | Closing a connection that is not listed leaves the list unchanged. |
| `Relay.WithoutIdempotent` | routes/ecg.js:48 | Closing the same connection twice equals closing it once. |
| `Relay.WithoutAppend` | routes/ecg.js:48 | Filtering distributes over concatenation, so the remaining entries keep their relative order. |
| `Relay.OpenThenClose` | routes/ecg.js:44-48 | Appending a new connection and then filtering it out restores the original list. |
| `Relay.WithoutDistinct` | routes/ecg.js:48 | Filtering a duplicate-free list leaves it duplicate-free. |
| `Relay.DeliverWrites` | routes/ecg.js:12-14 | After the `forEach` write, each connection's record is its old record followed by `Count(list, c)` copies of the frame, one per occurrence in the list. A connection not in the list gets nothing. |
| `Relay.DeliverDistinct` | routes/ecg.js:12-14 | On a duplicate-free list, every listed connection gets exactly one frame and every other connection gets none. |
| `Relay.DeliverKeys` | routes/ecg.js:12-14 | A broadcast adds exactly the listed connections to the set of connections written to. |
| `Relay.OpenedIsWritten` | routes/ecg.js:41-44 | A connection opened at any point of a run has been written to. A connection never written to has therefore never been opened, which is what `OpenStream` requires. |
| `Relay.FreshCanOpen` | routes/ecg.js:35-44 | A connection that no step of a run has opened has not been written to, so it meets `OpenStream`'s requirement `c !in outbox`. Each request's new `res` can always be opened. |
| `Relay.WhileOpen` | routes/ecg.js:12-14 | While a stream stays listed once (`Count` is 1) and is neither reopened nor closed, it stays listed once. It receives one frame per published reading, in publish order. |
| `Relay.WhileClosed` | routes/ecg.js:47-49 | A stream that is not listed, and is not opened again, receives nothing more. In particular, a closed stream gets no reading published after its close. |
| `Relay.Lifecycle` | routes/ecg.js:41-49 | Take any steps before a stream opens and any steps after it closes. The stream's record is the greeting frame followed by the frames of exactly the readings published while it was open, in order. |
| `Relay.StreamCarriesReadings` | routes/ecg.js:10-44 | If every serialized reading is single-line, a client decodes from the stream's bytes the greeting followed by exactly those readings, in publish order. |
| `EventStream.FrameDecodes` | routes/ecg.js:13 | A frame `data: s\n\n` with single-line `s` decodes to the one message `s` and leaves the decoder in its start state. |
| `EventStream.FramesDecode` | routes/ecg.js:12-14 | A run of such frames decodes to exactly its payloads, in order. |

## Left out

- Express routing, the SSE response headers (routes/ecg.js:36-38) and `console.log` (routes/ecg.js:56) are left out. They are I/O with no effect on the registry.
- The database query and subscription (`orderByChild`, `limitToLast`, `once`, `on` at routes/ecg.js:21 and 53) are left out. Their outcome is an input: a `QueryOutcome`, or the value the listener is called with.
- `LatestResponse` covers only a failing query on the 500 path. A throw from `res.status(...).json(...)` inside the same `try` is not modelled.
- `SendDataToClients`: the source calls `JSON.stringify(data)` inside the `forEach` callback, once per listed connection and never when the list is empty. The model computes the frame once before the loop. `serialize` is a deterministic function, so every connection receives the same text either way; the number of calls to `JSON.stringify` is not modelled.
- `JSON.stringify` is the abstract parameter `serialize`. Its output being single-line is assumed, in `StreamCarriesReadings` only, as its requires.
- Failed writes: `write` always succeeds in the model. The code does not handle write errors, so there is no removal on failure.
- Event-loop concurrency is left out. Open, close and broadcast are atomic steps. Within `OpenStream`, the greeting is still written before the stream is listed.
- The decoder ignores the `event`, `id` and `retry` fields and does not strip a leading byte order mark. The relay sends only `data` fields and starts each stream with `d`.
- routes/auth.js and index.js (account creation and login over the hosted identity service, app start-up) are not part of this model.
