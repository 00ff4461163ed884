# Telemetry ingest and aggregation of the EEMS WebSocket server

This project models the core of `src/websocket.js`. That is the part of the
EEMS API server that ingests readings from energy-meter RTUs (Remote Terminal
Units) over a WebSocket, relays every frame to all open clients, and keeps per-RTU
state in memory. It then reduces that state into two kinds of Firestore records:
ten-minute ActivePower slots and end-of-day energy totals. The model is
written in Dafny and its properties are proved.

The model follows the file's own structure:

| file | what it holds |
|---|---|
| `wrappers.dfy` | `Option` and a map lookup (`Lookup`). |
| `text.dfy` | `String.prototype.trim` (ECMAScript white space) and `split` on one character, with `Join` as the inverse of `Split`. |
| `readings.dfy` | The reading, the zero template behind `createZeroData`, `extractRTUId`, and the customer-name rule `Customer?.split(",")[0] \|\| "Unknown"`. |
| `timing.dfy` | The clock as an input: an `Asia/Phnom_Penh` wall-clock date and time plus `Date.now()`. Also the one-minute offline rule, the 23:59:50–23:59:59.999 submit window, and the `YYYY-MM-DD HH:mm` slot key. |
| `buffer.dfy` | The 1000-entry history per RTU (`push` followed by `shift`). |
| `store.dfy` | Firestore as a map from `(collection, date)` documents to per-RTU records. `set(..., {merge: true})` is `Merge`, and a batch commit applies its writes in order. The `DocStore` class keeps a ghost log of the batches it committed. |
| `broadcast.dfy` | `broadcast`: the `Hub` class sends to every client whose `readyState` is OPEN. |
| `aggregator.dfy` | The pure specification functions: which reading a tick selects for each RTU, the write batches of both pipelines, and the slot/date markers that deduplicate them. Also the lemmas about them: bucket idempotence, one batch per RTU on a slot's first tick, the zero fill, and the durable daily guard. |
| `session.dfy` | The `Telemetry` class. Its fields are the four module-level maps (`esp32DataByRTU`, `lastESP32TimestampByRTU`, `lastActivePowerSlotByRTU`, `lastSubmittedDateByRTU`), plus the key order `Object.keys` yields. Its methods are the message handler, `saveLastReadingPerDay`, `saveActivePowerPerDay` and the scheduler's per-tick body, each proved against the specification functions. |

Inputs that the model takes as parameters:
- The wall clock. The same clock holds for a whole handler call or tick.
- The outcome of `JSON.parse`.
- The outcome of the Firestore read of `Main/<date>`.
- The outcome of each batch commit. In a tick there is one outcome per RTU.

Behaviour of the code that the model keeps as written:
- `saveActivePowerPerDay` sets the slot marker (`src/websocket.js:191`) before the batch commit (`src/websocket.js:214`). A failed commit is therefore not retried in the same slot.
- The daily energy rollup runs only from the message handler, with the reading that just arrived (`src/websocket.js:142`). It is not a pass over all known RTUs.
- The handler stamps the arrival time before the daily save runs (`src/websocket.js:126`), so that save never sees the RTU offline. Its zero fill is unreachable on this path. `Session.Telemetry.OnMessage` states this by committing the arriving reading itself.
- The durable cross-process guard reads only the RTU's `energy` field in `Main/<date>` (`src/websocket.js:277`). A reading with no Main category does not set that guard; the guard keeps whatever value it had (`Aggregator.DailyBatchSetsGuard`).

## Model

| member | source | states |
|---|---|---|
| Text.Trim | src/websocket.js:74-75 | The trimmed string has no white space at either end, contains only characters of its input, and is empty exactly when the input is all white space. |
| Text.TrimPadded | src/websocket.js:75 | Trimming a trimmed text padded with white space on both sides gives that text back. |
| Text.Split | src/websocket.js:73 | `split(",")` yields at least one part, no part contains the separator, and joining the parts with the separator gives the input back. |
| Text.SplitJoin | src/websocket.js:73 | Splitting separator-free parts joined by the separator gives exactly those parts (the round trip in the other direction). |
| Readings.ExtractRTUId | src/websocket.js:71-81 | The derived id is never empty, never the placeholder "ID", has no comma and no surrounding white space. |
| Readings.ExtractRTUIdOfFields | src/websocket.js:73-79 | On a tag built from comma-free fields, the id is the trimmed second field, or "RTU0001" when that field trims to "" or to "ID". |
| Readings.ExtractRTUIdDefault | src/websocket.js:72-80 | For every reading whose `Customer` tag is missing, empty, or has no comma (no second field), the id is "RTU0001". |
| Readings.CustomerName | src/websocket.js:248 | The customer name is never empty and has no comma. It is the tag's first comma-separated field whenever that field is non-empty, and "Unknown" otherwise. |
| Readings.ZeroTagFields | src/websocket.js:95 | The zero reading's tag splits into exactly the four fields name, id, "0", "0". |
| Readings.ZeroRoundTrip | src/websocket.js:93-98 | For a valid id, extracting the id of the zero reading built for it gives that id back. Its customer name is the name it was built with, or "Unknown" for an empty name. |
| Readings.CreateZeroData | src/websocket.js:93-98 | The zero reading has exactly the five load categories, every numeric field of each is zero, and the alarm is OverCurrent/false. |
| Readings.AllLoadsComplete | src/websocket.js:194 | The load list the save paths visit names every load category. |
| Timing.IsOffline | src/websocket.js:239-241 | An RTU never seen is offline. One last seen at a non-zero time t is online up to t + 60000 ms and offline after it. |
| Timing.OfflineBoundary | src/websocket.js:239-241 | An RTU never seen is offline; one seen at t is still online at t + 60000 ms and offline from t + 60001 ms on. |
| Timing.OfflineMonotone | src/websocket.js:23 | Once offline, an RTU stays offline as time passes without a new reading. |
| Timing.InSubmitWindow | src/websocket.js:171-176 | The submit window holds exactly at 23:59 with seconds 50 to 59 (every millisecond included). |
| Timing.TwoDigits | src/websocket.js:186 | The two-digit rendering is two decimal digits `'0'`..`'9'` that read back as the number it renders. |
| Timing.TimeSlot | src/websocket.js:186 | The slot is `HH:mm`: five characters, a colon in the middle and decimal digits `'0'`..`'9'` elsewhere, the first two reading back as the hour and the last two as the minute. |
| Timing.SlotKeyInjective | src/websocket.js:185-187 | Two clocks have the same slot key (`Timing.SlotKey`, the marker value `${date} ${timeSlot}`) exactly when they agree on date, hour and minute. |
| Buffer.Retain | src/websocket.js:134-137 | After a push the newest entry is last; below capacity nothing is dropped; at capacity exactly the oldest entry is dropped. |
| Buffer.RetainBounded | src/websocket.js:135-136 | A buffer within capacity stays non-empty and within 1000 entries after a push, and a full buffer stays full. |
| Buffer.RetainFrom | src/websocket.js:134-136 | Every retained entry but the newest is an entry of the old buffer, in the same order. |
| Buffer.RetainAllKeepsNewest | src/websocket.js:134-137 | Pushing any sequence of readings keeps exactly the newest 1000 of all readings seen. |
| Buffer.RetainManyKeepsLastThousand | src/websocket.js:135-136 | After more than 1000 pushes into an empty buffer it holds the last 1000 readings. |
| Store.Merge | src/websocket.js:199-210 | A merge-set of ActivePower adds or replaces only its own slot and `updatedAt`, leaving other slots and the energy fields as they were; an energy merge-set replaces only `energy` and `timestamp`. |
| Store.ApplyWrite | src/websocket.js:198-210 | A write merges into its own RTU's record in its own document, and every other record stays as it was. |
| Store.ApplyBatchUntouched | src/websocket.js:193-214 | A batch none of whose writes targets a record leaves that record as it was. |
| Store.ApplyBatchKeepsDailyEnergy | src/websocket.js:277 | Once an RTU's daily energy is in `Main/<date>` (`Store.HasDailyEnergy`, the guard `mainSnap.data()?.[rtuId]?.energy`), no batch removes it. |
| Store.ApplyBatchRecordsDailyEnergy | src/websocket.js:287-300 | A batch containing an energy write to `Main/<date>` for an RTU leaves that RTU's daily energy recorded. |
| Store.PowerBatchKeepsGuard | src/websocket.js:199-210 | A batch of ActivePower writes never changes whether an RTU's daily energy is recorded. |
| Store.ApplyBatch | src/websocket.js:214 | A commit never removes a document, and every document a write of the batch targets exists afterwards. |
| Store.DocStore.Commit | src/websocket.js:214 | Committing a batch applies its writes in order to the documents and appends the batch to the log. |
| Broadcast.Deliveries | src/websocket.js:330-334 | One broadcast makes at most one send per client. |
| Broadcast.DeliveriesExact | src/websocket.js:328-336 | Every delivery carries the message unmodified, every OPEN client receives it, and only OPEN clients receive anything. |
| Broadcast.DeliveriesOncePerClient | src/websocket.js:330-333 | With distinct client ids, each client receives the message once if OPEN and never otherwise. |
| Broadcast.Hub.Broadcast | src/websocket.js:328-336 | The loop over the clients appends exactly the deliveries to OPEN clients, in client order. |
| Aggregator.WriteFor | src/websocket.js:196-211 | A load's write goes to that load's collection and the clock's date, under the RTU's id, and is an ActivePower write exactly for the ten-minute pipeline. A power write carries the load's `ActivePower ?? 0` under the clock's `HH:mm` slot; an energy write carries `EnergyMonthly ?? 0` and `EnergyYearly ?? 0`. |
| Aggregator.BatchOverStep | src/websocket.js:196-212 | The batch over the loads from position i is the write for load i, if the reading has that load, followed by the batch over the rest. |
| Aggregator.BatchOverSpec | src/websocket.js:196-212 | For the `forEach` over a list of loads (`Aggregator.BatchOver`), every visited load the reading has gets its write in the batch, and every write in the batch is for a load the reading has, under this RTU and date, of the pipeline's kind, carrying the load's `ActivePower ?? 0` under the `HH:mm` slot or its `EnergyMonthly ?? 0` and `EnergyYearly ?? 0`. |
| Aggregator.BatchForSpec | src/websocket.js:194-212 | The same for a save's batch over the five load categories (`Aggregator.BatchFor`): a write for each load present, at most one write per load, with the values and slot above, and nothing else. |
| Aggregator.BatchOverDistinct | src/websocket.js:194-197 | A `forEach` over distinct load names writes only loads it visits, and no load twice. |
| Aggregator.FullBatch | src/websocket.js:194-197 | A reading with all five categories yields a batch of five writes. |
| Aggregator.ZeroBatchOver | src/websocket.js:196-205 | A reading whose loads are all zero yields only zero-valued writes. |
| Aggregator.ZeroFillBatch | src/websocket.js:249 | Saving an offline RTU's zero reading writes zero into all five load categories. |
| Aggregator.DailyBatchSetsGuard | src/websocket.js:274-305 | Committing a daily batch records the RTU's energy in `Main/<date>` exactly when the reading has a Main category; otherwise the durable guard is unchanged. |
| Aggregator.PowerBatchKeepsDailyGuard | src/websocket.js:193-214 | A ten-minute power batch never sets or clears the durable daily guard. |
| Aggregator.PushKeepsConsistent | src/websocket.js:129-137 | Pushing a reading into the buffer of the RTU it names keeps every buffer non-empty, within 1000 entries, and holding only readings of its own RTU. |
| Aggregator.ArrivalKeepsRegistered | src/websocket.js:123-137 | A reading's arrival keeps the registry consistent. The buffer keys and timestamp keys stay equal, and the key order lists each known RTU once, a new RTU last. |
| Aggregator.Select | src/websocket.js:239-252 | An online RTU is saved with its latest buffered reading (`Aggregator.Latest`, the last entry of its buffer); an offline one with a reading that has all five load categories, every numeric field zero. |
| Aggregator.SelectKeepsIdentity | src/websocket.js:239-252 | The reading a tick selects for an RTU, whether its latest or the zero reading, names that RTU and has the latest reading's customer name. |
| Aggregator.TickSelection | src/websocket.js:227-234 | A tick selects one reading per known RTU, or a single one when none is known. |
| Aggregator.SelectAll | src/websocket.js:236-252 | The selection over a list of RTUs has one pair per RTU. |
| Aggregator.SelectAllAt | src/websocket.js:236-252 | The k-th pair of a selection is the k-th RTU with its selected reading. |
| Aggregator.TickSelectionAt | src/websocket.js:227-252 | With RTUs known, a tick's k-th pair is the k-th RTU in key order with its selected reading. |
| Aggregator.TickSelectionAttributable | src/websocket.js:227-252 | A tick visits the known RTUs in key order, or the default RTU with the zero reading when none is known, and every selected reading names the RTU it is saved under. |
| Aggregator.PowerDue | src/websocket.js:183-190 | An attempt is due exactly when recording it would change the RTU's slot marker. |
| Aggregator.MarkSlot | src/websocket.js:191 | At a slot minute (`Timing.IsSlotMinute`, minute divisible by 10) the RTU's marker becomes this slot's key; off the slot minutes the markers are unchanged. |
| Aggregator.TickCommits | src/websocket.js:236-255 | A tick commits at most one batch per RTU it visits. |
| Aggregator.EnergyDue | src/websocket.js:260-261 | A daily save is due only at 23:59:50 or later, and exactly when the clock is in the window and recording this date would change the RTU's date marker. |
| Aggregator.SameSlotOnce | src/websocket.js:183-191 | After one attempt in a slot, a later attempt for the same RTU is due exactly when it falls in a different slot. |
| Aggregator.TickStep | src/websocket.js:236-255 | One step of a tick: the RTU at position i is attempted, setting its marker and committing when due, then the rest follow. |
| Aggregator.SelectionStep | src/websocket.js:236-255 | One turn of the scheduler loop over known RTUs: the RTU at position i is attempted with its selected reading, then the rest follow. |
| Aggregator.MarkAllCovers | src/websocket.js:189-191 | For the markers after a tick (`Aggregator.MarkAll`, one marker update per attempted RTU in order, src/websocket.js:236-255): after a slot tick every RTU it attempted carries this slot's marker, and every other RTU's marker is unchanged. |
| Aggregator.CoveredTickCommitsNothing | src/websocket.js:190 | A tick over RTUs that all carry this slot's marker commits nothing. |
| Aggregator.OffMinuteTickCommitsNothing | src/websocket.js:183 | Off the slot minutes (`Timing.IsSlotMinute` false) a tick commits nothing. |
| Aggregator.SameSlotTickIdempotent | src/websocket.js:221-256 | Bucket idempotence: a later tick whose clock has the same date, hour and minute as the first (any second and `Date.now()`, as the 10000 ms timer gives), over RTUs the first tick attempted, commits nothing, whatever the first tick's commits did. |
| Aggregator.FirstTickCommitsEach | src/websocket.js:236-255 | The first tick of a slot over distinct, not yet attempted RTUs commits exactly one batch per RTU whose commit succeeds, in key order. |
| Aggregator.SingleTick | src/websocket.js:178-219 | An attempt for one RTU commits its batch exactly when the attempt is due and the commit succeeds. |
| Aggregator.EmptyRegistryTick | src/websocket.js:229-233 | With no RTU known, a slot tick commits at most one batch: the default RTU's zero reading under "RTU0001". |
| Session.BuildBatch | src/websocket.js:193-212 | The `loads.forEach` loop builds exactly the specified batch. |
| Session.Telemetry.constructor | src/websocket.js:19-22 | The four maps start empty and the state is consistent. |
| Session.Telemetry.OnMessage | src/websocket.js:111-143 | Every frame is broadcast first. An unparsable frame changes nothing else. A parsed reading stamps its RTU's arrival time, registers a new RTU at the end of the key order, and is pushed into that RTU's bounded buffer. The daily batch of the arriving reading itself (never the zero fill) is committed, and the date marker set, exactly when the daily save is due, the read succeeds, the energy is not yet in `Main/<date>` and the commit succeeds. |
| Session.Telemetry.Arrive | src/websocket.js:123-137 | The handler's bookkeeping: the new timestamp, buffer and key order, with the registry kept consistent. |
| Session.Telemetry.SaveLastReading | src/websocket.js:259-311 | Inside the window, for an RTU whose date marker is not on this date, the daily batch of the reading is committed only if the read succeeds and the energy is not yet in `Main/<date>`; the zero reading is used when the RTU is offline. The date marker is set only after a successful commit. |
| Session.Telemetry.SaveActivePower | src/websocket.js:178-219 | At a slot minute, the slot marker is set whenever it was not on this slot, and the ten-minute batch is committed only when the slot was not yet attempted and the commit succeeds. |
| Session.Telemetry.SaveSelected | src/websocket.js:236-254 | One RTU's turn in a tick saves the reading the specification selects for it. |
| Session.Telemetry.Tick | src/websocket.js:221-257 | Off the slot minutes nothing changes. Otherwise the markers and the committed batches are those of the specified tick over the known RTUs in key order, or over the default RTU's zero reading when none is known. |
| Session.Telemetry.SaveDefault | src/websocket.js:229-233 | With no RTU known, the default RTU is saved with the zero reading, as the specified tick over the default selection. |
| Session.Telemetry.SaveAll | src/websocket.js:236-255 | The loop over the known RTUs produces the specified markers and commits. |

## Left out

- Firestore itself is not modelled: network, quotas and retries, and the `Date` values stored as `updatedAt` and `timestamp`. Those values are taken from the clock. Read and commit outcomes are boolean inputs.
- `dayjs` and the `Asia/Phnom_Penh` time zone are not modelled. The clock is an input giving the local date, time and `Date.now()`.
- The source reads the clock afresh in each function. The model uses one clock for a whole handler call or tick, so a tick that straddles a minute or date boundary is not modelled.
- `setInterval` and async interleavings are not modelled. Each handler call and each tick runs to completion, so a reading arriving during a tick's `await` is not modelled.
- The WebSocket server is not modelled: the upgrade path check, connection accept, error and close handlers, and the `espClient` variable. `broadcast`'s `if (!wss) return` is also left out, because the hub always exists in the model.
- `sendToESP32` and `getLastESP32Message` are left out. The first is never called with a connected client; the second only returns the buffer map.
- `JSON.parse` is left out. A frame that parses to `null` or to a primitive is not modelled: the parse outcome is either "no reading" or a reading.
- A non-string `Customer` value, which would make `split` throw, is not modelled.
- Numeric JSON values are taken as reals. A field that is absent or `null` is `None`, and `??` writes 0 for it. Non-numeric field values are not modelled.
- RTU ids that name `Object.prototype` members are not modelled. Nor is the way `Object.keys` puts integer-like keys first: the key order is first-arrival order.
- The `time` field stored with each buffered entry is not modelled; the entry keeps the arrival time in milliseconds.
- Console logging is left out.
- The HTTP controller and routes, and `src/index.js`, are not part of this model.
- Text.Trim: the ensures do not spell out which characters are dropped. `Text.TrimPadded` and `Text.TrimTrimmed` pin the result down for the inputs the model uses.
