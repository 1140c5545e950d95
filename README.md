# Dino park operations core, in Dafny

A model of the event core of a dinosaur-park operations simulator. An HTTP gateway
receives domain events and publishes each known kind to a fixed broker channel. Five
handlers apply the events to a record store that holds a `dinos` table and a `grid`
table. A periodic reconciliation tick derives hunger, overdue maintenance and the safety
status of every grid cell from the stored rows.

The record store is a class (`RecordStore.Store`) with one map per table, keyed by
primary key. Each handler and each part of the tick is an imperative method on that
store. Each method is proved against a pure transition function over the store as a
value (`Schema.Db`). The properties the source promises are proved about those functions:
frames, idempotence, monotonicity, first-visit scheduling and convergence.

Modules follow the source files:

- `Schema`: the row shapes of `dinos` and `grid` (db.js).
- `Clock`: `addHours` and `add30Days`.
- `RecordStore`: the store class and the grid seeding (db.js).
- `CronJob`: `updateStatus` (cron-job.js).
- `Gateway`: the `/event` handler (gateway.js).
- `DinoAdded`, `DinoFed`, `DinoMoved`, `DinoRemoved`, `Maintenance`: the five handlers (services/).

Decisions:

- **Time.** Timestamps are integers in milliseconds. `addHours(t, h)` is `t + h*3600000` and `add30Days(t)` is `t + 30*86400000`.
- **The grid pass reads a snapshot.** In the source, the tick's dino query, grid query and per-cell dino queries run without waiting for the hunger updates. The model therefore lets the grid pass read the dinos table as it was when the tick began. A dino made hungry by a tick affects cell statuses from the next tick on. `CronJob.SecondTick` and `CronJob.TickConverges` state the consequence: a second error-free tick at the same time writes a status exactly where the first tick's hunger writes changed a cell's classification, and a third tick writes nothing.
- **Scan order.** The tick visits rows in an unspecified order (`Pick`), not SQLite's rowid order. This changes nothing: every write touches only its own row, and `CronJob.ScanCell` proves that a cell's status depends only on the set of dinos in it.
- **Store errors.** A store error is a parameter wherever it changes the control flow. Move has two: the dino update and the grid update. Maintenance has two: the presence lookup and the grid update. Seeding has one: the row count. The tick has three kinds, gathered in `CronJob.TickFaults`: a failed dinos query skips every hunger write; a failed grid query skips every repair and status write; a failed per-cell dino query skips that cell's status write, while its repair write stands. A failed statement writes nothing.
- **Publish failures.** The broker's publish is abstract. `failAt` is the index of the first publish call that fails. The loop stops at the first failure, so only that index matters.
- **Nullable `repair_required`.** Seeding leaves `repair_required` NULL, so it is an `Option<bool>`. The tick's `!cell.repair_required` treats NULL like 0.
- **`herbivore` truthiness.** The add event's `herbivore` is a JSON value, stored as JavaScript truthiness (`DinoAdded.Truthy`).

### Behaviour of the code worth noting

- The gateway publishes a batch in input order; it does not reorder events by time.
- The single `try` around the publish loop ends it at the first failed publish, and the response is 500. The 202 response is sent only after the loop completes.
- A `null` element of the batch makes `event.kind` throw inside the `try`. So does an element whose `kind` is an object with no primitive conversion, such as `{"kind": {"toString": 0}}`, because the lookup must turn it into a property key (`Gateway.Item.BadKind`). Either ends the loop with 500.
- A dino becomes hungry when `lastFed + digestion period` is strictly before now; at exactly now it is not yet hungry.
- The move handler's dino update matching no row is not an error. The grid cell is still visited and scheduled for a dino id that does not exist.

## Model

| member | source | states |
|---|---|---|
| `Clock.AddHours` | cron-job.js:4-8 | adding a positive, zero or negative number of hours gives a later, equal or earlier instant |
| `Clock.Add30Days` | services/dino-moved.js:4-8 | the due date is strictly after the event time |
| `Clock.Add30DaysIs720Hours` | services/maintenance.js:4-8 | thirty days is exactly 720 hours (2592000000 ms) after `t`; both helpers agree |
| `Clock.AddHoursMonotone` | cron-job.js:21-25 | a later feeding or a longer digestion period never gives an earlier digestion end |
| `Schema.OccupantSet` | cron-job.js:47 | the set of rows the per-cell query returns is empty exactly when no dino has that location |
| `RecordStore.Decimal` | db.js:71 | the template-string decimal text of a row number is non-empty, all digits, one character exactly below 10, with no leading zero from 10 on |
| `RecordStore.DecimalRoundTrip` | db.js:71 | reading the digits of `Decimal(n)` back in base ten gives `n`, so the text is `n`'s decimal spelling |
| `RecordStore.DecimalInjective` | db.js:71 | different row numbers give different texts |
| `RecordStore.ColumnsDistinct` | db.js:64 | the 26 column letters are pairwise distinct |
| `RecordStore.CellKeyInjective` | db.js:69-73 | the generated keys `${col}${r}` are pairwise distinct, as the `location` primary key needs |
| `RecordStore.CornerKeys` | db.js:64-71 | the keys of cells (A, 1), (J, 10) and (Z, 16) are spelled `A1`, `J10` and `Z16` |
| `RecordStore.Store.Open` | db.js:37-58 | opening a store whose tables already exist keeps their contents |
| `RecordStore.Store.SeedGrid` | db.js:60-77 | when the count succeeds and the grid is empty, the grid gets exactly the 26 × 16 = 416 keys `A1`..`Z16`, each a row with status `NA` and every other field NULL; otherwise nothing changes; dinos never change |
| `RecordStore.Store.SeedColumn` | db.js:70-73 | the inner loop inserts column `c`'s 16 cells, keeping the grid exactly the cells seeded so far |
| `RecordStore.Store.SeedCell` | db.js:71 | one insert adds a key not yet present, so the cell count grows by one |
| `CronJob.HungerStep` | cron-job.js:20-28 | a dino with NULL `lastFed` is untouched; hunger becomes true exactly when `lastFed + digestion` is strictly before now and it was not hungry; only `is_hungry` changes, and never from true to false |
| `CronJob.HungerPass` | cron-job.js:16-31 | the dinos table keeps its rows; each row changes only in `is_hungry`, which rises exactly for the dinos due |
| `CronJob.Classify` | cron-job.js:50-69 | a set of occupants gives `NA` exactly when empty, `Unsafe` exactly when it holds a hungry non-herbivore, `Safe` exactly when non-empty with none |
| `CronJob.CellStatusCases` | cron-job.js:50-69 | status is `NA` exactly when no dino is at the cell, `Unsafe` exactly when a hungry non-herbivore is there, `Safe` otherwise |
| `CronJob.DinosAt` | cron-job.js:47 | the per-cell query returns exactly the dinos whose location is the cell |
| `CronJob.ScanCell` | cron-job.js:50-70 | the early-exit scan yields the classification of the set of dinos it is given, so order and repetition do not matter |
| `CronJob.CellStep` | cron-job.js:38-76 | a cell gets `repair_required = 1` exactly when maintenance is overdue and the flag is not already set; its status becomes the computed one; nothing else changes |
| `CronJob.GridPass` | cron-job.js:34-79 | every cell keeps its key; its status is the computed status, or the stored one when its dino query fails; its repair flag becomes set when due and otherwise stays exactly as it was (NULL included); no other field changes |
| `CronJob.WritesOf` | cron-job.js:16-76 | a tick writes hunger for exactly the dinos due unless the dinos query fails, repair for exactly the overdue unflagged cells unless the grid query fails, and a status for exactly the cells whose computed status differs from the stored one, unless the grid query or that cell's dino query fails |
| `CronJob.Ticked` | cron-job.js:11-80 | the tick keeps every row key; a failed dinos query leaves the dinos table unchanged, a failed grid query the grid table; a cell whose dino query fails keeps its status but gets its repair write |
| `CronJob.Tick` | cron-job.js:11-80 | one tick, meeting the given query errors, leaves the store as `Ticked` defines and returns exactly the writes `WritesOf` lists |
| `CronJob.HungerUpdate` | cron-job.js:16-31 | the dino loop gives the hunger pass's table and reports exactly the dinos it made hungry; a failed dinos query writes nothing; the grid is untouched |
| `CronJob.GridUpdate` | cron-job.js:34-79 | the cell loop gives the grid pass's table and reports exactly the repair and status writes; a failed grid query writes nothing; dinos are untouched |
| `CronJob.ReconcileCell` | cron-job.js:37-77 | one cell: the repair write when overdue, then the status write only on change and only when the cell's dino query succeeds |
| `CronJob.TickIsItsWrites` | cron-job.js:27-75 | whatever errors it meets, the store after a tick is exactly the store before it with the reported single-row updates applied |
| `CronJob.TickIsMonotone` | cron-job.js:25-43 | a tick never clears `is_hungry` and never clears `repair_required`, whatever errors it meets |
| `CronJob.TickRestoresNAInvariant` | cron-job.js:47-76 | after a tick whose grid query succeeds, every cell whose dino query succeeded has status `NA` exactly when no dino is located there |
| `CronJob.SafetyPassSettles` | cron-job.js:73-76 | running the safety pass again on the same dinos issues no status write |
| `CronJob.SecondTick` | cron-job.js:11-80 | a second error-free tick at the same time makes no dino hungry and marks no cell; it writes a status exactly where the first tick's hunger changed a cell's classification, so nothing if the first tick made no dino hungry |
| `CronJob.TickConverges` | cron-job.js:11-80 | after two error-free ticks, a third at the same time issues no write at all |
| `Gateway.ChannelOf` | gateway.js:12-18 | a kind has a channel exactly when it is one of the five known kinds, and that channel is the fixed one |
| `Gateway.ChannelsDistinct` | gateway.js:12-18 | distinct known kinds go to distinct channels |
| `Gateway.Events` | gateway.js:9 | an array body is the event list itself; any other body is a one-element list |
| `Gateway.RouteOf` | gateway.js:21-29 | everything routed is a non-throwing event sent to its own kind's channel; at most one publication per event; routing throws exactly when the list holds a `null` or an element whose kind has no primitive conversion |
| `Gateway.RouteOfAppend` | gateway.js:21-29 | the publications of `a + b` are those of `a` followed by those of `b`, unless `a` already throws: input order is kept and nothing is reordered |
| `Gateway.RouteOfOne` | gateway.js:22-28 | one event is published once to its channel if its kind is known, skipped otherwise; a `null` or a bad kind throws |
| `Gateway.UnknownKindIsSkipped` | gateway.js:22-28 | inserting an unknown-kind event anywhere leaves the publications unchanged |
| `Gateway.RouteStep` | gateway.js:21-29 | what the loop has published after any prefix is a prefix of what the whole list publishes |
| `Gateway.Respond` | gateway.js:20-34 | the status is 202 or 500; 202 exactly when no element throws and no publish fails, and then every known-kind event is published; when no publish fails, every publication before the first throwing element is made; if the k-th publish fails, exactly the k earlier ones are published and the status is 500 |
| `Gateway.BadKindIsRejected` | gateway.js:20-33 | a batch holding an element whose `kind` has no primitive conversion, anywhere, is answered 500 |
| `Gateway.SingleIsBatchOfOne` | gateway.js:9 | a single object is handled exactly as a one-element array |
| `Gateway.EmptyBatchIsAccepted` | gateway.js:21-31 | an empty array publishes nothing and gets 202 |
| `Gateway.HandleEvent` | gateway.js:8-35 | the sequential publish loop, stopping at the first exception, produces exactly the publications and status of `Respond` |
| `Gateway.LookupAsWritten` | gateway.js:22 | the bracket lookup finds an own channel exactly for the five listed kinds, an inherited member exactly for the `Object.prototype` names, `undefined` otherwise |
| `Gateway.InheritedKindReachesPublish` | gateway.js:22-23 | as written, the kind `constructor` passes the `if (channel)` guard although it is not a known kind |
| `Gateway.ChannelOfAgreesOffPrototype` | gateway.js:22-23 | the own-property lookup agrees with the source on every kind not inherited from `Object.prototype` |
| `DinoAdded.Truthy` | services/dino-added.js:12 | a value is falsy exactly when it is missing, `null`, `false`, `0` or `""` |
| `DinoAdded.Added` | services/dino-added.js:6-18 | a new id gets a row with the event's fields copied, `herbivore` as truthiness, `location` and `lastFed` NULL and hungry; an existing id leaves the store unchanged; other rows and the grid never change |
| `DinoAdded.AddTwiceIsAddOnce` | services/dino-added.js:14-15 | delivering an add event twice gives the same store as once |
| `DinoAdded.OnDinoAdd` | services/dino-added.js:5-20 | the handler performs `Added` and reports a duplicate id exactly when the id was present |
| `DinoFed.Fed` | services/dino-fed.js:5-6 | the fed dino has `lastFed = time` and is not hungry, with no other field changed; an absent id changes nothing; other rows and the grid are unchanged |
| `DinoFed.FeedIdempotent` | services/dino-fed.js:5-6 | feeding twice with the same event gives the same store as once |
| `DinoFed.OnDinoFeed` | services/dino-fed.js:4-11 | the handler performs `Fed` |
| `DinoRemoved.Removed` | services/dino-removed.js:5 | no dino with the id remains; every other row and the grid are unchanged; removing an absent id changes nothing |
| `DinoRemoved.RemoveIdempotent` | services/dino-removed.js:5 | removing twice is removing once |
| `DinoRemoved.OnDinoRemove` | services/dino-removed.js:4-9 | the handler performs `Removed` |
| `DinoMoved.Move` | services/dino-moved.js:12-27 | the dino named by `dinosaur_id` gets the location, no other field or row changes; the destination cell gets `lastVisited = time` and `maintenanceDue = time + 30 days` only if it was NULL, with `repair_required`, `lastMaintenance` and status kept; no other cell changes; a failed dino update changes nothing |
| `DinoMoved.SecondMoveKeepsDue` | services/dino-moved.js:18-20 | after a move the cell has a due date, and a second move to the same cell never changes it |
| `DinoMoved.MoveOffGrid` | services/dino-moved.js:19-21 | a move to a location that is not a grid key leaves the grid unchanged |
| `DinoMoved.OnDinoMove` | services/dino-moved.js:10-28 | the handler performs `Move` and reports which statement, if any, failed |
| `Maintenance.Maintain` | services/maintenance.js:11-23 | the serviced cell gets `repair_required = 0` and `lastMaintenance = time`, and `maintenanceDue` is `time + 30 days` if a dino is located there and NULL otherwise; `lastVisited`, status, other cells and all dinos are unchanged; a failed lookup changes nothing |
| `Maintenance.MoveThenMaintain` | services/maintenance.js:11-15 | moving a known dino to a cell and then servicing the cell schedules maintenance 30 days after the service; with no dino there, nothing is scheduled |
| `Maintenance.OnMaintenance` | services/maintenance.js:10-25 | the handler performs `Maintain` and reports which statement, if any, failed |

## Findings

| source | as written | input that shows it | evidently intended | confidence | as-written member | corrected member |
|---|---|---|---|---|---|---|
| gateway.js:22-23 | `eventMap[event.kind]` also finds the members `eventMap` inherits from `Object.prototype`; they are truthy, so `broker.publish` is called with a function or object as the channel | an event `{"kind": "constructor"}` (likewise `toString`, `__proto__`, …) | only the five listed kinds are published; every other kind is skipped with a warning | not executed; the guard is certain, what `publish` does with such a channel is not modelled | `Gateway.InheritedKindReachesPublish` | `Gateway.ChannelOf` |

The rest of the model routes with the own-property lookup `Gateway.ChannelOf`.

## Left out

- HTTP transport, the Express dashboard, the listener, shutdown and logging. These are I/O. Only the 202/500 outcome of the event loop is modelled.
- Redis and JSON (de)serialisation. Publish is an operation that either succeeds or fails. Delivery to the handlers, its ordering and its at-least-once semantics are not modelled.
- The timer (`setInterval` every 5 seconds, plus one run at startup). One tick is one method call, with `now` as a parameter.
- Concurrency between handlers and the tick, and callback interleaving. Each handler and each tick is a sequential transition. Inside the tick, the grid pass reads a snapshot taken at the start.
- `CronJob.Tick`: does not model rowid retrieval order. Rows are visited in an unspecified order, which is proved not to affect the result.
- Real dates: parsing, local-time `setHours`/`setDate`, daylight saving time, `toISOString`, and unparseable (`NaN`) timestamps. Time is an integer.
- The connection, directory creation and WAL setup in db.js lines 1-35. This is driver plumbing.
- Column typing by SQLite. Ids are integers supplied by the event, so a NULL id getting an automatic rowid is not modelled. Text fields are strings. Event fields are already typed, except `herbivore`.
- Store errors in the add, feed and remove handlers, in individual seeding inserts, and in the tick's single-row updates (issued without a callback). A failing statement writes nothing; the tick's query errors are modelled, these statement errors are not.
- What `broker.publish` does with an inherited non-string channel (see Findings). The main model publishes only the five own-property kinds.
