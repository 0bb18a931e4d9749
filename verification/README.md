# Indoor air-quality backend: a verified model of its store logic

The service ingests readings from air-quality sensors and purifiers, keeps a
registry of devices with a heartbeat, stores alert thresholds globally or per
device, and queues control commands that devices poll for. It runs on a
MongoDB store with four collections: `device`, `sensorreading`, `thresholds`
and `devicecommand`.

This project models that logic in Dafny. The store becomes one class,
`Service.Store`. Its fields are the four collections, kept as sequences in the
store's natural order, plus a clock and the store's id counter. Each endpoint
is a method on that class. Each collection's store semantics are pure
functions in their own module:

- `Documents`: a stored document is an `_id` plus a body. This module holds
  `delete_one` by `_id`.
- `Schemas`: the four record shapes with their defaults and range constraints.
- `Aqi`: `compute_aqi`.
- `DeviceRegistry`: `find` and `update_one` on `device`, and the heartbeat step
  of ingestion.
- `ReadingQuery`: the filter, the descending sort on `timestamp` and the
  `limit`.
- `ThresholdScopes`: the two scope filters, `update_one(..., upsert=True)`,
  `find_one`, and the resolution of a read.
- `CommandQueue`: the per-device queues, the `find_one` sorted on `created_at`,
  and the pop.

Each collection has an invariant:

- `RegistryValid`: one record per `device_id`, and every `last_seen` is in the
  past.
- `ReadingsValid`: every stored reading is valid and has its timestamp and
  index.
- `ScopesValid`: every thresholds document has a `device_id` field, and there is
  at most one record per device scope.
- `QueueValid`: commands are stored in `created_at` order, with distinct stamps
  that are all in the past.

All four also require fresh, increasing `_id`s. `Store.Valid()` combines them,
and every endpoint keeps it.

How the model treats the store and its inputs:

- A field the store can hold as "missing" or as "null" is modelled with the
  difference kept. `ThresholdScopes.Field` is `Absent | Null | Value`, because
  `{"device_id": {"$exists": False}}` matches only a document with no
  `device_id` field.
- Time is an integer clock that goes up by one on every reading of it.
- Readings and thresholds are `real`s.
- `int()` on the non-negative index is `Floor`.
- The control mode is the two-valued type `Mode`, so "only `auto` or `manual`"
  holds by construction.

## Where the code and its documented behaviour differ

The model follows the code in each case:

- **Global thresholds are never read back.** `set_thresholds` writes
  `th.model_dump()`, which stores `device_id` as null when it is None. The
  global filter `{"device_id": {"$exists": False}}` matches only documents
  without the field. So every global write (a None or empty `device_id`)
  inserts a fresh document, and every global read returns the schema defaults.
  `ThresholdScopes.GlobalWriteNotReadBack` and `Store.GetThresholds` state this.
  The model claims no global round trip.
- **A new device is created with `last_seen` empty.** The record is
  `Device(device_id=...)`, whose default is None. It is not set to the current
  time.
- **The device step comes before the reading insert.** So a new device's record
  gets an earlier `_id` than the reading that created it.
- **Commands need only a `device_id` string.** Its value is not checked (it may
  be empty), and neither is whether the device exists.
- **A poll is a find followed by a separate delete.** It is not one atomic
  operation. The model is sequential (see "Left out").

## Model

| member | source | states |
|---|---|---|
| `Schemas.ValidDevice` | schemas.py:11-18 | The `Device` constraint: `fan_speed` lies in 0..5 (`mode` is a two-valued type); part of `RegistryValid`, and `DefaultDevice` and `HeartbeatKeepsValid` prove it holds |
| `Schemas.DefaultDevice` | schemas.py:11-18 | A default device is valid, carries the given id, has power on, mode auto, fan speed 1, and no name, location or last_seen |
| `Schemas.ValidReading` | schemas.py:20-29 | The `SensorReading` constraints: pm2.5, pm10, CO2 and TVOC not negative, humidity in 0..100, index in 0..500; `Service.Store.IngestReading` requires it of its payload and `Service.Normalize` proves it carries over to the stored reading |
| `Schemas.ValidThresholds` | schemas.py:31-37 | The `Thresholds` constraints: all five limits not negative; `DefaultThresholds` satisfies it, `Service.Store.SetThresholds` requires it, and `UpsertKeepsInvariant` keeps it for every stored record |
| `Schemas.DefaultThresholds` | schemas.py:31-37 | Default thresholds are valid (all limits ≥ 0), carry the given `device_id`, and are 12.0, 35.4, 54.0, 1200.0 and 500.0 |
| `Schemas.ValidCommand` | schemas.py:39-43 | The `DeviceCommand` constraint: a given `fan_speed` lies in 0..5; `OnlyDeviceIdRequired` shows the `device_id`-only command meets it, and `QueueValid` keeps it for every queued command |
| `Schemas.OnlyDeviceIdRequired` | schemas.py:39-43 | A command with only a `device_id` is valid: power, mode and fan speed are optional |
| `Aqi.Clamp` | main.py:63-64 | `min(max(x, 0), 500)` lies in [0, 500] and is the identity inside that range |
| `Aqi.ComputeAqi` | main.py:59-65 | The index is absent exactly when both inputs are absent, and otherwise lies in [0, 500] |
| `Aqi.MaxOfClampsIsClampOfMax` | main.py:63-65 | Taking the larger of the two clamped values equals clamping the larger value |
| `Aqi.AqiIsClampedMax` | main.py:59-65 | With at least one input given, the index is `clamp(max(5·pm2.5, 2·pm10), 0, 500)`, truncated, where a missing input counts as 0 (`pm25 or 0`, `pm10 or 0`) |
| `Aqi.FloorMonotone` | main.py:65 | Truncation of non-decreasing values does not decrease |
| `Aqi.AqiMonotone` | main.py:59-65 | Raising either particulate reading never lowers the index |
| `Aqi.AqiExamples` | main.py:59-65 | (10, 5) gives 50, and (200, 0) gives 500 (clamped from 1000) |
| `Documents.DeleteById` | main.py:140 | `delete_one` by `_id` removes one document when the id is present and nothing otherwise |
| `Documents.DeleteByIdAt` | main.py:140 | With unique ids, deleting by the id of the document at position i removes exactly that document |
| `Documents.RemoveKeepsIds` | main.py:140 | Removing a document keeps ids unique and increasing, and its id is no longer in the collection |
| `DeviceRegistry.FindDevice` | main.py:78-81 | The lookup is empty exactly when no record has the id; otherwise it is the first record with that id (the one `update_one` changes) |
| `DeviceRegistry.Touch` | main.py:81 | `update_one` with `$set: {"last_seen": now}`: the record keeps its `_id` and `device_id` and gets `last_seen` now; every other record is unchanged |
| `DeviceRegistry.Heartbeat` | main.py:78-83 | The device step of ingestion: `Touch` the first record with the id, or append `Device(device_id=...)` under a fresh id; its properties are `HeartbeatKnownDevice`, `HeartbeatNewDevice`, `HeartbeatKeepsIdsUnique` and `HeartbeatKeepsValid` |
| `DeviceRegistry.HeartbeatKnownDevice` | main.py:80-81 | For a known device, only the `last_seen` of that device's record changes, and it becomes now; every other record and field is unchanged |
| `DeviceRegistry.HeartbeatNewDevice` | main.py:82-83 | For an unseen device, exactly one record is appended: the schema defaults for that id, with `last_seen` empty |
| `DeviceRegistry.HeartbeatKeepsIdsUnique` | main.py:78-83 | The heartbeat keeps at most one record per `device_id`, and afterwards the device has a record |
| `DeviceRegistry.HeartbeatKeepsValid` | main.py:78-83 | The heartbeat keeps the registry invariant and never moves a device's `last_seen` backwards |
| `ReadingQuery.AppendKeepsValid` | main.py:85 | Appending a filled-in reading with a fresh id keeps the readings invariant |
| `ReadingQuery.Selects` | main.py:96-98 | The query filter: every reading when `device_id` is None or empty, otherwise those whose `device_id` equals it; `Select` and `LatestSpec` state what it lets through |
| `ReadingQuery.Select` | main.py:96-99 | The filter returns exactly the stored readings of the named device, or all readings when no device is named or the name is empty |
| `ReadingQuery.Insert` | main.py:99 | Inserting into a newest-first sequence keeps it newest first and adds exactly that reading |
| `ReadingQuery.SortNewestFirst` | main.py:99 | The descending sort on `timestamp` is a newest-first permutation of its input |
| `ReadingQuery.Cap` | main.py:99 | `limit(n)` lets through `min(n, available)` for positive n, and everything for 0 |
| `ReadingQuery.Latest` | main.py:99 | `find(query).sort("timestamp", -1).limit(limit)`: the capped prefix of the newest-first sort of the selection; `LatestSpec` states its properties |
| `ReadingQuery.LatestSpec` | main.py:94-99 | The query returns at most `limit` readings (all when it is 0), drawn from the store, of the named device only, newest first, and no selected reading it leaves out is newer than one it returns |
| `ThresholdScopes.ScopeOf` | main.py:113-119 | The scope filter: per-device exactly when `device_id` is truthy (neither None nor empty), otherwise the `$exists: False` filter; `ResolveNeverFallsBack`, `DeviceRoundTrip` and `GlobalWriteNotReadBack` are stated through it |
| `ThresholdScopes.Dump` | main.py:114 | `th.model_dump()`: every field of the record, a None `device_id` written as null; `LoadDump` reads it back |
| `ThresholdScopes.Load` | main.py:120-124 | A stored document read as a thresholds record, null or missing `device_id` as None; `LoadDump` is its round trip with `Dump` |
| `ThresholdScopes.LoadDump` | main.py:114 | Reading back a written record gives that record |
| `ThresholdScopes.FindFirst` | main.py:120 | `find_one` returns nothing exactly when no document matches the scope; otherwise it returns the first match |
| `ThresholdScopes.Lookup` | main.py:120 | `find_one(scope)`: nothing exactly when no document matches the scope, otherwise a stored document that matches it |
| `ThresholdScopes.Upsert` | main.py:114 | `update_one(scope, {"$set": ...}, upsert=True)`: overwrite the first match whole, or insert under a fresh id; `DeviceRoundTrip`, `OtherScopesUnchanged`, `GlobalWriteNotReadBack` and `UpsertKeepsInvariant` state its effect |
| `ThresholdScopes.SetScoped` | main.py:111-114 | `set_thresholds`: the upsert at the scope the record's own `device_id` selects; `Service.Store.SetThresholds` is specified by it |
| `ThresholdScopes.Resolve` | main.py:117-124 | `get_thresholds`: the record at the requested scope, or the defaults tagged with the request; `ResolveNeverFallsBack`, `DeviceRoundTrip` and `OtherScopesUnchanged` state its answers |
| `ThresholdScopes.ResolveNeverFallsBack` | main.py:117-122 | With no record at the scope, a read returns the defaults tagged with the requested `device_id`; a per-device read always answers for that device, never with the global record |
| `ThresholdScopes.DeviceRoundTrip` | main.py:111-124 | After a write for a non-empty `device_id` X, a read for X returns exactly the five values written, replacing rather than merging with what was there |
| `ThresholdScopes.OtherScopesUnchanged` | main.py:113-114 | A write at one scope leaves what every other scope reads unchanged |
| `ThresholdScopes.GlobalWriteNotReadBack` | main.py:113-122 | A global write matches nothing and appends a fresh document; a global read still returns the defaults |
| `ThresholdScopes.UpsertKeepsInvariant` | main.py:113-114 | A write keeps every document's `device_id` field present, one record per device scope, valid limits and fresh ids |
| `CommandQueue.Pending` | main.py:137 | A device's queue holds only stored commands for that device |
| `CommandQueue.PendingEmpty` | main.py:137-139 | A device's queue is empty exactly when no stored command targets it |
| `CommandQueue.PendingAppend` | main.py:130-132 | Appending a command extends its own device's queue by that command and leaves every other queue unchanged |
| `CommandQueue.Oldest` | main.py:137 | The poll's lookup is empty exactly when no command targets the device; otherwise it is a command for the device with the least `created_at` |
| `CommandQueue.OldestIsHead` | main.py:137-140 | With commands stored in stamp order, the command found is the head of the device's queue; removing it pops that head and leaves every other device's queue unchanged |
| `CommandQueue.RemoveKeepsValid` | main.py:140 | Deleting a command keeps the queue invariant |
| `CommandQueue.PushKeepsChronological` | main.py:131-132 | A command stamped later than everything stored keeps the collection in stamp order |
| `CommandQueue.PushSpec` | main.py:128-133 | A push keeps the invariant, goes to the back of its device's queue, and leaves other queues unchanged |
| `CommandQueue.PollSpec` | main.py:135-142 | A poll that finds a command deletes exactly that one command (the head of the device's queue), keeps the invariant and other queues, and the command's id is gone for good |
| `CommandQueue.RemoveOne` | main.py:140 | Deleting the command at one position removes exactly one copy of it |
| `Service.Normalize` | main.py:71-75 | Ingestion keeps a supplied timestamp or index and fills only the missing one (the clock, `compute_aqi`); every other field is the input's; a valid input gives a valid, fully stamped reading |
| `Service.Store.Now` | main.py:73 | Each reading of the clock returns the current time and advances it |
| `Service.Store.NewId` | main.py:83 | Each insert gets a fresh `_id` |
| `Service.Store.IngestReading` | main.py:69-86 | Appends exactly one filled-in reading; the device step is the heartbeat (`last_seen` of a known device, or a default record for a new one, with a smaller id than the reading's); thresholds and commands are unchanged; no `last_seen` moves backwards; the device is on record afterwards |
| `Service.Store.GetLatestReadings` | main.py:94-100 | At most `limit` readings (all for 0), of the named device, newest first, none newer left out, all drawn from the store |
| `Service.Store.ListDevices` | main.py:104-107 | Every device record in store order, one per `device_id`, all valid |
| `Service.Store.SetThresholds` | main.py:111-115 | The whole record is upserted at its scope; a per-device write reads back exactly; a global write appends a document; other scopes and collections are unchanged |
| `Service.Store.GetThresholds` | main.py:117-124 | The stored record for the scope or the defaults tagged with the request; a per-device read is always tagged with that device; a global read returns the defaults |
| `Service.Store.PushCommand` | main.py:128-133 | Appends one stamped command with a fresh id to the back of its device's queue, without checking the device; no other queue or collection changes |
| `Service.Store.NextCommand` | main.py:135-142 | Returns nothing and changes nothing when the device's queue is empty. Otherwise it removes and returns the command with the least `created_at`, which is the queue's head; it deletes exactly that command and no other, and leaves other devices' queues unchanged |
| `Service.IngestScenario` | main.py:59-86 | Two readings from one new device create one device record, and the stored indexes are 50 for (10, 5) and 500 for (200, 0) |
| `Service.CommandScenario` | main.py:128-142 | Two commands for one device come back in push order, each once, and a third poll finds nothing |

## Left out

- HTTP routing, CORS, the root and diagnostic endpoints, and server start-up
  (main.py:12-55, 144-147) are transport and environment. The unused request
  model `LatestQuery` (main.py:90-92) is left out too.
- database.py is not part of this model. `create_document` is taken to append
  the document with a fresh `_id` and return that id. `get_documents` is taken
  to return the whole collection. Any fields `create_document` may add are not
  modelled.
- The case of an unconfigured store (`if db else []`, main.py:79) is a
  configuration failure, not logic. The model always has a store.
- Concurrency is not modelled; the store is sequential. The find-then-delete of
  a poll (main.py:137, 140) and the find-then-create of a first contact
  (main.py:79-83) are atomic here. Concurrent callers could deliver a command
  twice or create two records for one device.
- Service.Store.Now: wall-clock time is an integer counter that strictly increases.
  `datetime.now` can return equal values, and then two commands could share a
  `created_at`. `CommandQueue.Oldest` still picks a least stamp in that case,
  but the FIFO lemmas assume distinct stamps.
- IEEE floating point is not modelled. Measurements and thresholds are `real`.
- Serialising results is not modelled: ISO-8601 timestamps and `_id` as a
  string (main.py:100, 107, 123, 141).
- Pydantic's validation machinery is not modelled. Its constraints are the
  predicates `ValidReading`, `ValidThresholds`, `ValidCommand` and
  `ValidDevice`. The first three are preconditions of the endpoints that take
  a request body (invalid input is rejected before the endpoint runs).
  `ValidDevice` is part of the registry invariant and of the contract of
  `DefaultDevice`; no endpoint takes a device as input.
- Service.Store.GetLatestReadings: the store does not fix the order of readings with
  equal timestamps. So the method states the properties of the answer, not one
  particular order among ties.
- ReadingQuery.Cap: a negative `limit` is taken to mean its magnitude. A limit
  of 0 means no limit, as in the store's cursor.
