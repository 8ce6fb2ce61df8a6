# DynamoDB-with-Go, modelled in Dafny

This project models the application logic of the *dynamodb-with-go*
tutorial repository. Each piece works against a DynamoDB table. The table is
modelled as a map from primary key to item. Every backend call is a function
or method over that map, with the service's failure injected as a parameter.

- **Toggle store** (episode 9). There is one pointer row per identity, with
  sort key `LATEST_SWITCH`, plus write-once log rows with sort key
  `SWITCH#<timestamp>`. `Save` is a two-phase protocol over conditional
  transactions:
  - Phase 1 moves the pointer forward atomically with the log put.
  - Phase 2 creates a missing pointer.
  - A cancelled Phase 2 restarts `Save`.

  `Latest` reads the pointer.
- **Table schema translation** (`pkg/dynamo`). A CloudFormation table
  becomes a `CreateTableInput`: attribute definitions, key schema, and local
  and global secondary indexes, copied in order. An index whose projection is
  not `ALL` panics.
- **Sensors** (episode 8). Sensor, reading and location rows share one
  table, and the row encodings are proved to round-trip. The model covers
  registration (at most once per sensor id), reading storage, the "sensor
  plus its latest readings" query and the location query.
- **Legacy ID mappers** (episodes 5 and 6). Each maps an old ID to a
  generated new ID exactly once:
  - episode 5 uses a conditional put with a read fallback;
  - episode 6 uses a one-item transaction whose cancellation reports the
    stored mapping.
- **Expressions and item collections** (episode 11). Three operations are
  each written twice: V1 with hand-written expression strings, V2 with the
  expression builder. The expression parameters (placeholders plus the names
  and values maps) are modelled, together with the service's resolution of
  them. Each V1 operation is proved to return the same result and leave the
  same table as its V2 twin.

Supporting modules:
- `Optional`: an Option type.
- `Text`: lexicographic string order, prefixes, and `strings.Split(s, sep)[n]`.
- `Clock`: instants as integer nanoseconds since year 1, and their
  fixed-width decimal timestamp encodings.
- `Dynamo`: TransactWriteItems, PutItem/UpdateItem, GetItem and Query.
- `Expressions`: placeholder resolution, condition evaluation and update
  application.

Modelling conventions:
- A Go panic is the outcome `Call.Panic(message)`. A Go `(T, error)` return
  is `Call.Return(value, err)` or a pair of out-parameters.
- The generated UUID is the parameter `generated`.
- Saves completed by other clients are the parameter `rivals`.

A Toggle transaction cancelled by a conflicting transaction is still a
cancellation, so `Save` treats it as the code does:
- In Phase 1 it carries no old item, so `Save` goes on to Phase 2.
- In Phase 2 it restarts `Save`, like a lost creation race.

Every other backend error is returned unchanged.

The model also keeps the code's panics:
- `Get` on an unregistered sensor panics, because `strings.Split("", "#")[1]`
  is out of range.
- `LatestReadings` panics on an empty page.
- `GetSensors` panics on a location row without `id`.

## Model

| member | source | states |
|---|---|---|
| Toggle.RowEncoding | episode9/toggle.go:34-58 | both rows are keyed by the switch ID; the pointer sort key is LATEST_SWITCH, the log sort key is SWITCH# plus the encoded timestamp; each row decodes back to the switch |
| Toggle.LogKeyIsNotLatest | episode9/toggle.go:42-58 | a log row never shares its key with a pointer row |
| Toggle.LogKeyInjective | episode9/toggle.go:42-49 | two log rows collide only for the same ID and the same timestamp |
| Toggle.AcceptSteps | episode9/toggle.go:72-105 | a completed save moves its own identity's pointer by one step: created on first save, replaced only by a strictly newer timestamp; other identities are untouched |
| Toggle.DropsOutOfOrder | episode9/toggle.go:72-118 | an event not newer than the stored pointer writes nothing at all |
| Toggle.AcceptKeepsKeys | episode9/toggle.go:82-105 | a completed save keeps every row stored under its own key |
| Toggle.AcceptAllKeepsKeys | episode9/toggle.go:82-105 | any series of completed saves keeps every row stored under its own key |
| Toggle.AcceptKeepsLogBehind | episode9/toggle.go:82-153 | every log row belongs to an existing pointer that is no older than it, and a save preserves this |
| Toggle.AcceptAllKeepsLogBehind | episode9/toggle.go:82-153 | the log-behind-pointer invariant survives any series of saves |
| Toggle.AcceptAllSteps | episode9/toggle.go:65-160 | saving a series of switches of one identity runs the per-identity pointer state machine over it |
| Toggle.LastWriterWins | episode9/toggle.go:72-77 | after any series of saves, the pointer holds the greatest timestamp saved, with the state of the first switch that carried it |
| Toggle.IncreasingSavesKeepLast | episode9/toggle.go:65-109 | with strictly increasing timestamps, Latest reports the last switch saved |
| Toggle.OrderIndependent | episode9/toggle.go:72-77 | with distinct timestamps, the arrival order of the saves does not change the final pointer |
| Toggle.Phase1Effect | episode9/toggle.go:82-118 | Phase 1 either commits the pointer update and the log put together, or writes nothing; a cancellation reporting a stored pointer means the event is dropped, and one reporting none means no pointer or a conflict; other errors are the injected ones |
| Toggle.Phase2Effect | episode9/toggle.go:120-157 | Phase 2 commits the pointer creation and the log put together only while the pointer is absent; it is cancelled only when a pointer exists or on a conflict |
| Toggle.AfterTwo | episode9/toggle.go:159 | the restarted call gets strictly fewer injected faults, none of them new, and no conflict when there was none |
| Toggle.ToggleStore.Save | episode9/toggle.go:65-160 | the table ends as the save's accepted effect (after any rival saves) or, on error, unchanged; errors are exactly injected faults, a Phase 1 fault other than a conflict is returned unchanged with the table untouched, and so is a Phase 2 one after a Phase 1 that found no pointer, the rival saves applied; without conflicts there is at most one restart, and none when the pointer already exists; the log-behind-pointer invariant is kept |
| Toggle.ToggleStore.CreatePointer | episode9/toggle.go:120-159 | after the rival saves, Phase 2 creates the pointer and log row, or restarts Save, which then finds the pointer and does not restart again; a Phase 2 fault other than a conflict is returned unchanged and writes nothing |
| Toggle.ToggleStore.Latest | episode9/toggle.go:162-180 | an injected error gives the zero Switch; a missing pointer gives "not found"; otherwise the ID asked for with exactly the stored state and timestamp |
| Clock.FormatNanoOrder | episode9/toggle.go:45 | the fixed-width nanosecond encoding orders as the instants do |
| Clock.FormatNanoInjective | episode9/toggle.go:45 | distinct instants give distinct log sort keys |
| Clock.Truncate | episode8/v1/sensors/sensors.go:79 | cutting an instant to whole seconds loses less than a second and leaves a whole second |
| Clock.ParseFormatSeconds | episode8/v1/sensors/sensors.go:94-104 | parsing the seconds encoding of an instant gives back the instant cut to whole seconds |
| Clock.FormatParseSeconds | episode8/v1/sensors/sensors.go:95 | a string that parses is the encoding of what it parses to |
| Clock.FormatSecondsOrder | episode8/v1/sensors/sensors.go:79 | the seconds encoding orders as the whole seconds do |
| Text.LessTransitive | episode8/v1/sensors/sensors.go:196-212 | the sort-key order the service uses is transitive |
| Text.LessTotal | episode8/v1/sensors/sensors.go:196-212 | any two distinct sort keys are ordered one way or the other |
| Text.IndexOf | episode8/v1/sensors/sensors.go:86 | the first occurrence of the separator, or none when the string has none |
| Schema.FromCloudFormationToCreateInput | pkg/dynamo/table.go:12-64 | panics with "not implemented" exactly when some local or global index does not project ALL; otherwise the input mirrors the template: name, billing mode, attribute definitions, key schema and both index lists copied one for one and in order |
| Schema.CopyKeySchema | pkg/dynamo/table.go:30-36 | the index key schema is copied one for one, in order |
| Schema.MirrorsLosesNothing | pkg/dynamo/table.go:12-64 | a supported template is recovered from any input mirroring it |
| Schema.MirrorsIsUnique | pkg/dynamo/table.go:12-64 | two inputs mirroring one template are equal |
| Schema.IndexesBackOfSame | pkg/dynamo/table.go:26-59 | each index keeps its name, its ordered key schema and projection ALL |
| Sensors.AsSensor | episode8/v1/sensors/sensors.go:84-92 | decoding succeeds exactly when the partition key holds a '#' |
| Sensors.SensorRoundTrip | episode8/v1/sensors/sensors.go:49-92 | the sensor row decodes back to the sensor whenever its ID holds no '#' |
| Sensors.ReadingRoundTrip | episode8/v1/sensors/sensors.go:76-104 | the reading row decodes back to the reading, its time cut to whole seconds |
| Sensors.ReadingSortsBeforeInfo | episode8/v1/sensors/sensors.go:196-199 | every READ# sort key sorts below SENSORINFO |
| Sensors.ReadingSortKeyOrder | episode8/v1/sensors/sensors.go:76-82 | reading sort keys order as their read times |
| Sensors.ReadingRowDecodes | episode8/v1/sensors/sensors.go:94-104 | a reading row of a sensor decodes, without panicking, to a reading of that sensor at its sort key's time |
| Sensors.AsPathSelectsOtherFloor | episode8/v1/sensors/sensors.go:37-47 | as written, the path of a floor is a prefix of the location key of every sensor in the same building whose floor name begins with it, though that sensor is not on the floor |
| Sensors.AsPathSelectsWithin | episode8/v1/sensors/sensors.go:37-47 | asPath as written misses no sensor: every sensor in the building, and on the floor if one is given, has it as a prefix of its location key |
| Sensors.LocationPathSelects | episode8/v1/sensors/sensors.go:37-47 | with the floor closed by '#', a location path is a prefix of a sensor's location key exactly when the sensor stands in that building (and on that floor, if one is given) |
| Sensors.PageShape | episode8/v1/sensors/sensors.go:196-218 | the descending page starts with the sensor row and holds only reading rows after it |
| Sensors.LatestPageFromQuery | episode8/v1/sensors/sensors.go:196-227 | the decoded page is the registered sensor and at most `last` stored readings, strictly newest first, none newer skipped |
| Sensors.SensorManager.Register | episode8/v1/sensors/sensors.go:120-162 | the sensor row is put only if absent, atomically with the location row; any cancellation reports "already registered" and writes nothing; other errors pass through |
| Sensors.SensorManager.Get | episode8/v1/sensors/sensors.go:164-182 | the registered sensor comes back when its ID holds no '#'; a missing sensor panics (index out of range); errors give the zero Sensor |
| Sensors.SensorManager.SaveReading | episode8/v1/sensors/sensors.go:184-194 | the reading row is put unconditionally under SENSOR#id and READ#time |
| Sensors.DecodeReadings | episode8/v1/sensors/sensors.go:221-226 | every item after the first decodes to the reading at the same position, or the first one that does not panics with its decoding's panic |
| Sensors.SensorManager.LatestReadings | episode8/v1/sensors/sensors.go:196-228 | for a registered sensor: the sensor, then at most `last` readings newest first; a negative `last` is refused by the service; an empty page panics |
| Sensors.SensorManager.SensorsUnder | episode8/v1/sensors/sensors.go:237-253 | returns the ID of every location row of the city whose sort key begins with the path, and only such IDs; a row without `id` panics; an error gives no IDs |
| Sensors.SensorManager.GetSensors | episode8/v1/sensors/sensors.go:230-253 | as written: returns the ID of every registered sensor of the city standing within the location, and of every sensor whose location key begins with asPath, including those on longer floor names; only IDs of rows under asPath; a row without `id` panics |
| Sensors.SensorManager.GetSensorsWithin | episode8/v1/sensors/sensors.go:230-253 | with the floor closed by '#': returns the ID of every sensor standing within the location, and only IDs of rows under the closed path |
| LegacyIds.Claim | episode5/mapper.go:32-70 | the stored new ID when the old ID is mapped, otherwise the generated one, stored; nothing else changes |
| LegacyIds.ClaimIdempotent | episode5/mapper_test.go:33-48 | mapping again returns the same new ID and changes nothing |
| LegacyIds.ClaimKeepsInjective | episode5/mapper_test.go:12-31 | with unused generated IDs, distinct old IDs keep distinct new IDs |
| LegacyIds.ClaimKeepsDistinguished | episode5/mapper_test.go:12-31 | new IDs stay non-empty and differ from their old IDs when generated ones do |
| LegacyIds.ClaimKeepsWellKeyed | episode5/mapper.go:39-52 | every mapping stays stored under its own old ID |
| LegacyIds.MapperV5.Map | episode5/mapper.go:32-71 | when the put succeeds, or neither call faults, the result and the table are those of Claim; a non-awserr put error or ConditionalCheckFailed falls back to GetItem; other awserr errors return "" with the error; a missing item panics |
| LegacyIds.MapperV6.Map | episode6/mapper.go:32-79 | without faults, the result and the table are those of Claim; other errors return ""; a conflict-cancelled transaction without old item returns "" and the cancellation |
| Expressions.Resolve | episode11/strings_expressions.go:14-57 | a request is executed only when every placeholder used is defined, every one defined is used, and the update changes no key attribute and touches no attribute twice |
| Expressions.UpdateItem | episode11/strings_expressions.go:43-57 | the update is applied to the stored item (or a key-only item) exactly when the resolved condition holds; otherwise ConditionalCheckFailed and no change |
| Expressions.PutItem | episode11/strings_expressions.go:79-86 | the item is stored under its own key exactly when the resolved condition holds |
| Expressions.QueryItems | episode11/strings_expressions.go:15-23 | a key condition pk = value answers that partition in ascending sort-key order |
| ItemCollections.CollectionRequestsSelect | episode11/strings_expressions.go:16-22 | both key conditions select exactly the partition pk |
| ItemCollections.UpdateRequestsAgree | episode11/api_expressions.go:47-54 | the hand-written and the builder requests resolve to the same condition b = whenB and the same change REMOVE b SET a = newA |
| ItemCollections.PutRequestsAgree | episode11/api_expressions.go:86-88 | both put requests resolve to attribute_not_exists(pk) |
| ItemCollections.UnsetBEffect | episode11/strings_expressions.go:56 | REMOVE b SET a = newA drops b, sets a and keeps every other attribute |
| ItemCollections.CollectionOfAnswer | episode11/api_expressions.go:23-38 | the unmarshalled answer holds every stored item of the partition, once, in ascending sort-key order, and nothing else |
| ItemCollections.UpdateChangesOnlyAAndB | episode11/api_expressions.go:47-77 | a successful update sets a, removes b, and leaves every other attribute and item unchanged |
| ItemCollections.UpdateNotRepeatable | episode11/api_expressions.go:65-69 | once b is removed, the same call reports "b is not whenB, aborting update" and changes nothing |
| ItemCollections.PutOnce | episode11/api_expressions.go:100-104 | a second put of the same key fails with "Item with this Key already exists" and does not overwrite |
| ItemCollections.UpdateOutcome | episode11/api_expressions.go:41-78 | success exactly when the item exists with b equal to whenB; every failure returns the empty Item and leaves the table |
| ItemCollections.PutOutcome | episode11/api_expressions.go:80-108 | success exactly when the key is absent, storing a key-only item; otherwise "Item with this Key already exists" or the injected error, table unchanged |
| ItemCollections.ItemCollectionUnique | episode11/api_expressions.go:15-39 | a partition has exactly one item collection, so any two answers meeting it are equal |
| ItemCollections.ItemTable.GetItemCollectionV1 | episode11/strings_expressions.go:14-35 | returns exactly the item collection of pk; errors give no items |
| ItemCollections.ItemTable.GetItemCollectionV2 | episode11/api_expressions.go:15-39 | returns exactly the item collection of pk, which is unique, so the same answer as V1 |
| ItemCollections.ItemTable.UpdateAWhenBAndUnsetBV1 | episode11/strings_expressions.go:37-71 | returns and leaves exactly UpdateOutcome |
| ItemCollections.ItemTable.UpdateAWhenBAndUnsetBV2 | episode11/api_expressions.go:41-78 | returns and leaves exactly UpdateOutcome, as V1 does |
| ItemCollections.ItemTable.PutIfNotExistsV1 | episode11/strings_expressions.go:73-97 | reports and leaves exactly PutOutcome |
| ItemCollections.ItemTable.PutIfNotExistsV2 | episode11/api_expressions.go:80-109 | reports and leaves exactly PutOutcome, as V1 does |
| Dynamo.TransactWriteItems | episode9/toggle.go:82-118 | commits exactly when no fault, 1 to 100 operations on distinct keys, and every condition holds; then applies all writes; a cancellation reports per operation whether its condition failed and, with ALL_OLD, the stored item |
| Dynamo.ApplyAllEffect | episode8/v1/sensors/sensors.go:130-153 | writes on distinct keys each leave their own item and touch nothing else |
| Dynamo.Query | episode8/v1/sensors/sensors.go:205-212 | the answer holds the matching items of the partition in strictly ascending or descending sort-key order, at most Limit of them, leaving out only items past a full page; Limit below 1 is refused |

## Left out

- I/O, `context.Context`, DynamoDB paging (the 1 MB page limit) and real concurrency. Other writers appear only as the `rivals` saves between the two Toggle phases.
- Marshalling errors from `MarshalMap`/`UnmarshalMap` are not modelled. Item structs are records, and a missing string attribute unmarshals as "".
- RFC 3339 formats are modelled as fixed-width decimal strings of the same instants, which keep the order and the whole-second truncation. Time zones and textual parsing are not modelled.
- Toggle.LastWriterWins, Clock.FormatNanoOrder: Go's RFC3339Nano drops trailing zeros of the fraction and carries the zone, so ".12Z" sorts before ".1Z". The string comparison `created_at < :t` (episode9/toggle.go:73) and the `SWITCH#` sort keys can therefore misorder instants within one second, or in different zones. These lemmas hold only under the order-preserving encoding.
- Dynamo.GetItem: reads are strongly consistent, returning the current row. The code's GetItem calls use DynamoDB's default eventually consistent reads, so the episode 5 fallback read and Toggle.ToggleStore.Latest could see an older row; the model does not capture that.
- The service's refusal of empty strings in key attributes, and its item-size and throughput limits, are not modelled.
- The expression builder is not modelled. The V2 requests carry the placeholder names it generates (`#0`, `:0`, …), and only their resolved meaning matters.
- In expressions, only equality and `attribute_not_exists` conditions, and `REMOVE`/`SET` with literal values, are modelled: the forms the code uses.
- Toggle.ToggleStore.Save: the restart is split into Save and CreatePointer, and rival saves are applied once, before Phase 2. The bound "at most one restart" is stated for fault series without conflicts. Under conflicts the recursion is bounded only by the injected fault series, and the length of that series is the termination measure.
- Sensors.SensorManager.GetSensors, Sensors.SensorManager.GetSensorsWithin: the order of the returned IDs is not stated, only which IDs appear. GetSensorsWithin ties the IDs to sensors' locations only for rows stored under a sensor's location key, with no '#' in the building or floor names.
- Sensors.SensorManager.LatestReadings: the 64-bit `last + 1` is unbounded here, so `last` = 2^63-1 does not overflow.
- Two sensors in the same room share one location key, so the later registration overwrites the earlier location row. The model reproduces this and proves nothing that excludes it.
- Schema.FromCloudFormationToCreateInput: only table name, billing mode, attribute definitions, key schema and the two index lists are modelled. Other CloudFormation fields, and the non-ALL projection attributes, are not.
- `pkg/dynamo/setup.go` (table creation against DynamoDB Local) is not part of this model.
- A nil slice and an empty slice are both the empty sequence.
- LegacyIds: transport errors are modelled as errors that are not `awserr.Error`, so episode 5 falls back to GetItem for them.

## Findings

| source | as written | input that shows it | evidently intended | confidence | as-written member | corrected member |
|---|---|---|---|---|---|---|
| episode8/v1/sensors/sensors.go:37-47 | `asPath` ends the floor without a separator, so `GetSensors` for floor "1" matches every floor whose name starts with "1" | Location("Poznan", "A", "1") against a sensor on floor "12" of building "A": "LOCATION#A#1" is a prefix of "LOCATION#A#12#R1" | a floor selects exactly the sensors on that floor (path "LOCATION#A#1#") | not executed | Sensors.AsPathSelectsOtherFloor | Sensors.SensorManager.GetSensorsWithin |
