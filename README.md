# Event stores and snapshots of an event-sourcing library, in Dafny

This project models the storage core of a Go event-sourcing library. Aggregates
change state by raising events. An event store saves each aggregate's events in
batches and hands them back through iterators. A snapshot handler saves an
aggregate's state in one record and restores it.

Modules, one file each:

- `EventSourcing` (`event.dfy`): the event record, the library's errors, the
  injected serializer and registry, and the `Filter`/`Take` sequence functions
  the stores are specified with.
- `MemoryStore` (`memory.dfy`): the in-memory store. It keeps one bucket per
  aggregate and a global list in commit order. `Save` stamps GlobalVersions;
  `Get` builds an iterator over the events after a version; `GlobalEvents`
  returns a page of the global list, with Go's `uint64` counter wrap-around
  written out. The class invariant says that the global list is numbered
  1, 2, 3, ... and that every bucket is a sub-list of it in ascending order.
  `Save` preserves it.
- `Snapshots` (`snapshot.dfy`): the snapshot handler. `Save` validates the
  aggregate's root, encodes the state with the aggregate's own hook or the
  serializer, and hands the record to the snapshot store. `Get` decodes a
  stored record into an aggregate in place, and restores the root's ID and
  versions only when decoding succeeds.
- `SqlStore` (`sql.dfy`): the SQL store. `Save` finds the current version,
  validates the batch, inserts the rows one by one and stamps each event with
  its new row id, all inside one transaction. Reading back decodes rows,
  skipping rows whose type is not registered.
- `Esdb` (`esdb.dfy`): the EventStoreDB store. It covers:
  - the stream name and its split back into type and ID;
  - the expected-revision rule;
  - the encode, append and stamp steps of `Save`;
  - the error mapping of `Get`;
  - the iterator that turns stream records into events.
- `Bbolt` (`bbolt.dfy`): the bbolt iterator. Its cursor is opened lazily with a
  seek, steps forward on later calls, and skips unregistered records.

Collaborators outside the library are parameters of the operations:
- the validators `ValidateEvents` and `ValidateEventsNoVersionCheck`;
- the serializer's encoders and decoders;
- the database's answers (transaction, query, insert and commit failures);
- the EventStoreDB client's append and read results;
- the bbolt bucket contents;
- the snapshot store;
- the context's error.

## Model

| member | source | states |
|---|---|---|
| `EventSourcing.FilterMembers` | eventstore/memory/memory.go:96-100 | the events kept by a filtering loop are exactly those of the bucket that pass the test |
| `MemoryStore.AggregateKey` | eventstore/memory/memory.go:131-133 | the bucket name is the aggregate type, then `_`, then the aggregate ID |
| `MemoryStore.AggregateKeyInjective` | eventstore/memory/memory.go:131-133 | two aggregates whose types hold no `_` share a bucket name only if they have the same type and ID |
| `MemoryStore.AggregateKeyCollision` | eventstore/memory/memory.go:131-133 | with a `_` in the type, two different aggregates can get the same bucket name |
| `MemoryStore.SaveKeepsOrder` | eventstore/memory/memory.go:76-85 | appending a stamped batch to one bucket and to the global list keeps the global list numbered 1..n and every bucket a sub-list of it in ascending GlobalVersion order |
| `MemoryStore.GlobalEventsContiguous` | eventstore/memory/memory.go:108-125 | in a numbered global list, the events with GlobalVersion of at least `start` form one contiguous run from position start-1 to the end |
| `MemoryStore.MemoryIterator.Next` | eventstore/memory/memory.go:23-30 | hands out the events in order, one per call, then `ErrNoMoreEvents` on every later call without changing state |
| `MemoryStore.MemoryIterator.Close` | eventstore/memory/memory.go:32-35 | drops the events and resets the position |
| `MemoryStore.Memory.constructor` | eventstore/memory/memory.go:38-43 | a new store is empty and satisfies the store invariant |
| `MemoryStore.Memory.Save` | eventstore/memory/memory.go:46-87 | an empty batch changes nothing; a rejected batch returns the validator's error and changes nothing; otherwise the batch is validated against the current version, 0 for an empty bucket and else the Version of the bucket's last event; event i gets GlobalVersion \|global\|+i+1 in the caller's array, the batch is appended to the global list and to the first event's bucket only, and the store invariant is kept |
| `MemoryStore.Memory.Get` | eventstore/memory/memory.go:90-105 | the iterator holds exactly the aggregate's events with Version after `afterVersion`, in stored order, starting at position 0; with none, `ErrNoEvents` |
| `MemoryStore.Memory.AppendStamped` | eventstore/memory/memory.go:76-83 | the commit loop gives event i GlobalVersion \|global\|+i+1 in the caller's array and appends the stamped batch to the global list and to the bucket |
| `MemoryStore.Page` | eventstore/memory/memory.go:114-123 | the scan loop returns the first `count` events with GlobalVersion of at least `start`, in global order; a count of 0 wraps around and sets no limit below 2^64 |
| `MemoryStore.Memory.GlobalEvents` | eventstore/memory/memory.go:108-125 | returns the first `count` events with GlobalVersion of at least `start` in global order, and these are the first `count` of the contiguous run from position `start`-1 to the end of the global list; a count of 0 wraps around and sets no limit below 2^64 |
| `Snapshots.Validate` | snapshot.go:129-137 | `ErrEmptyID` exactly when the ID is empty, `ErrUnsavedEvents` exactly when the ID is set and events are unsaved, success exactly otherwise |
| `Snapshots.Capture` | snapshot.go:46-98 | a non-aggregate fails with "not an aggregate"; an invalid root fails with the validation error; the state is encoded by the aggregate's own hook when it has one, otherwise by the serializer, and an encoding error is returned; a record carries the encoded state, the root's ID, Version and GlobalVersion, and the aggregate's type name |
| `Snapshots.CaptureWith` | snapshot.go:58-98 | a validation error is returned first, then the marshal error; validation passing and the marshal succeeding always give a record, which carries exactly the marshalled state, the root's ID, Version and GlobalVersion and the aggregate's type name |
| `Snapshots.Save` | snapshot.go:46-98 | a non-aggregate fails with "not an aggregate"; a validation error and then an encoding error (hook or serializer) are returned without calling the store; otherwise the store receives the record of the root's ID, the type name, the encoded state, Version and GlobalVersion, and its answer is returned as is |
| `Snapshots.Aggregate.SetInternals` | snapshot.go:114 | overwrites the root's ID, Version and GlobalVersion, clears the unsaved events and leaves the domain fields as they are |
| `Snapshots.Get` | snapshot.go:101-126 | a store error is returned and the aggregate is untouched; a non-aggregate fails with "not an aggregate"; otherwise the state is decoded in place by the hook or the serializer, and the root's ID and versions become the snapshot's only when decoding succeeds, which also clears the unsaved events; on a decoding error the root is untouched |
| `Snapshots.SaveThenGet` | snapshot.go:58-126 | saving an aggregate through a store that accepts only the captured record, then getting that record back, restores the saved ID, Version and GlobalVersion into the target aggregate |
| `SqlStore.InsertRow` | eventstore/sql/sql.go:73-90 | the insert fails exactly when the data marshal, the metadata marshal (when there is metadata), the insert or the id lookup fails, and with that step's error, checked in that order; a row holds the event's ID, Version, reason, type and formatted timestamp, its marshalled data, its marshalled metadata or "" without metadata, and its row id |
| `SqlStore.HighestVersion` | eventstore/sql/sql.go:48-60 | the current version is at least every stored version of the aggregate and is one of them; it is 0 when none is stored |
| `SqlStore.InsertAll` | eventstore/sql/sql.go:70-93 | inserts events in order as rows numbered from base+1, stamps each inserted event with its row id, and stops at the first event whose marshal, insert or id lookup fails, returning that error and leaving the later events unstamped |
| `SqlStore.SqlEvents.Save` | eventstore/sql/sql.go:34-95 | an empty batch does nothing; begin, version-query, validation, insert and commit errors are returned in that order; nothing is committed on any error, but events already inserted keep their stamped GlobalVersion; on success the rows are the old rows followed by one row per event, numbered on from the last row, and the table stays numbered 1..n |
| `SqlStore.EventsFromRows` | eventstore/sql/sql.go:121-170 | returns the decoded events of the rows, or the first row's scan, time, data or metadata error, or the cursor's final error; never a partial list |
| `SqlStore.DecodeRow` | eventstore/sql/sql.go:129-164 | a scan error and then a time-parse error are returned even for an unregistered row; for a registered row the data decode error, then the metadata decode error when the stored metadata is not empty, is returned; a row is passed over exactly when it scans, its time parses and its (type, reason) is not registered; a registered row whose every step succeeds always gives an event; an event comes only from a registered row and is decoded from its fields |
| `SqlStore.DecodeRowsKeepsRegistered` | eventstore/sql/sql.go:138-164 | a successful read yields one event per row with a registered (type, reason), in row order, with the row's ID, Version, type and sequence number as GlobalVersion, and data, metadata and timestamp decoded from the row; metadata is nil exactly when the stored string is empty |
| `SqlStore.DecodeRowsFailure` | eventstore/sql/sql.go:129-154 | reading fails exactly when some row fails to decode, and then with the error of the first failing row |
| `SqlStore.InsertThenDecode` | eventstore/sql/sql.go:73-164 | an inserted event reads back as itself with its row id as GlobalVersion and its timestamp as the formatted text parses back, when the serializer round-trips, the text parses and its metadata does not encode to the empty string |
| `SqlStore.SqlEvents.Get` | eventstore/sql/sql.go:97-107 | a query error is returned first; a context that is already done then discards the rows with its own error; otherwise the rows are exactly the stored rows with the aggregate's ID and type and a Version after `afterVersion` |
| `Esdb.SplitJoin` | eventstore/esdb/iterator.go:39 | splitting on the separator loses nothing: the pieces hold no separator and join back to the input |
| `Esdb.Stream` | eventstore/esdb/esdb.go:114-116 | the stream name is the aggregate type, then "-", then the aggregate ID |
| `Esdb.StreamSplit` | eventstore/esdb/esdb.go:114-116 | the stream name splits into the aggregate type followed by the pieces of the ID when the type holds no separator |
| `Esdb.StreamNameRoundTrip` | eventstore/esdb/iterator.go:39-59 | the iterator recovers type and ID from the stream name when neither holds "-" |
| `Esdb.DashedIDIsCut` | eventstore/esdb/iterator.go:39-59 | an ID holding "-" comes back cut at its first "-" |
| `Esdb.DashedTypeIsCut` | eventstore/esdb/iterator.go:39-59 | a type holding "-" comes back cut at its first "-" |
| `Esdb.ExpectedRevisionFor` | eventstore/esdb/esdb.go:78-84 | no expectation exactly for version 0, "no stream" exactly for version 1, and otherwise the event number of the event with Version v-1, the last one already stored |
| `Esdb.EncodeAllSuccess` | eventstore/esdb/esdb.go:53-76 | an encoded batch holds each event's encoding at its own position |
| `Esdb.EncodeAllFailure` | eventstore/esdb/esdb.go:53-76 | encoding fails exactly when some event fails, and then with the first failing event's error |
| `Esdb.EncodeEvents` | eventstore/esdb/esdb.go:53-76 | the array filled by the loop is the batch encoding, or the first encoding error |
| `Esdb.StampAll` | eventstore/esdb/esdb.go:89-92 | every event of the batch gets the same GlobalVersion, the commit position, and nothing else changes |
| `Esdb.Save` | eventstore/esdb/esdb.go:36-94 | an empty batch does nothing; validation, encoding and append errors are returned in that order with the events untouched; the append goes to the aggregate's stream with the expected revision of the first event's Version; on success every event gets the commit position as GlobalVersion |
| `Esdb.Convert` | eventstore/esdb/iterator.go:39-66 | the data decode error comes first, then the metadata decode error when the record has metadata, and only then does a stream name without "-" fail; when every step succeeds the record always converts; an event takes type and ID from the first two pieces of the stream name, Version EventNumber+1, GlobalVersion 0, the record's creation time, the decoded data, and metadata exactly when the record has some |
| `Esdb.Iterator.Next` | eventstore/esdb/iterator.go:23-67 | passes over records with an unregistered type and event type, then answers the next item: end of stream and not-found as `ErrNoMoreEvents`, other errors as is, a record as its event with Version EventNumber+1 and GlobalVersion 0, or its decode error |
| `Esdb.Get` | eventstore/esdb/esdb.go:96-112 | reads the aggregate's stream from revision `afterVersion`; not-found becomes `ErrNoEvents`, other read errors are returned, a context that is done returns its error, and otherwise a fresh iterator over the stream |
| `Esdb.Iterator.DeliveredAfter` | eventstore/esdb/esdb.go:99-100 | when the read from revision `afterVersion` delivers only records numbered `afterVersion` or later, every event `Next` yields has a Version after `afterVersion` |
| `Esdb.SaveThenRead` | eventstore/esdb/iterator.go:39-65 | an event stored at event number Version-1 and stamped with a creation time by the database reads back as itself with GlobalVersion 0 and that creation time as timestamp, when its type and ID hold no "-" and the serializer round-trips |
| `Bbolt.Seek` | eventstore/bbolt/iterator.go:33 | the cursor's seek lands on the first key at least the target, or past the end when there is none |
| `Bbolt.SeekFindsFirst` | eventstore/bbolt/iterator.go:33-36 | in a sorted bucket every entry from the seek position on has a key at least the target |
| `Bbolt.Iterator.Next` | eventstore/bbolt/iterator.go:26-67 | without a bucket, `ErrNoMoreEvents` and the cursor stays closed; otherwise the first call seeks to `firstEventIndex` and later calls step one entry forward, staying past the end once there; skipped records are passed over; past the end gives `ErrNoMoreEvents`, otherwise the entry is answered (wrapped decode errors, or the event) |
| `Bbolt.Iterator.Answer` | eventstore/bbolt/iterator.go:43-66 | a record decode error is wrapped as "could not deserialize event", a data decode error as "could not deserialize event data"; an event copies ID, type, Version, GlobalVersion, timestamp and metadata from the stored record and holds the data its bytes decode to |
| `Bbolt.Iterator.DeliveredFromFirstIndex` | eventstore/bbolt/iterator.go:27-38 | every entry the cursor stands on has a key of at least `firstEventIndex` |

## Left out

- Locking: each store method is one atomic step; the mutex and concurrent callers are not modelled.
- Go's zero `Event` returned beside an error: operations return `Result`, so a failure carries no event.
- Reflection: aggregate and snapshot type names are explicit fields, and the type assertions in the snapshot handler are the `Subject` constructors.
- Serializer internals: marshal and unmarshal are opaque functions. Metadata values (`interface{}` in the source) are modelled as strings.
- Timestamps: RFC 3339 formatting and parsing are parameters of the SQL store, and an instant is an integer.
- `Memory.Close` does nothing and is not modelled. The `ctx` argument of `Memory.Get` is unused by the source.
- The SQL connection, the SQL text and `SQL.GlobalEvents`: queries are modelled by their results. The SQL iterator (eventstore/sql/iterator.go) is not part of this model.
- `SqlStore.SqlEvents.Save`: models row ids as consecutive after the last committed row. A database that leaves gaps in its auto-increment key is not modelled.
- The EventStoreDB and bbolt clients: an append answers with a commit position or an error, and a read answers with the items `Recv` returns. A bucket is a sorted list of entries. The `Close` methods of both iterators release client resources only and are not modelled.
- `Esdb.Iterator.Next`: a `Recv` after the last listed item is taken to answer end of stream. A stream name without "-" makes the source index out of range, which panics; here it is the error `IndexOutOfRange`.
- `Esdb.Iterator.Next`: does not model the `uint64` overflow of EventNumber + 1.
- `Bbolt.Iterator.Next`: 8-byte big-endian keys are compared as numbers, which matches bbolt's byte order for keys of equal width. `itob` is not part of this model.
- `Snapshots.Get`: for a plain aggregate the serializer decodes only the domain fields; the root's fields are then set by `setInternals`.
- `Snapshots.Capture`: marshals only the domain fields, where `saveAggregate` marshals the whole aggregate, root included; the root's fields reach the snapshot record separately in both.
- `Snapshots.Aggregate.SetInternals`: aggregate.go is not part of this model. That `setInternals` sets the ID and both versions and empties the unsaved events is an assumption about it.
- Snapshot hooks: the source hands a hooked aggregate's `Marshal` and `Unmarshal` the serializer's function; the model folds that function into the hook.
- `Esdb.SaveThenRead`: EventStoreDB stores no event timestamp; an event read back carries the server's creation date, a parameter here.
- `SqlStore.InsertThenDecode`: the SQL store writes timestamps as RFC 3339 text, which keeps whole seconds only; the event reads back with the parsed text as its timestamp.
- `SqlStore.SqlEvents.Get`: returns the selected rows in table order; the query's `order by version` gives the same order when each aggregate's rows are inserted in ascending Version, as `Save` does after validation.
- Error texts built with `fmt.Sprintf` are `Wrapped(context, cause)` values rather than strings.
