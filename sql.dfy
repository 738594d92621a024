/** The SQL event store, over an `events` table whose `seq` column is an
    auto-increment key. The table is a sequence of rows; a write transaction
    is a list of pending rows that commit appends and rollback discards. */
module SqlStore {
  import opened EventSourcing

  /** One row of the `events` table. */
  datatype Row = Row(
    seqNo: nat,
    id: string,
    version: nat,
    reason: string,
    typ: string,
    timestamp: string,
    data: Bytes,
    metadata: Bytes)

  /** The database's answers that the store does not control; None is success.
      `queryError` is an error other than "no rows" from the current-version
      query; `execError` and `lastInsertIdError` are indexed by the event's
      position in the batch. */
  datatype Database = Database(
    beginError: Option<Error>,
    queryError: Option<Error>,
    execError: nat -> Option<Error>,
    lastInsertIdError: nat -> Option<Error>,
    commitError: Option<Error>)

  /** The highest version stored for the aggregate (id, typ), or 0 when it has no row. */
  function HighestVersion(rows: seq<Row>, id: string, typ: string): (v: nat)
    ensures forall k | 0 <= k < |rows| && rows[k].id == id && rows[k].typ == typ :: rows[k].version <= v
    ensures v > 0 ==> exists k | 0 <= k < |rows| :: rows[k].id == id && rows[k].typ == typ && rows[k].version == v
  {
    if rows == [] then 0
    else
      var rest := HighestVersion(rows[..|rows| - 1], id, typ);
      var last := rows[|rows| - 1];
      if last.id == id && last.typ == typ && last.version > rest then last.version else rest
  }

  /** Inserting event `e`, the `index`-th of its batch, as row `seqNo`: marshal
      its data, marshal its metadata only when it has some, execute the
      insert and read back the new row id. The first failing step's error. */
  function InsertRow<D>(e: Event<D>, index: nat, seqNo: nat, serializer: Serializer<D>, db: Database,
                        formatTime: Timestamp -> string): (r: Result<Row>)
    ensures r.Failure? <==>
      || serializer.marshalData(e.data).Failure?
      || (e.metadata.Some? && serializer.marshalMetadata(e.metadata.value).Failure?)
      || db.execError(index).Some?
      || db.lastInsertIdError(index).Some?
    ensures serializer.marshalData(e.data).Failure? ==> r == Failure(serializer.marshalData(e.data).error)
    ensures serializer.marshalData(e.data).Success? && e.metadata.Some? && serializer.marshalMetadata(e.metadata.value).Failure? ==>
      r == Failure(serializer.marshalMetadata(e.metadata.value).error)
    ensures serializer.marshalData(e.data).Success? && (e.metadata.Some? ==> serializer.marshalMetadata(e.metadata.value).Success?) ==>
      && (db.execError(index).Some? ==> r == Failure(db.execError(index).value))
      && (db.execError(index).None? && db.lastInsertIdError(index).Some? ==> r == Failure(db.lastInsertIdError(index).value))
    ensures r.Success? ==>
      && r.value.seqNo == seqNo && r.value.id == e.aggregateID && r.value.version == e.version
      && r.value.typ == e.aggregateType && r.value.reason == serializer.reason(e.data)
      && r.value.timestamp == formatTime(e.timestamp)
      && serializer.marshalData(e.data) == Success(r.value.data)
      && (e.metadata.None? ==> r.value.metadata == [])
      && (e.metadata.Some? ==> serializer.marshalMetadata(e.metadata.value) == Success(r.value.metadata))
  {
    match serializer.marshalData(e.data)
    case Failure(err) => Failure(err)
    case Success(data) =>
      var metadata := if e.metadata.Some? then serializer.marshalMetadata(e.metadata.value) else Success([]);
      match metadata
      case Failure(err) => Failure(err)
      case Success(m) =>
        if db.execError(index).Some? then Failure(db.execError(index).value)
        else if db.lastInsertIdError(index).Some? then Failure(db.lastInsertIdError(index).value)
        else Success(Row(seqNo, e.aggregateID, e.version, serializer.reason(e.data), e.aggregateType,
                         formatTime(e.timestamp), data, m))
  }

  /** The insert loop of `SQL.Save`, rows numbered from `base + 1`: each
      event in turn is marshalled and inserted, and its GlobalVersion in the
      array set to the new row id. Stops at the first failing event, which
      is left as it was; `pending` holds the rows inserted before it. */
  method InsertAll<D>(events: array<Event<D>>, base: nat, serializer: Serializer<D>, db: Database,
                      formatTime: Timestamp -> string) returns (err: Option<Error>, inserted: nat, pending: seq<Row>)
    modifies events
    ensures inserted <= events.Length && |pending| == inserted
    ensures err.None? <==> inserted == events.Length
    ensures err.Some? ==>
      InsertRow(old(events[inserted]), inserted, base + inserted + 1, serializer, db, formatTime) == Failure(err.value)
    ensures forall k | 0 <= k < inserted ::
      InsertRow(old(events[k]), k, base + k + 1, serializer, db, formatTime) == Success(pending[k]) &&
      events[k] == old(events[k]).(globalVersion := base + k + 1)
    ensures forall k | inserted <= k < events.Length :: events[k] == old(events[k])
    ensures forall k | 0 <= k < inserted :: pending[k].seqNo == base + k + 1
  {
    pending := [];
    var i := 0;
    while i < events.Length
      invariant 0 <= i <= events.Length && |pending| == i
      invariant forall k | 0 <= k < i ::
        InsertRow(old(events[k]), k, base + k + 1, serializer, db, formatTime) == Success(pending[k])
      invariant forall k | 0 <= k < i :: events[k] == old(events[k]).(globalVersion := base + k + 1)
      invariant forall k | i <= k < events.Length :: events[k] == old(events[k])
      invariant forall k | 0 <= k < i :: pending[k].seqNo == base + k + 1
    {
      var row := InsertRow(events[i], i, base + i + 1, serializer, db, formatTime);
      if row.Failure? {
        return Some(row.error), i, pending;
      }
      var lastInsertedID := row.value.seqNo;
      pending := pending + [row.value];
      events[i] := events[i].(globalVersion := lastInsertedID);
      i := i + 1;
    }
    return None, i, pending;
  }

  /** The rows `SQL.Get`'s query selects: the aggregate's, with a Version after `afterVersion`. */
  function Selects(id: string, aggregateType: string, afterVersion: nat): Row -> bool {
    (row: Row) => row.id == id && row.typ == aggregateType && row.version > afterVersion
  }

  class SqlEvents<D> {
    var rows: seq<Row>

    /** The auto-increment key numbers the committed rows 1, 2, 3, ... */
    ghost predicate Valid()
      reads this
    {
      forall k | 0 <= k < |rows| :: rows[k].seqNo == k + 1
    }

    constructor ()
      ensures Valid() && rows == []
    {
      rows := [];
    }

    /** `SQL.Save`. An empty batch returns at once. Otherwise, inside one
        transaction: read the aggregate's current version, validate the batch
        against it, insert the events in order and set each one's
        GlobalVersion in the caller's array to its new row id, then commit.
        Any error ends the transaction without committing anything; the
        events stamped before it (the first `inserted` ones) keep their
        GlobalVersion. */
    method Save(events: array<Event<D>>, serializer: Serializer<D>, db: Database,
                formatTime: Timestamp -> string, validate: Validator<D>)
      returns (err: Option<Error>, ghost inserted: nat, ghost written: seq<Row>)
      requires Valid()
      modifies this, events
      ensures Valid()
      ensures inserted <= events.Length
      ensures err.Some? ==> rows == old(rows)
      ensures |written| == inserted
      ensures forall k | 0 <= k < inserted ::
        InsertRow(old(events[k]), k, |old(rows)| + k + 1, serializer, db, formatTime) == Success(written[k]) &&
        events[k] == old(events[k]).(globalVersion := |old(rows)| + k + 1)
      ensures forall k | inserted <= k < events.Length :: events[k] == old(events[k])
      ensures events.Length == 0 ==> err == None && unchanged(this)
      ensures events.Length > 0 ==>
        var first := old(events[0]);
        if db.beginError.Some? then
          err == Some(Wrapped("could not start a write transaction", db.beginError.value)) && inserted == 0
        else if db.queryError.Some? then
          err == db.queryError && inserted == 0
        else
          var verdict := validate(first.aggregateID, HighestVersion(old(rows), first.aggregateID, first.aggregateType), old(events[..]));
          if verdict.Some? then
            err == verdict && inserted == 0
          else if inserted < events.Length then
            err.Some? && InsertRow(old(events[inserted]), inserted, |old(rows)| + inserted + 1, serializer, db, formatTime) == Failure(err.value)
          else
            err == db.commitError && (err.None? ==> rows == old(rows) + written)
    {
      inserted, written := 0, [];
      if events.Length == 0 {
        return None, inserted, written;
      }
      var aggregateID := events[0].aggregateID;
      var aggregateType := events[0].aggregateType;

      if db.beginError.Some? {
        return Some(Wrapped("could not start a write transaction", db.beginError.value)), inserted, written;
      }
      if db.queryError.Some? {
        return db.queryError, inserted, written;
      }
      var currentVersion := HighestVersion(rows, aggregateID, aggregateType);

      err := validate(aggregateID, currentVersion, events[..]);
      if err.Some? {
        return err, inserted, written;
      }

      var pending;
      err, inserted, pending := InsertAll(events, |rows|, serializer, db, formatTime);
      written := pending;
      if err.Some? {
        return err, inserted, written;
      }

      if db.commitError.Some? {
        return db.commitError, inserted, written;
      }
      rows := rows + pending;
      return None, inserted, written;
    }

    /** `SQL.Get`: the rows its query selects, which the SQL iterator then
        decodes. A query error is returned first; a context already done
        then discards the rows with its own error. */
    method Get(id: string, aggregateType: string, afterVersion: nat, queryError: Option<Error>, ctxErr: Option<Error>)
      returns (r: Result<seq<Row>>)
      ensures queryError.Some? ==> r == Failure(queryError.value)
      ensures queryError.None? && ctxErr.Some? ==> r == Failure(ctxErr.value)
      ensures queryError.None? && ctxErr.None? ==> r == Success(Filter(rows, Selects(id, aggregateType, afterVersion)))
      ensures r.Success? ==>
        forall row :: row in r.value <==> row in rows && row.id == id && row.typ == aggregateType && row.version > afterVersion
    {
      if queryError.Some? {
        return Failure(queryError.value);
      } else if ctxErr.Some? {
        return Failure(ctxErr.value);
      }
      FilterMembers(rows, Selects(id, aggregateType, afterVersion));
      return Success(Filter(rows, Selects(id, aggregateType, afterVersion)));
    }
  }

  /** The columns scanned from one result row. */
  datatype ScannedRow = ScannedRow(
    globalVersion: nat,
    id: string,
    version: nat,
    reason: string,
    typ: string,
    timestamp: string,
    data: Bytes,
    metadata: Bytes)

  /** One step of the result cursor: a scanned row, or the scan's error. */
  datatype RowRead = Scanned(row: ScannedRow) | ScanFailed(error: Error)

  /** One row of `eventsFromRows`: the scan, then the timestamp, then the
      registry lookup (None: an unregistered row, skipped), then the data,
      then the metadata when the stored string is not empty. */
  function DecodeRow<D>(read: RowRead, serializer: Serializer<D>, parseTime: string -> Result<Timestamp>): (r: Result<Option<Event<D>>>)
    ensures read.ScanFailed? ==> r == Failure(read.error)
    ensures read.Scanned? && parseTime(read.row.timestamp).Failure? ==> r == Failure(parseTime(read.row.timestamp).error)
    ensures read.Scanned? && parseTime(read.row.timestamp).Success? && serializer.Registered(read.row.typ, read.row.reason) ==>
      var data := serializer.unmarshalData(read.row.typ, read.row.reason, read.row.data);
      && (data.Failure? ==> r == Failure(data.error))
      && (data.Success? && read.row.metadata != [] && serializer.unmarshalMetadata(read.row.metadata).Failure? ==>
            r == Failure(serializer.unmarshalMetadata(read.row.metadata).error))
    ensures read.Scanned? && parseTime(read.row.timestamp).Success? && serializer.Registered(read.row.typ, read.row.reason) &&
            serializer.unmarshalData(read.row.typ, read.row.reason, read.row.data).Success? &&
            (read.row.metadata != [] ==> serializer.unmarshalMetadata(read.row.metadata).Success?) ==>
      r.Success? && r.value.Some?
    ensures r == Success(None) <==>
      read.Scanned? && parseTime(read.row.timestamp).Success? && !serializer.Registered(read.row.typ, read.row.reason)
    ensures r.Success? && r.value.Some? ==>
      read.Scanned? && serializer.Registered(read.row.typ, read.row.reason) &&
      DecodedFrom(r.value.value, read.row, serializer, parseTime)
  {
    match read
    case ScanFailed(e) => Failure(e)
    case Scanned(r) =>
      match parseTime(r.timestamp)
      case Failure(e) => Failure(e)
      case Success(t) =>
        if !serializer.Registered(r.typ, r.reason) then Success(None)
        else
          match serializer.unmarshalData(r.typ, r.reason, r.data)
          case Failure(e) => Failure(e)
          case Success(d) =>
            if r.metadata == [] then Success(Some(Event(r.id, r.version, r.globalVersion, r.typ, t, d, None)))
            else
              match serializer.unmarshalMetadata(r.metadata)
              case Failure(e) => Failure(e)
              case Success(m) => Success(Some(Event(r.id, r.version, r.globalVersion, r.typ, t, d, Some(m))))
  }

  /** The events decoded from the rows in order, or the first row's error. */
  function DecodeRows<D>(scans: seq<RowRead>, serializer: Serializer<D>, parseTime: string -> Result<Timestamp>): Result<seq<Event<D>>>
  {
    if scans == [] then Success([])
    else
      match DecodeRows(scans[..|scans| - 1], serializer, parseTime)
      case Failure(e) => Failure(e)
      case Success(events) =>
        match DecodeRow(scans[|scans| - 1], serializer, parseTime)
        case Failure(e) => Failure(e)
        case Success(None) => Success(events)
        case Success(Some(event)) => Success(events + [event])
  }

  /** `eventsFromRows`: walks the cursor, skipping unregistered rows, and
      returns no events at all on any error, including the cursor's final one. */
  method EventsFromRows<D>(scans: seq<RowRead>, rowsErr: Option<Error>, serializer: Serializer<D>,
                           parseTime: string -> Result<Timestamp>) returns (r: Result<seq<Event<D>>>)
    ensures DecodeRows(scans, serializer, parseTime).Failure? ==> r == DecodeRows(scans, serializer, parseTime)
    ensures DecodeRows(scans, serializer, parseTime).Success? ==>
      r == if rowsErr.Some? then Failure(rowsErr.value) else DecodeRows(scans, serializer, parseTime)
  {
    var events: seq<Event<D>> := [];
    var i := 0;
    while i < |scans|
      invariant 0 <= i <= |scans|
      invariant DecodeRows(scans[..i], serializer, parseTime) == Success(events)
    {
      assert scans[..i + 1][..i] == scans[..i];
      if scans[i].ScanFailed? {
        PrefixFailure(scans, i + 1, serializer, parseTime);
        return Failure(scans[i].error);
      }
      var row := scans[i].row;
      var t := parseTime(row.timestamp);
      if t.Failure? {
        PrefixFailure(scans, i + 1, serializer, parseTime);
        return Failure(t.error);
      }
      if !serializer.Registered(row.typ, row.reason) {
        i := i + 1;
        continue;
      }
      var eventData := serializer.unmarshalData(row.typ, row.reason, row.data);
      if eventData.Failure? {
        PrefixFailure(scans, i + 1, serializer, parseTime);
        return Failure(eventData.error);
      }
      var eventMetadata: Option<Metadata> := None;
      if row.metadata != [] {
        var m := serializer.unmarshalMetadata(row.metadata);
        if m.Failure? {
          PrefixFailure(scans, i + 1, serializer, parseTime);
          return Failure(m.error);
        }
        eventMetadata := Some(m.value);
      }
      events := events + [Event(row.id, row.version, row.globalVersion, row.typ, t.value, eventData.value, eventMetadata)];
      i := i + 1;
    }
    assert scans[..i] == scans;
    if rowsErr.Some? {
      return Failure(rowsErr.value);
    }
    return Success(events);
  }

  /** A failure in a prefix of the rows is the failure of all of them. */
  lemma {:induction false} PrefixFailure<D>(scans: seq<RowRead>, i: nat, serializer: Serializer<D>, parseTime: string -> Result<Timestamp>)
    requires i <= |scans|
    requires DecodeRows(scans[..i], serializer, parseTime).Failure?
    ensures DecodeRows(scans, serializer, parseTime) == DecodeRows(scans[..i], serializer, parseTime)
    decreases |scans|
  {
    if i < |scans| {
      assert scans[..|scans| - 1][..i] == scans[..i];
      PrefixFailure(scans[..|scans| - 1], i, serializer, parseTime);
    } else {
      assert scans[..i] == scans;
    }
  }

  /** The scanned rows whose (aggregate type, reason) the registry knows, in order. */
  function KeptRows<D>(scans: seq<RowRead>, serializer: Serializer<D>): seq<ScannedRow> {
    if scans == [] then []
    else
      var last := scans[|scans| - 1];
      KeptRows(scans[..|scans| - 1], serializer) +
      (if last.Scanned? && serializer.Registered(last.row.typ, last.row.reason) then [last.row] else [])
  }

  /** Event `e` is what row `r` decodes to: the same key columns, the
      GlobalVersion taken from the row's sequence number, and data,
      metadata and timestamp that decode from the stored ones. */
  ghost predicate DecodedFrom<D>(e: Event<D>, r: ScannedRow, serializer: Serializer<D>, parseTime: string -> Result<Timestamp>) {
    && e.aggregateID == r.id
    && e.version == r.version
    && e.globalVersion == r.globalVersion
    && e.aggregateType == r.typ
    && parseTime(r.timestamp) == Success(e.timestamp)
    && serializer.unmarshalData(r.typ, r.reason, r.data) == Success(e.data)
    && (e.metadata.None? <==> r.metadata == [])
    && (e.metadata.Some? ==> serializer.unmarshalMetadata(r.metadata) == Success(e.metadata.value))
  }

  /** A successful decode yields exactly one event per registered row, in
      row order, each decoded from its row. */
  lemma {:induction false} DecodeRowsKeepsRegistered<D>(scans: seq<RowRead>, serializer: Serializer<D>,
                                                       parseTime: string -> Result<Timestamp>)
    requires DecodeRows(scans, serializer, parseTime).Success?
    ensures var events := DecodeRows(scans, serializer, parseTime).value;
      |events| == |KeptRows(scans, serializer)| &&
      forall i | 0 <= i < |events| :: DecodedFrom(events[i], KeptRows(scans, serializer)[i], serializer, parseTime)
  {
    if scans != [] {
      var init := scans[..|scans| - 1];
      DecodeRowsKeepsRegistered(init, serializer, parseTime);
    }
  }

  /** Decoding fails exactly when some row fails, and then with the error
      of the first row that fails. */
  lemma {:induction false} DecodeRowsFailure<D>(scans: seq<RowRead>, serializer: Serializer<D>,
                                               parseTime: string -> Result<Timestamp>)
    ensures DecodeRows(scans, serializer, parseTime).Failure? <==>
      exists k | 0 <= k < |scans| :: DecodeRow(scans[k], serializer, parseTime).Failure?
    ensures DecodeRows(scans, serializer, parseTime).Failure? ==>
      exists k | 0 <= k < |scans| ::
        && DecodeRow(scans[k], serializer, parseTime) == Failure(DecodeRows(scans, serializer, parseTime).error)
        && forall j | 0 <= j < k :: DecodeRow(scans[j], serializer, parseTime).Success?
  {
    if scans != [] {
      var init := scans[..|scans| - 1];
      DecodeRowsFailure(init, serializer, parseTime);
      assert forall k | 0 <= k < |init| :: init[k] == scans[k];
    }
  }

  /** The columns `eventsFromRows` scans back from a stored row. */
  function Select(row: Row): ScannedRow {
    ScannedRow(row.seqNo, row.id, row.version, row.reason, row.typ, row.timestamp, row.data, row.metadata)
  }

  /** Round trip: an event inserted as a row reads back as itself with its
      row id as GlobalVersion and its timestamp as the stored text parses
      back (RFC 3339 keeps whole seconds), when the serializer round-trips,
      its (type, reason) is registered, and its metadata, if any, does not
      encode to the empty string (which reads back as nil). */
  lemma InsertThenDecode<D>(e: Event<D>, index: nat, seqNo: nat, serializer: Serializer<D>, db: Database,
                            formatTime: Timestamp -> string, parseTime: string -> Result<Timestamp>)
    requires InsertRow(e, index, seqNo, serializer, db, formatTime).Success?
    requires parseTime(formatTime(e.timestamp)).Success?
    requires serializer.Registered(e.aggregateType, serializer.reason(e.data))
    requires serializer.unmarshalData(e.aggregateType, serializer.reason(e.data), serializer.marshalData(e.data).value) == Success(e.data)
    requires e.metadata.Some? ==>
      serializer.marshalMetadata(e.metadata.value).value != [] &&
      serializer.unmarshalMetadata(serializer.marshalMetadata(e.metadata.value).value) == Success(e.metadata.value)
    ensures DecodeRow(Scanned(Select(InsertRow(e, index, seqNo, serializer, db, formatTime).value)), serializer, parseTime)
         == Success(Some(e.(globalVersion := seqNo, timestamp := parseTime(formatTime(e.timestamp)).value)))
  {
  }
}
