/** The EventStoreDB store: one stream per aggregate, named
    `aggregateType-aggregateID`. The database client is outside the model;
    its answers (the append's commit position, the records a read
    delivers) are parameters. */
module Esdb {
  import opened EventSourcing

  const StreamSeparator: char := '-'

  /** The stream that holds an aggregate's events. */
  function Stream(aggregateType: string, aggregateID: string): (s: string)
    ensures |s| == |aggregateType| + 1 + |aggregateID|
    ensures s[..|aggregateType|] == aggregateType && s[|aggregateType|] == StreamSeparator
    ensures s[|aggregateType| + 1..] == aggregateID
  {
    aggregateType + [StreamSeparator] + aggregateID
  }

  /** The position of the first `c` in `s`. */
  function IndexOf(s: string, c: char): (i: nat)
    requires c in s
    ensures i < |s| && s[i] == c && c !in s[..i]
  {
    if s[0] == c then 0
    else
      var i := 1 + IndexOf(s[1..], c);
      assert s[..i] == [s[0]] + s[1..][..i - 1];
      i
  }

  /** Go's `strings.Split` for a one-character separator: the pieces of `s`
      between the separators, from left to right. */
  function Split(s: string, sep: char): (parts: seq<string>)
    ensures |parts| >= 1
    decreases |s|
  {
    if sep !in s then [s]
    else
      var i := IndexOf(s, sep);
      [s[..i]] + Split(s[i + 1..], sep)
  }

  /** The pieces glued back with the separator between them. */
  function Join(parts: seq<string>, sep: char): string
    requires |parts| >= 1
  {
    if |parts| == 1 then parts[0] else parts[0] + [sep] + Join(parts[1..], sep)
  }

  /** Splitting loses nothing: the pieces hold no separator and join back to `s`. */
  lemma {:induction false} SplitJoin(s: string, sep: char)
    ensures Join(Split(s, sep), sep) == s
    ensures forall k | 0 <= k < |Split(s, sep)| :: sep !in Split(s, sep)[k]
    decreases |s|
  {
    if sep in s {
      var i := IndexOf(s, sep);
      var rest := Split(s[i + 1..], sep);
      SplitJoin(s[i + 1..], sep);
      assert ([s[..i]] + rest)[1..] == rest;
      assert s[..i] + [sep] + s[i + 1..] == s;
    }
  }

  /** The stream name splits into the type followed by the pieces of the ID,
      as long as the type holds no separator. */
  lemma StreamSplit(aggregateType: string, aggregateID: string)
    requires StreamSeparator !in aggregateType
    ensures Split(Stream(aggregateType, aggregateID), StreamSeparator) ==
            [aggregateType] + Split(aggregateID, StreamSeparator)
  {
    var s := Stream(aggregateType, aggregateID);
    assert s[|aggregateType|] == StreamSeparator;
    assert s[..|aggregateType|] == aggregateType;
    assert IndexOf(s, StreamSeparator) == |aggregateType|;
    assert s[|aggregateType| + 1..] == aggregateID;
  }

  /** The iterator recovers type and ID from the stream name when neither holds a separator. */
  lemma StreamNameRoundTrip(aggregateType: string, aggregateID: string)
    requires StreamSeparator !in aggregateType && StreamSeparator !in aggregateID
    ensures Split(Stream(aggregateType, aggregateID), StreamSeparator) == [aggregateType, aggregateID]
  {
    StreamSplit(aggregateType, aggregateID);
  }

  /** An ID that holds a separator comes back cut at its first separator. */
  lemma DashedIDIsCut(aggregateType: string, aggregateID: string)
    requires StreamSeparator !in aggregateType && StreamSeparator in aggregateID
    ensures var parts := Split(Stream(aggregateType, aggregateID), StreamSeparator);
      |parts| >= 3 && parts[0] == aggregateType &&
      parts[1] == aggregateID[..IndexOf(aggregateID, StreamSeparator)] && parts[1] != aggregateID
  {
    StreamSplit(aggregateType, aggregateID);
  }

  /** A type that holds a separator comes back cut at its first separator. */
  lemma DashedTypeIsCut(aggregateType: string, aggregateID: string)
    requires StreamSeparator in aggregateType
    ensures var parts := Split(Stream(aggregateType, aggregateID), StreamSeparator);
      parts[0] == aggregateType[..IndexOf(aggregateType, StreamSeparator)] && parts[0] != aggregateType
  {
    var s := Stream(aggregateType, aggregateID);
    var i := IndexOf(aggregateType, StreamSeparator);
    assert s[..|aggregateType|] == aggregateType;
    assert s[..i] == aggregateType[..i];
    assert IndexOf(s, StreamSeparator) == i;
  }

  /** The version an event read back from the stream gets: event numbers
      start at 0, versions at 1. */
  function EventVersion(eventNumber: nat): nat {
    eventNumber + 1
  }

  /** The append's optimistic-concurrency option; `Unset` is the zero value
      the client treats as "any revision". */
  datatype ExpectedRevision = Unset | NoStream | StreamRevision(value: nat)

  /** The expected revision for a batch whose first event has `version`: the
      event number of the event just before it, no stream at all for a
      first event, and no expectation for version 0. */
  function ExpectedRevisionFor(version: nat): (r: ExpectedRevision)
    ensures r.Unset? <==> version == 0
    ensures r.NoStream? <==> version == 1
    ensures r.StreamRevision? ==> EventVersion(r.value) == version - 1
  {
    if version > 1 then StreamRevision(version - 2)
    else if version == 1 then NoStream
    else Unset
  }

  datatype ContentType = Binary | Json

  /** One event as handed to the append; `metadata` is None where the source leaves it nil. */
  datatype EventData = EventData(contentType: ContentType, eventType: string, data: Bytes, metadata: Option<Bytes>)

  /** One event's encoding: its data, then its metadata only when it has some. */
  function Encode<D>(e: Event<D>, serializer: Serializer<D>, contentType: ContentType): Result<EventData> {
    match serializer.marshalData(e.data)
    case Failure(err) => Failure(err)
    case Success(data) =>
      if e.metadata.None? then Success(EventData(contentType, serializer.reason(e.data), data, None))
      else
        match serializer.marshalMetadata(e.metadata.value)
        case Failure(err) => Failure(err)
        case Success(m) => Success(EventData(contentType, serializer.reason(e.data), data, Some(m)))
  }

  /** The batch's encodings in order, or the error of the first event that fails. */
  function EncodeAll<D>(events: seq<Event<D>>, serializer: Serializer<D>, contentType: ContentType): Result<seq<EventData>> {
    if events == [] then Success([])
    else
      match EncodeAll(events[..|events| - 1], serializer, contentType)
      case Failure(err) => Failure(err)
      case Success(init) =>
        match Encode(events[|events| - 1], serializer, contentType)
        case Failure(err) => Failure(err)
        case Success(last) => Success(init + [last])
  }

  /** A successful batch encoding holds each event's encoding at its place. */
  lemma {:induction false} EncodeAllSuccess<D>(events: seq<Event<D>>, serializer: Serializer<D>, contentType: ContentType)
    requires EncodeAll(events, serializer, contentType).Success?
    ensures var batch := EncodeAll(events, serializer, contentType).value;
      |batch| == |events| &&
      forall k | 0 <= k < |events| :: Encode(events[k], serializer, contentType) == Success(batch[k])
  {
    if events != [] {
      var init := events[..|events| - 1];
      EncodeAllSuccess(init, serializer, contentType);
    }
  }

  /** The batch encoding fails exactly when some event's does, with the
      error of the first such event. */
  lemma {:induction false} EncodeAllFailure<D>(events: seq<Event<D>>, serializer: Serializer<D>, contentType: ContentType)
    ensures EncodeAll(events, serializer, contentType).Failure? <==>
      exists k | 0 <= k < |events| :: Encode(events[k], serializer, contentType).Failure?
    ensures EncodeAll(events, serializer, contentType).Failure? ==>
      exists k | 0 <= k < |events| ::
        && Encode(events[k], serializer, contentType) == Failure(EncodeAll(events, serializer, contentType).error)
        && forall j | 0 <= j < k :: Encode(events[j], serializer, contentType).Success?
  {
    if events != [] {
      var init := events[..|events| - 1];
      EncodeAllFailure(init, serializer, contentType);
      assert forall k | 0 <= k < |init| :: init[k] == events[k];
    }
  }

  /** The encoding loop of `ESDB.Save`: fills the batch for the append
      event by event, stopping at the first event that fails to encode. */
  method EncodeEvents<D>(events: array<Event<D>>, serializer: Serializer<D>, contentType: ContentType)
    returns (r: Result<seq<EventData>>)
    ensures r == EncodeAll(events[..], serializer, contentType)
  {
    var esdbEvents := new EventData[events.Length](_ => EventData(Binary, "", [], None));
    var i := 0;
    while i < events.Length
      invariant 0 <= i <= events.Length
      invariant EncodeAll(events[..i], serializer, contentType) == Success(esdbEvents[..i])
    {
      assert events[..i + 1][..i] == events[..i];
      var event := events[i];
      var e := serializer.marshalData(event.data);
      if e.Failure? {
        PrefixEncodeFailure(events[..], i + 1, serializer, contentType);
        return Failure(e.error);
      }
      var m: Option<Bytes> := None;
      if event.metadata.Some? {
        var encodedMetadata := serializer.marshalMetadata(event.metadata.value);
        if encodedMetadata.Failure? {
          PrefixEncodeFailure(events[..], i + 1, serializer, contentType);
          return Failure(encodedMetadata.error);
        }
        m := Some(encodedMetadata.value);
      }
      esdbEvents[i] := EventData(contentType, serializer.reason(event.data), e.value, m);
      assert esdbEvents[..i + 1] == esdbEvents[..i] + [esdbEvents[i]];
      i := i + 1;
    }
    assert events[..i] == events[..] && esdbEvents[..i] == esdbEvents[..];
    return Success(esdbEvents[..]);
  }

  /** The stamping loop of `ESDB.Save`: every event of the batch gets the
      same GlobalVersion, the append's commit position. */
  method StampAll<D>(events: array<Event<D>>, commitPosition: nat)
    modifies events
    ensures forall k | 0 <= k < events.Length :: events[k] == old(events[k]).(globalVersion := commitPosition)
  {
    var i := 0;
    while i < events.Length
      invariant 0 <= i <= events.Length
      invariant forall k | 0 <= k < i :: events[k] == old(events[k]).(globalVersion := commitPosition)
      invariant forall k | i <= k < events.Length :: events[k] == old(events[k])
    {
      events[i] := events[i].(globalVersion := commitPosition);
      i := i + 1;
    }
  }

  /** The client's append: the stream, the expected revision and the
      encoded batch, answered with the commit position or an error. */
  type Append = (string, ExpectedRevision, seq<EventData>) -> Result<nat>

  /** `ESDB.Save`. Validates the batch, encodes it, appends it to the
      aggregate's stream with the expected revision the first event's
      version calls for, and on success sets every event's GlobalVersion to
      the append's commit position. Any error leaves the events untouched. */
  method Save<D>(events: array<Event<D>>, serializer: Serializer<D>, contentType: ContentType,
                 validate: NoVersionCheckValidator<D>, append: Append) returns (err: Option<Error>)
    modifies events
    ensures events.Length == 0 ==> err == None && unchanged(events)
    ensures events.Length > 0 ==>
      var first := old(events[0]);
      var verdict := validate(first.aggregateID, old(events[..]));
      var encoded := EncodeAll(old(events[..]), serializer, contentType);
      if verdict.Some? then err == verdict && unchanged(events)
      else if encoded.Failure? then err == Some(encoded.error) && unchanged(events)
      else
        var appended := append(Stream(first.aggregateType, first.aggregateID), ExpectedRevisionFor(first.version), encoded.value);
        if appended.Failure? then err == Some(appended.error) && unchanged(events)
        else err == None && forall k | 0 <= k < events.Length :: events[k] == old(events[k]).(globalVersion := appended.value)
  {
    if events.Length == 0 {
      return None;
    }
    var aggregateID := events[0].aggregateID;
    var aggregateType := events[0].aggregateType;
    var version := events[0].version;
    var stream := Stream(aggregateType, aggregateID);

    err := validate(aggregateID, events[..]);
    if err.Some? {
      return err;
    }

    var encoded := EncodeEvents(events, serializer, contentType);
    if encoded.Failure? {
      return Some(encoded.error);
    }
    var expected := ExpectedRevisionFor(version);
    var appended := append(stream, expected, encoded.value);
    if appended.Failure? {
      return Some(appended.error);
    }
    StampAll(events, appended.value);
    return None;
  }

  /** A failure in encoding a prefix of the batch is the failure of the whole batch. */
  lemma {:induction false} PrefixEncodeFailure<D>(events: seq<Event<D>>, i: nat, serializer: Serializer<D>, contentType: ContentType)
    requires i <= |events|
    requires EncodeAll(events[..i], serializer, contentType).Failure?
    ensures EncodeAll(events, serializer, contentType) == EncodeAll(events[..i], serializer, contentType)
    decreases |events|
  {
    if i < |events| {
      assert events[..|events| - 1][..i] == events[..i];
      PrefixEncodeFailure(events[..|events| - 1], i, serializer, contentType);
    } else {
      assert events[..i] == events;
    }
  }

  /** A record of a stream as the client delivers it. */
  datatype Record = Record(
    streamID: string,
    eventType: string,
    eventNumber: nat,
    created: Timestamp,
    data: Bytes,
    userMetadata: Option<Bytes>)

  /** One answer of the stream's `Recv`. */
  datatype Received =
    | Delivered(record: Record)
    | EndOfStream
    | NotFoundError
    | RecvError(cause: Error)

  /** The aggregate type a record's stream name gives. */
  function TypeOf(rec: Record): string {
    Split(rec.streamID, StreamSeparator)[0]
  }

  /** A record whose (type, event type) the registry does not know: `Next` passes over it. */
  predicate Skipped<D>(item: Received, serializer: Serializer<D>) {
    item.Delivered? && !serializer.Registered(TypeOf(item.record), item.record.eventType)
  }

  /** The event a registered record yields: type and ID from the stream
      name, version from the event number, GlobalVersion left at zero;
      data decoded, then metadata when present. A stream name without a
      separator has no ID part, which fails as an index out of range. */
  function Convert<D>(rec: Record, serializer: Serializer<D>): (r: Result<Event<D>>)
    ensures var parts := Split(rec.streamID, StreamSeparator);
      var data := serializer.unmarshalData(parts[0], rec.eventType, rec.data);
      && (data.Failure? ==> r == Failure(data.error))
      && (data.Success? && rec.userMetadata.Some? && serializer.unmarshalMetadata(rec.userMetadata.value).Failure? ==>
            r == Failure(serializer.unmarshalMetadata(rec.userMetadata.value).error))
      && (|parts| < 2 ==> r.Failure?)
      && ((data.Success? && (rec.userMetadata.Some? ==> serializer.unmarshalMetadata(rec.userMetadata.value).Success?) &&
           |parts| >= 2) ==> r.Success?)
      && (r.Success? ==>
            && |parts| >= 2 && r.value.aggregateType == parts[0] && r.value.aggregateID == parts[1]
            && r.value.version == EventVersion(rec.eventNumber) && r.value.globalVersion == 0
            && r.value.timestamp == rec.created && data == Success(r.value.data)
            && (r.value.metadata.None? <==> rec.userMetadata.None?)
            && (rec.userMetadata.Some? ==>
                  serializer.unmarshalMetadata(rec.userMetadata.value) == Success(r.value.metadata.value)))
  {
    var stream := Split(rec.streamID, StreamSeparator);
    match serializer.unmarshalData(stream[0], rec.eventType, rec.data)
    case Failure(e) => Failure(e)
    case Success(data) =>
      var metadata := if rec.userMetadata.Some? then serializer.unmarshalMetadata(rec.userMetadata.value) else Success(map[]);
      if metadata.Failure? then Failure(metadata.error)
      else if |stream| < 2 then Failure(IndexOutOfRange)
      else
        var m := if rec.userMetadata.Some? then Some(metadata.value) else None;
        Success(Event(stream[1], EventVersion(rec.eventNumber), 0, stream[0], rec.created, data, m))
  }

  /** What `Next` returns for the first item it does not skip: the end of
      the stream and a missing stream both read as "no more events". */
  function Answer<D>(item: Received, serializer: Serializer<D>): Result<Event<D>> {
    match item
    case EndOfStream => Failure(ErrNoMoreEvents)
    case NotFoundError => Failure(ErrNoMoreEvents)
    case RecvError(e) => Failure(e)
    case Delivered(rec) => Convert(rec, serializer)
  }

  /** The iterator over one read: the items the stream's `Recv` returns in
      turn, and how many it has consumed. A `Recv` past the last item
      answers end of stream. */
  class Iterator<D> {
    const received: seq<Received>
    const serializer: Serializer<D>
    var position: nat

    constructor (received: seq<Received>, serializer: Serializer<D>)
      ensures this.received == received && this.serializer == serializer && position == 0
    {
      this.received := received;
      this.serializer := serializer;
      position := 0;
    }

    /** `iterator.Next`: consumes the run of skipped records, then one more
        item, and returns that item's answer; with nothing left, "no more events". */
    method Next() returns (r: Result<Event<D>>)
      modifies this
      ensures old(position) <= position
      ensures position == old(position) || position <= |received|
      ensures forall j | old(position) <= j < position - 1 :: Skipped(received[j], serializer)
      ensures position == old(position) ==> old(position) >= |received| && r == Failure(ErrNoMoreEvents)
      ensures position > old(position) && !Skipped(received[position - 1], serializer) ==>
        r == Answer(received[position - 1], serializer)
      ensures position > old(position) && Skipped(received[position - 1], serializer) ==>
        position == |received| && r == Failure(ErrNoMoreEvents)
      ensures r.Success? ==> 0 < position <= |received| && r == Answer(received[position - 1], serializer)
      decreases |received| - position
    {
      if position >= |received| {
        return Failure(ErrNoMoreEvents);
      }
      var item := received[position];
      position := position + 1;
      match item {
        case EndOfStream =>
          return Failure(ErrNoMoreEvents);
        case NotFoundError =>
          return Failure(ErrNoMoreEvents);
        case RecvError(e) =>
          return Failure(e);
        case Delivered(rec) =>
          var stream := Split(rec.streamID, StreamSeparator);
          if !serializer.Registered(stream[0], rec.eventType) {
            r := Next();
            return;
          }
          var eventData := serializer.unmarshalData(stream[0], rec.eventType, rec.data);
          if eventData.Failure? {
            return Failure(eventData.error);
          }
          var eventMetadata: Option<Metadata> := None;
          if rec.userMetadata.Some? {
            var m := serializer.unmarshalMetadata(rec.userMetadata.value);
            if m.Failure? {
              return Failure(m.error);
            }
            eventMetadata := Some(m.value);
          }
          if |stream| < 2 {
            return Failure(IndexOutOfRange);
          }
          return Success(Event(stream[1], EventVersion(rec.eventNumber), 0, stream[0], rec.created,
                               eventData.value, eventMetadata));
      }
    }

    /** A read from revision `afterVersion` delivers records numbered from
        `afterVersion` on; then every event `Next` yields, the answer to the
        item at `position - 1`, is newer than `afterVersion`. */
    lemma DeliveredAfter(afterVersion: nat, position: nat)
      requires forall j | 0 <= j < |received| :: received[j].Delivered? ==> received[j].record.eventNumber >= afterVersion
      requires 0 < position <= |received| && Answer(received[position - 1], serializer).Success?
      ensures Answer(received[position - 1], serializer).value.version > afterVersion
    {
    }
  }

  /** The client's read: the stream and the start revision, answered with
      the stream's items or an error, flagged when it means the stream
      does not exist. */
  datatype ReadOutcome = Opened(items: seq<Received>) | ReadFailed(notFound: bool, cause: Error)

  /** `ESDB.Get`: reads the aggregate's stream from revision `afterVersion`.
      A missing stream is "no events", any other read error is returned,
      and a context already done discards the opened stream. */
  method Get<D>(id: string, aggregateType: string, afterVersion: nat, serializer: Serializer<D>,
                read: (string, nat) -> ReadOutcome, ctxErr: Option<Error>) returns (r: Result<Iterator<D>>)
    ensures match read(Stream(aggregateType, id), afterVersion)
      case ReadFailed(notFound, e) => r == Failure(if notFound then ErrNoEvents else e)
      case Opened(items) =>
        if ctxErr.Some? then r == Failure(ctxErr.value)
        else r.Success? && fresh(r.value) && r.value.received == items && r.value.position == 0 &&
             r.value.serializer == serializer
  {
    var streamID := Stream(aggregateType, id);
    var outcome := read(streamID, afterVersion);
    if outcome.ReadFailed? {
      if outcome.notFound {
        return Failure(ErrNoEvents);
      }
      return Failure(outcome.cause);
    } else if ctxErr.Some? {
      return Failure(ctxErr.value);
    }
    var it := new Iterator(outcome.items, serializer);
    return Success(it);
  }

  /** The record the database stores for an appended event, numbered
      `eventNumber` in the aggregate's stream. */
  function Stored(e: EventData, aggregateType: string, aggregateID: string, eventNumber: nat, created: Timestamp): Record {
    Record(Stream(aggregateType, aggregateID), e.eventType, eventNumber, created, e.data, e.metadata)
  }

  /** Round trip: an event saved at its place in its stream (event number
      Version - 1) and stamped `created` by the database reads back as
      itself with GlobalVersion zero and that creation time, when the
      serializer round-trips, the (type, reason) is registered, and neither
      the type nor the ID holds the separator. */
  lemma SaveThenRead<D>(e: Event<D>, serializer: Serializer<D>, contentType: ContentType, created: Timestamp)
    requires e.version >= 1
    requires StreamSeparator !in e.aggregateType && StreamSeparator !in e.aggregateID
    requires Encode(e, serializer, contentType).Success?
    requires serializer.Registered(e.aggregateType, serializer.reason(e.data))
    requires serializer.unmarshalData(e.aggregateType, serializer.reason(e.data), serializer.marshalData(e.data).value) == Success(e.data)
    requires e.metadata.Some? ==>
      serializer.unmarshalMetadata(serializer.marshalMetadata(e.metadata.value).value) == Success(e.metadata.value)
    ensures var rec := Stored(Encode(e, serializer, contentType).value, e.aggregateType, e.aggregateID, e.version - 1, created);
      !Skipped(Delivered(rec), serializer) && Convert(rec, serializer) == Success(e.(globalVersion := 0, timestamp := created))
  {
    StreamNameRoundTrip(e.aggregateType, e.aggregateID);
  }
}
