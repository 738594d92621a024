/** The bbolt iterator: a read transaction over one aggregate's bucket,
    walked with a cursor that is opened on the first `Next`. A bucket is
    its entries in ascending key order; a cursor is the index of the entry
    it stands on, the number of entries once it has run past the end. */
module Bbolt {
  import opened EventSourcing

  /** One key/value pair of a bucket; the 8-byte big-endian key is read as a number. */
  datatype Entry = Entry(key: nat, obj: Bytes)

  /** `boltEvent`, the record stored under each key. */
  datatype StoredEvent = StoredEvent(
    aggregateID: string,
    version: nat,
    globalVersion: nat,
    reason: string,
    aggregateType: string,
    timestamp: Timestamp,
    data: Bytes,
    metadata: Option<Metadata>)

  /** bbolt keeps a bucket's keys unique and in ascending order. */
  ghost predicate SortedKeys(entries: seq<Entry>) {
    forall i, j | 0 <= i < j < |entries| :: entries[i].key < entries[j].key
  }

  /** `Cursor.Seek`: the index of the first entry whose key is at least
      `target`, or the number of entries when there is none. */
  function Seek(entries: seq<Entry>, target: nat): (j: nat)
    ensures j <= |entries|
    ensures forall k | 0 <= k < j :: entries[k].key < target
    ensures j < |entries| ==> entries[j].key >= target
  {
    if entries == [] then 0
    else if entries[0].key >= target then 0
    else
      var j := 1 + Seek(entries[1..], target);
      assert forall k | 1 <= k < j :: entries[k] == entries[1..][k - 1];
      j
  }

  /** In a sorted bucket every entry from the seek position on has a key at least `target`. */
  lemma {:induction false} SeekFindsFirst(entries: seq<Entry>, target: nat)
    requires SortedKeys(entries)
    ensures forall k | Seek(entries, target) <= k < |entries| :: entries[k].key >= target
  {
    var j := Seek(entries, target);
    forall k | j <= k < |entries|
      ensures entries[k].key >= target
    {
      assert j < |entries| && entries[j].key >= target;
      assert j == k || entries[j].key < entries[k].key;
    }
  }

  /** The cursor's `Next` from index `j`: one step on, or stay past the end. */
  function Advance(j: nat, n: nat): nat
    requires j <= n
  {
    if j < n then j + 1 else n
  }

  class Iterator<D> {
    /** The transaction's bucket for this aggregate; None when it does not exist. */
    const bucket: Option<seq<Entry>>
    const firstEventIndex: nat
    const serializer: Serializer<D>
    /** The serializer's decoding of a stored record. */
    const decodeRecord: Bytes -> Result<StoredEvent>
    /** None until the first `Next` opens it. */
    var cursor: Option<nat>

    ghost predicate Valid()
      reads this
    {
      && (bucket.Some? ==> SortedKeys(bucket.value))
      && (cursor.Some? ==> bucket.Some? && Seek(bucket.value, firstEventIndex) <= cursor.value <= |bucket.value|)
    }

    constructor (bucket: Option<seq<Entry>>, firstEventIndex: nat, serializer: Serializer<D>,
                 decodeRecord: Bytes -> Result<StoredEvent>)
      requires bucket.Some? ==> SortedKeys(bucket.value)
      ensures Valid() && cursor.None?
      ensures this.bucket == bucket && this.firstEventIndex == firstEventIndex
      ensures this.serializer == serializer && this.decodeRecord == decodeRecord
    {
      this.bucket := bucket;
      this.firstEventIndex := firstEventIndex;
      this.serializer := serializer;
      this.decodeRecord := decodeRecord;
      cursor := None;
    }

    /** An entry that decodes to a record whose (type, reason) is not registered: `Next` passes over it. */
    predicate Skipped(entry: Entry) {
      var stored := decodeRecord(entry.obj);
      stored.Success? && !serializer.Registered(stored.value.aggregateType, stored.value.reason)
    }

    /** What `Next` returns for an entry it does not skip: the record's
        fields with the data decoded, or the failing decode's error. */
    function Answer(entry: Entry): (r: Result<Event<D>>)
      ensures decodeRecord(entry.obj).Failure? ==>
        r == Failure(Wrapped("could not deserialize event", decodeRecord(entry.obj).error))
      ensures decodeRecord(entry.obj).Success? ==>
        var rec := decodeRecord(entry.obj).value;
        var data := serializer.unmarshalData(rec.aggregateType, rec.reason, rec.data);
        && (data.Failure? ==> r == Failure(Wrapped("could not deserialize event data", data.error)))
        && (data.Success? ==>
              && r.Success? && r.value.data == data.value
              && r.value.aggregateID == rec.aggregateID && r.value.aggregateType == rec.aggregateType
              && r.value.version == rec.version && r.value.globalVersion == rec.globalVersion
              && r.value.timestamp == rec.timestamp && r.value.metadata == rec.metadata)
    {
      match decodeRecord(entry.obj)
      case Failure(e) => Failure(Wrapped("could not deserialize event", e))
      case Success(rec) =>
        match serializer.unmarshalData(rec.aggregateType, rec.reason, rec.data)
        case Failure(e) => Failure(Wrapped("could not deserialize event data", e))
        case Success(data) =>
          Success(Event(rec.aggregateID, rec.version, rec.globalVersion, rec.aggregateType, rec.timestamp, data, rec.metadata))
    }

    /** Entries the cursor can still reach, plus one for the pending seek. */
    function Remaining(): nat
      reads this
      requires Valid()
    {
      if bucket.None? then 0
      else if cursor.None? then |bucket.value| + 1
      else |bucket.value| - cursor.value
    }

    /** `iterator.Next`. The first call seeks to `firstEventIndex`, later
        calls step the cursor once; then entries that are skipped are
        stepped over, and the entry the cursor stops on is answered. With no
        bucket, or past the last entry, there are no more events. */
    method Next() returns (r: Result<Event<D>>)
      requires Valid()
      modifies this
      ensures Valid()
      ensures bucket.None? ==> cursor.None? && r == Failure(ErrNoMoreEvents)
      ensures bucket.Some? ==>
        var entries := bucket.value;
        var from := if old(cursor).None? then Seek(entries, firstEventIndex) else Advance(old(cursor).value, |entries|);
        && cursor.Some? && from <= cursor.value <= |entries|
        && (forall k | from <= k < cursor.value :: Skipped(entries[k]))
        && (cursor.value == |entries| ==> r == Failure(ErrNoMoreEvents))
        && (cursor.value < |entries| ==> !Skipped(entries[cursor.value]) && r == Answer(entries[cursor.value]))
      decreases Remaining()
    {
      var j: nat;
      if cursor.None? {
        if bucket.None? {
          return Failure(ErrNoMoreEvents);
        }
        j := Seek(bucket.value, firstEventIndex);
        cursor := Some(j);
        if j == |bucket.value| {
          return Failure(ErrNoMoreEvents);
        }
      } else {
        j := Advance(cursor.value, |bucket.value|);
        cursor := Some(j);
      }
      var entries := bucket.value;
      if j == |entries| {
        return Failure(ErrNoMoreEvents);
      }
      var stored := decodeRecord(entries[j].obj);
      if stored.Failure? {
        return Failure(Wrapped("could not deserialize event", stored.error));
      }
      var rec := stored.value;
      if !serializer.Registered(rec.aggregateType, rec.reason) {
        r := Next();
        return;
      }
      var eventData := serializer.unmarshalData(rec.aggregateType, rec.reason, rec.data);
      if eventData.Failure? {
        return Failure(Wrapped("could not deserialize event data", eventData.error));
      }
      return Success(Event(rec.aggregateID, rec.version, rec.globalVersion, rec.aggregateType, rec.timestamp,
                           eventData.value, rec.metadata));
    }

    /** Every event the iterator yields was stored under a key at least
        `firstEventIndex`. */
    lemma DeliveredFromFirstIndex()
      requires Valid() && cursor.Some? && cursor.value < |bucket.value|
      ensures bucket.value[cursor.value].key >= firstEventIndex
    {
      SeekFindsFirst(bucket.value, firstEventIndex);
    }
  }
}
