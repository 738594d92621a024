/** The in-memory event store: one bucket of events per aggregate, keyed by
    aggregate type and ID, and one list of all events in global commit order.
    Each store method runs as one atomic step (the source serialises them
    with a mutex). */
module MemoryStore {
  import opened EventSourcing

  newtype uint64 = x: int | 0 <= x < 0x1_0000_0000_0000_0000

  /** The bucket name of an aggregate. */
  function AggregateKey(aggregateType: string, aggregateID: string): (k: string)
    ensures |k| == |aggregateType| + 1 + |aggregateID|
    ensures k[..|aggregateType|] == aggregateType && k[|aggregateType|] == '_' && k[|aggregateType| + 1..] == aggregateID
  {
    aggregateType + "_" + aggregateID
  }

  /** Two aggregates share a bucket only if they are the same aggregate,
      provided the aggregate type holds no '_'. */
  lemma {:induction false} AggregateKeyInjective(t1: string, id1: string, t2: string, id2: string)
    requires '_' !in t1 && '_' !in t2
    requires AggregateKey(t1, id1) == AggregateKey(t2, id2)
    ensures t1 == t2 && id1 == id2
  {
    var k := AggregateKey(t1, id1);
    assert k[|t1|] == '_';
    assert k[|t2|] == '_';
    assert |t1| == |t2|;
    assert t1 == k[..|t1|] == t2;
    assert id1 == k[|t1| + 1..] == id2;
  }

  /** An aggregate type holding '_' can share its bucket with another aggregate. */
  lemma AggregateKeyCollision(t: string, x: string, id: string)
    ensures AggregateKey(t + "_" + x, id) == AggregateKey(t, x + "_" + id)
  {
    assert (t + "_" + x) + "_" + id == t + "_" + (x + "_" + id);
  }

  /** The events stored for `key`; an absent key reads as an empty bucket. */
  function BucketOf<D>(buckets: map<string, seq<Event<D>>>, key: string): seq<Event<D>> {
    if key in buckets then buckets[key] else []
  }

  /** The version of the bucket's last event, or 0 for an empty bucket. */
  function CurrentVersion<D>(bucket: seq<Event<D>>): nat {
    if |bucket| > 0 then bucket[|bucket| - 1].version else 0
  }

  /** The batch as committed after `base` events: event i gets GlobalVersion base + i + 1. */
  function Stamped<D>(batch: seq<Event<D>>, base: nat): (r: seq<Event<D>>) {
    seq(|batch|, i requires 0 <= i < |batch| => batch[i].(globalVersion := base + i + 1))
  }

  /** The global list holds GlobalVersions 1, 2, 3, ... in order. */
  ghost predicate Numbered<D>(global: seq<Event<D>>) {
    forall k | 0 <= k < |global| :: global[k].globalVersion == k + 1
  }

  /** Every event of the bucket sits in the global list at its GlobalVersion,
      and the bucket is in ascending GlobalVersion order. */
  ghost predicate InGlobalOrder<D>(bucket: seq<Event<D>>, global: seq<Event<D>>) {
    (forall j | 0 <= j < |bucket| ::
       1 <= bucket[j].globalVersion <= |global| && global[bucket[j].globalVersion - 1] == bucket[j]) &&
    (forall i, j | 0 <= i < j < |bucket| :: bucket[i].globalVersion < bucket[j].globalVersion)
  }

  ghost predicate ValidStore<D>(buckets: map<string, seq<Event<D>>>, global: seq<Event<D>>) {
    Numbered(global) &&
    forall key | key in buckets :: InGlobalOrder(buckets[key], global)
  }

  /** Stamping a batch after the whole global list continues its numbering. */
  lemma NumberedAppend<D>(global: seq<Event<D>>, batch: seq<Event<D>>)
    requires Numbered(global)
    ensures Numbered(global + Stamped(batch, |global|))
  {
    var all := global + Stamped(batch, |global|);
    forall k | 0 <= k < |all| ensures all[k].globalVersion == k + 1 {
      if k >= |global| {
        assert all[k] == Stamped(batch, |global|)[k - |global|];
      }
    }
  }

  /** Growing the global list leaves an existing bucket in global order. */
  lemma BucketKeepsPlace<D>(bucket: seq<Event<D>>, global: seq<Event<D>>, added: seq<Event<D>>)
    requires InGlobalOrder(bucket, global)
    ensures InGlobalOrder(bucket, global + added)
  {
    forall j | 0 <= j < |bucket|
      ensures (global + added)[bucket[j].globalVersion - 1] == bucket[j]
    {
      assert (global + added)[bucket[j].globalVersion - 1] == global[bucket[j].globalVersion - 1];
    }
  }

  /** The bucket that receives the stamped batch stays in global order. */
  lemma {:induction false} BucketGrows<D>(bucket: seq<Event<D>>, global: seq<Event<D>>, batch: seq<Event<D>>)
    requires Numbered(global) && InGlobalOrder(bucket, global)
    ensures InGlobalOrder(bucket + Stamped(batch, |global|), global + Stamped(batch, |global|))
  {
    var added := Stamped(batch, |global|);
    var global' := global + added;
    var b := bucket + added;
    BucketKeepsPlace(bucket, global, added);
    forall j | 0 <= j < |b|
      ensures 1 <= b[j].globalVersion <= |global'| && global'[b[j].globalVersion - 1] == b[j]
    {
      if j < |bucket| {
        assert b[j] == bucket[j];
      } else {
        assert b[j] == added[j - |bucket|];
      }
    }
    forall i, j | 0 <= i < j < |b|
      ensures b[i].globalVersion < b[j].globalVersion
    {
      if j < |bucket| {
        assert b[i] == bucket[i] && b[j] == bucket[j];
      } else if i < |bucket| {
        assert b[i] == bucket[i] && b[j] == added[j - |bucket|];
      } else {
        assert b[i] == added[i - |bucket|] && b[j] == added[j - |bucket|];
      }
    }
  }

  /** Appending a stamped batch to one bucket and to the global list keeps the
      global numbering and keeps every bucket a sub-list of the global list in
      ascending GlobalVersion order. */
  lemma {:induction false} SaveKeepsOrder<D>(buckets: map<string, seq<Event<D>>>, global: seq<Event<D>>, key: string, batch: seq<Event<D>>)
    requires ValidStore(buckets, global)
    ensures ValidStore(buckets[key := BucketOf(buckets, key) + Stamped(batch, |global|)], global + Stamped(batch, |global|))
  {
    var added := Stamped(batch, |global|);
    var buckets' := buckets[key := BucketOf(buckets, key) + added];
    NumberedAppend(global, batch);
    forall k | k in buckets' ensures InGlobalOrder(buckets'[k], global + added) {
      if k == key {
        BucketGrows(BucketOf(buckets, key), global, batch);
      } else {
        BucketKeepsPlace(buckets[k], global, added);
      }
    }
  }

  /** Keeps events with a Version after `afterVersion`. */
  function NewerThan<D>(afterVersion: nat): Event<D> -> bool {
    (e: Event<D>) => e.version > afterVersion
  }

  /** Keeps events with a GlobalVersion of at least `start`. */
  function AtOrAfter<D>(start: nat): Event<D> -> bool {
    (e: Event<D>) => e.globalVersion >= start
  }

  /** The number of events a GlobalEvents page may hold: `count`, except that a
      count of 0 wraps to 2^64 - 1 on its first decrement and so stops only
      after 2^64 events. */
  function PageLimit(count: uint64): nat {
    if count == 0 then 0x1_0000_0000_0000_0000 else count as nat
  }

  /** Where the events with GlobalVersion of at least `start` begin in a
      numbered global list of `n` events. */
  function FirstAtOrAfter(start: nat, n: nat): (d: nat)
    ensures d <= n
  {
    if start <= 1 then 0 else if start - 1 < n then start - 1 else n
  }

  /** Dropping the last event of a numbered list leaves a numbered list; the
      dropped event carries the list's length as GlobalVersion. */
  lemma NumberedInit<D>(global: seq<Event<D>>)
    requires Numbered(global) && global != []
    ensures Numbered(global[..|global| - 1]) && global[|global| - 1].globalVersion == |global|
  {
    var prefix := global[..|global| - 1];
    forall k | 0 <= k < |prefix| ensures prefix[k].globalVersion == k + 1 {
      assert prefix[k] == global[k];
    }
  }

  /** In a numbered global list the events from `start` on are one contiguous
      run that reaches the end of the list. */
  lemma {:induction false} GlobalEventsContiguous<D>(global: seq<Event<D>>, start: nat)
    requires Numbered(global)
    ensures Filter(global, AtOrAfter(start)) == global[FirstAtOrAfter(start, |global|)..]
  {
    if global != [] {
      var n := |global|;
      var prefix := global[..n - 1];
      var last := global[n - 1];
      NumberedInit(global);
      GlobalEventsContiguous(prefix, start);
      var d := FirstAtOrAfter(start, n);
      if n >= start {
        assert FirstAtOrAfter(start, n - 1) == d;
        assert prefix[d..] + [last] == global[d..];
      } else {
        assert FirstAtOrAfter(start, n - 1) == n - 1 && d == n;
      }
    }
  }

  /** The iterator handed out by `Memory.Get`. */
  class MemoryIterator<D> {
    var events: seq<Event<D>>
    var position: nat

    constructor (events: seq<Event<D>>)
      ensures this.events == events && position == 0
    {
      this.events := events;
      position := 0;
    }

    /** Hands out the next event, or ErrNoMoreEvents on every call once all are handed out. */
    method Next() returns (r: Result<Event<D>>)
      modifies this
      ensures old(position) < |old(events)| ==>
        r == Success(old(events)[old(position)]) && events == old(events) && position == old(position) + 1
      ensures |old(events)| <= old(position) ==> r == Failure(ErrNoMoreEvents) && unchanged(this)
    {
      if |events| <= position {
        return Failure(ErrNoMoreEvents);
      }
      var event := events[position];
      position := position + 1;
      return Success(event);
    }

    /** Drops the events; every later Next yields ErrNoMoreEvents. */
    method Close()
      modifies this
      ensures events == [] && position == 0
    {
      events := [];
      position := 0;
    }
  }

  /** The scan loop of `GlobalEvents`: walks `global` in order, keeping the
      events with GlobalVersion of at least `start`, and stops once the
      uint64 counter `count`, decremented per kept event, reaches zero. */
  method Page<D>(global: seq<Event<D>>, start: uint64, count: uint64) returns (events: seq<Event<D>>)
    ensures events == Take(Filter(global, AtOrAfter(start as nat)), PageLimit(count))
  {
    events := [];
    var remaining := count;
    ghost var limit := PageLimit(count);
    var i := 0;
    while i < |global|
      invariant 0 <= i <= |global|
      invariant events == Filter(global[..i], AtOrAfter(start as nat))
      invariant |events| < limit
      invariant remaining as int == if limit - |events| == 0x1_0000_0000_0000_0000 then 0 else limit - |events|
    {
      var e := global[i];
      assert global[..i + 1][..i] == global[..i];
      if e.globalVersion >= start as nat {
        events := events + [e];
        remaining := if remaining == 0 then 0xFFFF_FFFF_FFFF_FFFF else remaining - 1;
        if remaining == 0 {
          FilterPrefix(global, i + 1, AtOrAfter(start as nat));
          return;
        }
      }
      i := i + 1;
    }
    assert global[..i] == global;
  }

  class Memory<D> {
    /** The events of each aggregate, by AggregateKey. */
    var aggregateEvents: map<string, seq<Event<D>>>
    /** Every event of the store in global order. */
    var eventsInOrder: seq<Event<D>>

    ghost predicate Valid()
      reads this
    {
      ValidStore(aggregateEvents, eventsInOrder)
    }

    /** `Create`: an empty store. */
    constructor ()
      ensures Valid() && aggregateEvents == map[] && eventsInOrder == []
    {
      aggregateEvents := map[];
      eventsInOrder := [];
    }

    /** The commit loop of `Save`: each event in turn gets the next
        GlobalVersion, in the caller's array too, and is appended to the
        global list and to `bucket`. */
    method AppendStamped(events: array<Event<D>>, bucket: seq<Event<D>>) returns (newBucket: seq<Event<D>>)
      modifies this, events
      ensures eventsInOrder == old(eventsInOrder) + Stamped(old(events[..]), |old(eventsInOrder)|)
      ensures newBucket == bucket + Stamped(old(events[..]), |old(eventsInOrder)|)
      ensures events[..] == Stamped(old(events[..]), |old(eventsInOrder)|)
      ensures aggregateEvents == old(aggregateEvents)
    {
      ghost var committed := Stamped(events[..], |eventsInOrder|);
      newBucket := bucket;
      var i := 0;
      while i < events.Length
        invariant 0 <= i <= events.Length
        invariant eventsInOrder == old(eventsInOrder) + committed[..i]
        invariant newBucket == bucket + committed[..i]
        invariant forall k | 0 <= k < i :: events[k] == committed[k]
        invariant forall k | i <= k < events.Length :: events[k] == old(events[k])
        invariant aggregateEvents == old(aggregateEvents)
      {
        var event := events[i].(globalVersion := |eventsInOrder| + 1);
        assert event == committed[i];
        assert committed[..i + 1] == committed[..i] + [event];
        newBucket := newBucket + [event];
        eventsInOrder := eventsInOrder + [event];
        events[i] := event;
        i := i + 1;
      }
      assert committed[..i] == committed;
    }

    /** Saves a batch of one aggregate's events. An empty batch is a no-op; a
        batch the validator rejects changes nothing; otherwise event i of the
        batch gets GlobalVersion |eventsInOrder| + i + 1, in the caller's array
        too, and is appended to the global list and to the bucket of the first
        event's aggregate, which is the only bucket that changes. */
    method Save(events: array<Event<D>>, validate: Validator<D>) returns (err: Option<Error>)
      requires Valid()
      modifies this, events
      ensures Valid()
      ensures events.Length == 0 ==> err == None && unchanged(this)
      ensures events.Length > 0 ==>
        var key := AggregateKey(old(events[0]).aggregateType, old(events[0]).aggregateID);
        var bucket := BucketOf(old(aggregateEvents), key);
        var verdict := validate(old(events[0]).aggregateID, CurrentVersion(bucket), old(events[..]));
        var committed := Stamped(old(events[..]), |old(eventsInOrder)|);
        if verdict.Some? then
          err == verdict && unchanged(this) && unchanged(events)
        else
          err == None &&
          eventsInOrder == old(eventsInOrder) + committed &&
          aggregateEvents == old(aggregateEvents)[key := bucket + committed] &&
          forall k | 0 <= k < events.Length :: events[k] == committed[k]
    {
      if events.Length == 0 {
        return None;
      }
      var aggregateType := events[0].aggregateType;
      var aggregateID := events[0].aggregateID;
      var bucketName := AggregateKey(aggregateType, aggregateID);

      var evBucket := if bucketName in aggregateEvents then aggregateEvents[bucketName] else [];
      var currentVersion := 0;
      if |evBucket| > 0 {
        currentVersion := evBucket[|evBucket| - 1].version;
      }

      err := validate(aggregateID, currentVersion, events[..]);
      if err.Some? {
        return;
      }

      ghost var batch := events[..];
      evBucket := AppendStamped(events, evBucket);
      aggregateEvents := aggregateEvents[bucketName := evBucket];
      SaveKeepsOrder(old(aggregateEvents), old(eventsInOrder), bucketName, batch);
    }

    /** An iterator over the aggregate's events with a Version after
        `afterVersion`, in stored order, or ErrNoEvents when there are none. */
    method Get(id: string, aggregateType: string, afterVersion: nat) returns (r: Result<MemoryIterator<D>>)
      ensures
        var found := Filter(BucketOf(aggregateEvents, AggregateKey(aggregateType, id)), NewerThan(afterVersion));
        (found == [] ==> r == Failure(ErrNoEvents)) &&
        (found != [] ==> r.Success? && fresh(r.value) && r.value.events == found && r.value.position == 0)
    {
      var events: seq<Event<D>> := [];
      var bucket := BucketOf(aggregateEvents, AggregateKey(aggregateType, id));
      var i := 0;
      while i < |bucket|
        invariant 0 <= i <= |bucket|
        invariant events == Filter(bucket[..i], NewerThan(afterVersion))
      {
        var e := bucket[i];
        assert bucket[..i + 1][..i] == bucket[..i];
        if e.version > afterVersion {
          events := events + [e];
        }
        i := i + 1;
      }
      assert bucket[..i] == bucket;
      if |events| == 0 {
        return Failure(ErrNoEvents);
      }
      var it := new MemoryIterator(events);
      return Success(it);
    }

    /** The events with GlobalVersion at least `start`, in global order, at
        most `count` of them; a count of 0 wraps around and places no
        practical limit. */
    method GlobalEvents(start: uint64, count: uint64) returns (events: seq<Event<D>>, err: Option<Error>)
      requires Valid()
      ensures err == None
      ensures events == Take(Filter(eventsInOrder, AtOrAfter(start as nat)), PageLimit(count))
      ensures events == Take(eventsInOrder[FirstAtOrAfter(start as nat, |eventsInOrder|)..], PageLimit(count))
    {
      events := Page(eventsInOrder, start, count);
      GlobalEventsContiguous(eventsInOrder, start as nat);
      err := None;
    }
  }
}
