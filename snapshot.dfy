/** The snapshot handler: captures an aggregate's state and root counters
    into a `Snapshot` record for the snapshot store, and restores an
    aggregate from the record the store returns.

    An aggregate may supply its own marshal/unmarshal hooks (a
    `SnapshotAggregate`); otherwise the whole aggregate goes through the
    serializer. The Go code tells the two apart by a type assertion; here the
    caller's value is a `Subject` that says which it is. */
module Snapshots {
  import opened EventSourcing

  datatype Snapshot = Snapshot(id: string, typ: string, state: Bytes, version: nat, globalVersion: nat)

  /** The root counters that a snapshot carries and `setInternals` restores. */
  datatype Internals = Internals(id: string, version: nat, globalVersion: nat)

  /** A decoder of snapshot bytes into the aggregate's fields: given the
      current fields it yields the fields it leaves behind (possibly partly
      written on failure) and its error. */
  type Decoder<!S> = (S, Bytes) -> (S, Option<Error>)

  /** The two functions of the injected serializer the handler uses, over the
      aggregate's fields `S`. */
  datatype SnapshotSerializer<!S> = SnapshotSerializer(marshal: S -> Result<Bytes>, unmarshal: Decoder<S>)

  /** The `Marshal`/`Unmarshal` methods of a `SnapshotAggregate` (each is handed
      the serializer's function in the source; here that is folded into the hook). */
  datatype SnapshotHooks<!S> = SnapshotHooks(marshal: S -> Result<Bytes>, unmarshal: Decoder<S>)

  /** An aggregate: its root (ID, versions, number of unsaved events), its
      declared type name and its domain fields. */
  class Aggregate<S> {
    const typeName: string
    var id: string
    var version: nat
    var globalVersion: nat
    var unsaved: nat
    var state: S

    constructor (typeName: string, id: string, version: nat, globalVersion: nat, unsaved: nat, state: S)
      ensures this.typeName == typeName && this.id == id && this.version == version
      ensures this.globalVersion == globalVersion && this.unsaved == unsaved && this.state == state
    {
      this.typeName := typeName;
      this.id := id;
      this.version := version;
      this.globalVersion := globalVersion;
      this.unsaved := unsaved;
      this.state := state;
    }

    /** `setInternals`: overwrites the root's ID, Version and GlobalVersion
        and clears its unsaved events; the domain fields stay as they are. */
    method SetInternals(id: string, version: nat, globalVersion: nat)
      modifies this
      ensures RootInternals() == Internals(id, version, globalVersion)
      ensures state == old(state) && unsaved == 0
    {
      this.id := id;
      this.version := version;
      this.globalVersion := globalVersion;
      this.unsaved := 0;
    }

    function RootInternals(): Internals
      reads this
    {
      Internals(id, version, globalVersion)
    }
  }

  /** The value handed to Save or Get. */
  datatype Subject<!S> =
    | HookedAggregate(a: Aggregate<S>, hooks: SnapshotHooks<S>)
    | PlainAggregate(a: Aggregate<S>)
    | NotAggregate(typeName: string)
  {
    function TypeName(): string
      reads if NotAggregate? then {} else {a}
    {
      if NotAggregate? then typeName else a.typeName
    }

    function Footprint(): set<object> {
      if NotAggregate? then {} else {a}
    }
  }

  function SnapshotInternals(s: Snapshot): Internals {
    Internals(s.id, s.version, s.globalVersion)
  }

  /** `validate`: a snapshot needs an ID, and then no unsaved events. */
  function Validate(id: string, unsaved: nat): (r: Option<Error>)
    ensures r == Some(ErrEmptyID) <==> id == ""
    ensures r == Some(ErrUnsavedEvents) <==> id != "" && unsaved > 0
    ensures r == None <==> id != "" && unsaved == 0
  {
    if id == "" then Some(ErrEmptyID)
    else if unsaved > 0 then Some(ErrUnsavedEvents)
    else None
  }

  /** The record `Save` hands to the snapshot store, or the error it returns
      before reaching the store. A hooked aggregate is captured by its own
      hook, a plain one by the serializer; anything else is not an aggregate. */
  function Capture<S>(subject: Subject<S>, serializer: SnapshotSerializer<S>): (r: Result<Snapshot>)
    reads subject.Footprint()
    ensures subject.NotAggregate? ==> r == Failure(NotAnAggregate)
    ensures !subject.NotAggregate? && Validate(subject.a.id, subject.a.unsaved).Some? ==>
      r == Failure(Validate(subject.a.id, subject.a.unsaved).value)
    ensures !subject.NotAggregate? && Validate(subject.a.id, subject.a.unsaved).None? ==>
      var encoded := if subject.HookedAggregate? then subject.hooks.marshal(subject.a.state)
                     else serializer.marshal(subject.a.state);
      (encoded.Failure? ==> r == Failure(encoded.error)) &&
      (encoded.Success? ==> r.Success? && r.value.state == encoded.value)
    ensures r.Success? ==>
      !subject.NotAggregate? && SnapshotInternals(r.value) == subject.a.RootInternals() &&
      r.value.typ == subject.a.typeName
  {
    match subject
    case NotAggregate(_) => Failure(NotAnAggregate)
    case HookedAggregate(a, hooks) => CaptureWith(a, hooks.marshal)
    case PlainAggregate(a) => CaptureWith(a, serializer.marshal)
  }

  /** `saveSnapshotAggregate` and `saveAggregate`, which differ only in the marshal function. */
  function CaptureWith<S>(a: Aggregate<S>, marshal: S -> Result<Bytes>): (r: Result<Snapshot>)
    reads a
    ensures Validate(a.id, a.unsaved).Some? ==> r == Failure(Validate(a.id, a.unsaved).value)
    ensures Validate(a.id, a.unsaved).None? && marshal(a.state).Failure? ==> r == Failure(marshal(a.state).error)
    ensures Validate(a.id, a.unsaved).None? && marshal(a.state).Success? ==> r.Success?
    ensures r.Success? ==>
      && Validate(a.id, a.unsaved).None? && marshal(a.state) == Success(r.value.state)
      && SnapshotInternals(r.value) == a.RootInternals() && r.value.typ == a.typeName
  {
    match Validate(a.id, a.unsaved)
    case Some(e) => Failure(e)
    case None =>
      match marshal(a.state)
      case Failure(e) => Failure(e)
      case Success(b) => Success(Snapshot(a.id, a.typeName, b, a.version, a.globalVersion))
  }

  /** `SnapshotHandler.Save`: the store is consulted only with a captured
      record, and its answer is returned as is. */
  function Save<S>(subject: Subject<S>, serializer: SnapshotSerializer<S>, storeSave: Snapshot -> Option<Error>): (r: Option<Error>)
    reads subject.Footprint()
    ensures subject.NotAggregate? ==> r == Some(NotAnAggregate)
    ensures !subject.NotAggregate? && Validate(subject.a.id, subject.a.unsaved).Some? ==>
      r == Validate(subject.a.id, subject.a.unsaved)
    ensures !subject.NotAggregate? && Validate(subject.a.id, subject.a.unsaved).None? ==>
      var a := subject.a;
      var encoded := if subject.HookedAggregate? then subject.hooks.marshal(a.state) else serializer.marshal(a.state);
      (encoded.Failure? ==> r == Some(encoded.error)) &&
      (encoded.Success? ==> r == storeSave(Snapshot(a.id, a.typeName, encoded.value, a.version, a.globalVersion)))
  {
    match Capture(subject, serializer)
    case Failure(e) => Some(e)
    case Success(snap) => storeSave(snap)
  }

  /** Decodes snapshot bytes into an aggregate's fields with its hook, or with
      the serializer for a plain aggregate. */
  function Decode<S>(subject: Subject<S>, serializer: SnapshotSerializer<S>, fields: S, state: Bytes): (S, Option<Error>)
    requires !subject.NotAggregate?
  {
    if subject.HookedAggregate? then subject.hooks.unmarshal(fields, state)
    else serializer.unmarshal(fields, state)
  }

  /** `SnapshotHandler.Get`: asks the store for the snapshot of (id, type
      name); on success decodes it into the aggregate's fields with the hook
      or the serializer, and only when decoding succeeds sets the root's ID,
      Version and GlobalVersion to the snapshot's. */
  method Get<S>(subject: Subject<S>, id: string, serializer: SnapshotSerializer<S>,
                storeGet: (string, string) -> Result<Snapshot>) returns (err: Option<Error>)
    modifies subject.Footprint()
    ensures storeGet(id, subject.TypeName()).Failure? ==>
      err == Some(storeGet(id, subject.TypeName()).error) && unchanged(subject.Footprint())
    ensures storeGet(id, subject.TypeName()).Success? && subject.NotAggregate? ==>
      err == Some(NotAnAggregate)
    ensures storeGet(id, subject.TypeName()).Success? && !subject.NotAggregate? ==>
      var snap := storeGet(id, subject.TypeName()).value;
      var decoded := Decode(subject, serializer, old(subject.a.state), snap.state);
      subject.a.state == decoded.0 && err == decoded.1 &&
      if decoded.1.Some? then subject.a.RootInternals() == old(subject.a.RootInternals()) && subject.a.unsaved == old(subject.a.unsaved)
      else subject.a.RootInternals() == SnapshotInternals(snap) && subject.a.unsaved == 0
  {
    var typ := subject.TypeName();
    var stored := storeGet(id, typ);
    if stored.Failure? {
      return Some(stored.error);
    }
    var snap := stored.value;
    match subject {
      case HookedAggregate(a, hooks) =>
        var (fields, decodeErr) := hooks.unmarshal(a.state, snap.state);
        a.state := fields;
        if decodeErr.Some? {
          return decodeErr;
        }
        a.SetInternals(snap.id, snap.version, snap.globalVersion);
      case PlainAggregate(a) =>
        var (fields, decodeErr) := serializer.unmarshal(a.state, snap.state);
        a.state := fields;
        if decodeErr.Some? {
          return decodeErr;
        }
        a.SetInternals(snap.id, snap.version, snap.globalVersion);
      case NotAggregate(_) =>
        return Some(NotAnAggregate);
    }
    return None;
  }

  /** Save then Get through a store that accepts only the captured record
      and hands that record back: the aggregate read back gets the saved aggregate's ID, Version and
      GlobalVersion, whatever it held before. */
  method SaveThenGet<S>(saved: Subject<S>, restored: Subject<S>, serializer: SnapshotSerializer<S>) returns (err: Option<Error>)
    requires !saved.NotAggregate? && !restored.NotAggregate?
    requires Capture(saved, serializer).Success?
    requires Decode(restored, serializer, restored.a.state, Capture(saved, serializer).value.state).1.None?
    modifies restored.Footprint()
    ensures err == None
    ensures restored.a.RootInternals() == old(saved.a.RootInternals())
  {
    var snap := Capture(saved, serializer).value;
    var saveErr := Save(saved, serializer, (s: Snapshot) => if s == snap then None else Some(External("another record")));
    assert saveErr == None;
    err := Get(restored, saved.a.id, serializer, (id: string, typ: string) => Success(snap));
  }
}
