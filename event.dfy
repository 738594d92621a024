/** The record every store reads and writes, the library's errors, and the
    injected serializer that turns payloads into bytes and back.

    Go's `(value, error)` pairs become `Result`; a Go value that may be nil
    becomes `Option`. */
module EventSourcing {

  datatype Option<T> = None | Some(value: T)

  datatype Result<T> = Success(value: T) | Failure(error: Error)

  /** The library's error sentinels, the panics and wrapped errors of the
      stores, and `External` for an error raised by a collaborator outside
      the model (a database driver, a network client, a decoder, a context). */
  datatype Error =
    | ErrNoEvents
    | ErrNoMoreEvents
    | ErrEmptyID
    | ErrUnsavedEvents
    | NotAnAggregate
    | IndexOutOfRange
    | Wrapped(context: string, cause: Error)
    | External(description: string)

  type Bytes = seq<bv8>

  /** An instant; the model never looks inside it. */
  type Timestamp = int

  /** Event metadata; its values, `interface{}` in the source, are modelled as strings. */
  type Metadata = map<string, string>

  /** One committed or pending event. `metadata` is None where the source's map is nil. */
  datatype Event<D> = Event(
    aggregateID: string,
    version: nat,
    globalVersion: nat,
    aggregateType: string,
    timestamp: Timestamp,
    data: D,
    metadata: Option<Metadata>)

  /** The injected encoding strategy together with the type registry.
      `registry` holds the (aggregate type, reason) pairs for which `Type`
      finds a payload factory; `unmarshalData` decodes bytes into a fresh
      payload of the registered pair; `reason` is the payload's declared
      variant name (`Event.Reason`). */
  datatype Serializer<!D> = Serializer(
    registry: set<(string, string)>,
    reason: D -> string,
    marshalData: D -> Result<Bytes>,
    unmarshalData: (string, string, Bytes) -> Result<D>,
    marshalMetadata: Metadata -> Result<Bytes>,
    unmarshalMetadata: Bytes -> Result<Metadata>)
  {
    predicate Registered(aggregateType: string, reason: string) {
      (aggregateType, reason) in registry
    }
  }

  /** `eventstore.ValidateEvents(aggregateID, currentVersion, events)`; None is success. */
  type Validator<!D> = (string, nat, seq<Event<D>>) -> Option<Error>

  /** `eventstore.ValidateEventsNoVersionCheck(aggregateID, events)`; None is success. */
  type NoVersionCheckValidator<!D> = (string, seq<Event<D>>) -> Option<Error>

  /** The elements of `s` that `keep` accepts, in their order in `s`. */
  function Filter<T>(s: seq<T>, keep: T -> bool): (r: seq<T>)
    ensures |r| <= |s|
  {
    if s == [] then []
    else Filter(s[..|s| - 1], keep) + (if keep(s[|s| - 1]) then [s[|s| - 1]] else [])
  }

  /** Filtering a prefix gives a prefix of the filtered whole. */
  lemma {:induction false} FilterPrefix<T>(s: seq<T>, i: nat, keep: T -> bool)
    requires i <= |s|
    ensures Filter(s[..i], keep) <= Filter(s, keep)
  {
    if i < |s| {
      FilterPrefix(s[..|s| - 1], i, keep);
      assert s[..|s| - 1][..i] == s[..i];
    } else {
      assert s[..i] == s;
    }
  }

  /** Filtering keeps exactly the elements of `s` that `keep` accepts. */
  lemma {:induction false} FilterMembers<T>(s: seq<T>, keep: T -> bool)
    ensures forall x :: x in Filter(s, keep) <==> x in s && keep(x)
  {
    if s != [] {
      var init := s[..|s| - 1];
      FilterMembers(init, keep);
      assert s == init + [s[|s| - 1]];
    }
  }

  /** The first `n` elements of `s`, or all of them when there are fewer. */
  function Take<T>(s: seq<T>, n: nat): (r: seq<T>)
    ensures |r| == if n < |s| then n else |s|
    ensures r <= s
  {
    if n < |s| then s[..n] else s
  }
}
