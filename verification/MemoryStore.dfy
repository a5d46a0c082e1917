/** The in-memory object store as values (memory-storage.class.ts). */
module MemoryStore {
  import opened Bytes
  import opened Wrappers
  import opened MinMax
  import opened OrderedMap
  import Utf8
  import Base64
  import ETags

  /** `value || fallback` */
  function OrElse(value: Option<string>, fallback: string): string {
    if value.Some? && value.value != "" then value.value else fallback
  }

  type Metadata = seq<Entry<string>>

  datatype StoredObject = StoredObject(
    body: Bytes,
    metadata: Metadata,
    contentType: string,
    etag: string,
    lastModified: string,
    size: nat,
    contentEncoding: Option<string>,
    contentLength: int)

  type Objects = seq<Entry<StoredObject>>

  datatype Config = Config(
    enforceLimits: bool,
    metadataLimit: int,
    maxObjectSize: int,
    maxMemoryBytes: int,
    evictionEnabled: bool,
    digest: Bytes -> string)

  datatype Store = Store(objects: Objects, currentBytes: int, evictions: nat, evictedBytes: nat, peakBytes: int)

  const EMPTY: Store := Store([], 0, 0, 0, 0)

  // ---------------------------------------------------------------- memory accounting

  function SumSizes(m: Objects): nat {
    if m == [] then 0 else m[0].value.size + SumSizes(m[1..])
  }

  /** How many entries, oldest first, go until the excess is gone. */
  function EvictCount(m: Objects, excess: int): (n: nat)
    ensures n <= |m|
  {
    if m == [] || excess <= 0 then 0 else 1 + EvictCount(m[1..], excess - m[0].value.size)
  }

  function Evict(c: Config, s: Store, required: int): Store {
    if !c.evictionEnabled || s.currentBytes + required <= c.maxMemoryBytes then s
    else
      var n := EvictCount(s.objects, s.currentBytes + required - c.maxMemoryBytes);
      var bytes := SumSizes(s.objects[..n]);
      s.(objects := s.objects[n..], currentBytes := s.currentBytes - bytes,
         evictions := s.evictions + n, evictedBytes := s.evictedBytes + bytes)
  }

  function Track(s: Store, delta: int): Store {
    s.(currentBytes := s.currentBytes + delta, peakBytes := Max(s.peakBytes, s.currentBytes + delta))
  }

  /** Moves an entry to the end of the recency order. */
  function Touch(s: Store, key: string): Store {
    var found := Find(s.objects, key);
    if found.None? then s else s.(objects := Remove(s.objects, key) + [Entry(key, found.value)])
  }

  // ---------------------------------------------------------------- put

  datatype PutRequest = PutRequest(
    body: Bytes,
    metadata: Metadata,
    contentType: Option<string>,
    contentEncoding: Option<string>,
    contentLength: Option<int>,
    ifMatch: Option<string>,
    ifNoneMatch: Option<string>)

  datatype Error = MetadataTooLarge | ObjectTooLarge | PreconditionFailed | NoSuchKey

  datatype Outcome<T> = Done(value: T) | Failed(error: Error)

  function MetadataSize(m: Metadata): nat {
    if m == [] then 0 else |Utf8.Encode(m[0].key)| + |Utf8.Encode(m[0].value)| + MetadataSize(m[1..])
  }

  function Violation(c: Config, body: Bytes, metadata: Metadata): Option<Error> {
    if !c.enforceLimits then None
    else if MetadataSize(metadata) > c.metadataLimit then Some(MetadataTooLarge)
    else if |body| > c.maxObjectSize then Some(ObjectTooLarge)
    else None
  }

  predicate IfMatchHolds(existing: Option<StoredObject>, header: string) {
    existing.Some? && existing.value.etag != "" && existing.value.etag in ETags.Normalize(header)
  }

  predicate IfNoneMatchHolds(existing: Option<StoredObject>, header: string) {
    existing.Some? ==>
      header != "*" && !(existing.value.etag != "" && existing.value.etag in ETags.Normalize(header))
  }

  function Rejection(c: Config, existing: Option<StoredObject>, req: PutRequest): Option<Error> {
    var violation := Violation(c, req.body, req.metadata);
    if violation.Some? then violation
    else if req.ifMatch.Some? && !IfMatchHolds(existing, req.ifMatch.value) then Some(PreconditionFailed)
    else if req.ifNoneMatch.Some? && !IfNoneMatchHolds(existing, req.ifNoneMatch.value) then Some(PreconditionFailed)
    else None
  }

  function NewObject(c: Config, req: PutRequest, now: string): StoredObject {
    StoredObject(req.body, req.metadata, OrElse(req.contentType, "application/octet-stream"), c.digest(req.body), now,
                 |req.body|, req.contentEncoding,
                 if req.contentLength.Some? then req.contentLength.value else |req.body|)
  }

  function SizeOf(found: Option<StoredObject>): nat { if found.Some? then found.value.size else 0 }

  function Delta(s: Store, key: string, obj: StoredObject): int { obj.size - SizeOf(Find(s.objects, key)) }

  /** The old size is read before the eviction. */
  function Write(c: Config, s: Store, key: string, obj: StoredObject): Store {
    var delta := Delta(s, key, obj);
    var e := Evict(c, s, Max(delta, 0));
    Track(e.(objects := Set(e.objects, key, obj)), delta)
  }

  function Put(c: Config, s: Store, key: string, req: PutRequest, now: string): (Store, Outcome<string>) {
    var rejection := Rejection(c, Find(s.objects, key), req);
    if rejection.Some? then (s, Failed(rejection.value))
    else (Write(c, s, key, NewObject(c, req, now)), Done(ETags.Format(c.digest(req.body))))
  }

  // ---------------------------------------------------------------- the other operations

  datatype Head = Head(metadata: Metadata, contentType: string, contentLength: nat, etag: string, lastModified: string,
                       contentEncoding: Option<string>)

  function HeadOf(obj: StoredObject): Head {
    Head(obj.metadata, obj.contentType, obj.size, ETags.Format(obj.etag), obj.lastModified, obj.contentEncoding)
  }

  function Read(s: Store, key: string): (Store, Outcome<StoredObject>) {
    var found := Find(s.objects, key);
    if found.None? then (s, Failed(NoSuchKey)) else (Touch(s, key), Done(found.value))
  }

  datatype CopyRequest = CopyRequest(metadata: Option<Metadata>, replace: bool, contentType: Option<string>)

  function CopyAsPut(source: StoredObject, req: CopyRequest): PutRequest {
    var metadata := if req.metadata.None? then source.metadata
                    else if req.replace then req.metadata.value
                    else Merge(source.metadata, req.metadata.value);
    PutRequest(source.body, metadata, Some(OrElse(req.contentType, source.contentType)), source.contentEncoding, None,
        None, None)
  }

  function Copy(c: Config, s: Store, from: string, to: string, req: CopyRequest, now: string)
    : (Store, Outcome<string>)
  {
    var source := Find(s.objects, from);
    if source.None? then (s, Failed(NoSuchKey)) else Put(c, s, to, CopyAsPut(source.value, req), now)
  }

  function Delete(s: Store, key: string): Store {
    var found := Find(s.objects, key);
    if found.None? then s
    else Track(s, 0 - found.value.size).(objects := Remove(s.objects, key))
  }

  function ResetStats(s: Store): Store { s.(evictions := 0, evictedBytes := 0, peakBytes := s.currentBytes) }

  // ---------------------------------------------------------------- snapshots

  datatype SavedObject = SavedObject(
    body: string,
    metadata: Metadata,
    contentType: string,
    etag: string,
    lastModified: string,
    size: nat,
    contentEncoding: Option<string>,
    contentLength: int)

  type Snapshot = seq<Entry<SavedObject>>

  function Freeze(o: StoredObject): SavedObject {
    SavedObject(Base64.Encode(o.body), o.metadata, o.contentType, o.etag, o.lastModified, o.size, o.contentEncoding,
        o.contentLength)
  }

  function Thaw(o: SavedObject): StoredObject
    requires Base64.Decode(o.body).Some?
  {
    StoredObject(Base64.Decode(o.body).value, o.metadata, o.contentType, o.etag, o.lastModified, o.size,
        o.contentEncoding, o.contentLength)
  }

  function FreezeAll(m: Objects): Snapshot {
    if m == [] then [] else [Entry(m[0].key, Freeze(m[0].value))] + FreezeAll(m[1..])
  }

  predicate Readable(snapshot: Snapshot) {
    snapshot == [] || (Base64.Decode(snapshot[0].value.body).Some? && Readable(snapshot[1..]))
  }

  function ThawAll(snapshot: Snapshot): (objects: Objects)
    requires Readable(snapshot)
    ensures |objects| == |snapshot|
  {
    if snapshot == [] then [] else [Entry(snapshot[0].key, Thaw(snapshot[0].value))] + ThawAll(snapshot[1..])
  }

  function SumBodies(m: Objects): nat {
    if m == [] then 0 else |m[0].value.body| + SumBodies(m[1..])
  }

  function Restore(c: Config, s: Store, snapshot: Snapshot): Store
    requires Readable(snapshot)
  {
    var loaded := Track(s.(objects := ThawAll(snapshot), currentBytes := 0), SumBodies(ThawAll(snapshot)));
    var trimmed := Evict(c, loaded, 0);
    trimmed.(peakBytes := trimmed.currentBytes)
  }

  // ---------------------------------------------------------------- runs

  /** Get and head change the state alike; deleteMultiple is a series of deletes. */
  datatype Event =
    | PutEvent(key: string, put: PutRequest, now: string)
    | ReadEvent(key: string)
    | CopyEvent(from: string, to: string, copy: CopyRequest, now: string)
    | DeleteEvent(key: string)
    | ClearEvent
    | ResetStatsEvent
    | RestoreEvent(snapshot: Snapshot)

  /** A snapshot as a store writes it: unique keys, readable bodies, recorded sizes and tags that are right. */
  predicate Sound(c: Config, snapshot: Snapshot) {
    Readable(snapshot) && WellFormed(c, ThawAll(snapshot))
  }

  predicate Faithful(c: Config, o: StoredObject) { o.size == |o.body| && o.etag == c.digest(o.body) }

  predicate AllFaithful(c: Config, m: Objects) {
    m == [] || (Faithful(c, m[0].value) && AllFaithful(c, m[1..]))
  }

  predicate WellFormed(c: Config, m: Objects) { UniqueKeys(m) && AllFaithful(c, m) }

  predicate Permitted(c: Config, e: Event) { e.RestoreEvent? ==> Sound(c, e.snapshot) }

  function Step(c: Config, s: Store, e: Event): Store
    requires Permitted(c, e)
  {
    match e
    case PutEvent(key, put, now) => Put(c, s, key, put, now).0
    case ReadEvent(key) => Read(s, key).0
    case CopyEvent(from, to, copy, now) => Copy(c, s, from, to, copy, now).0
    case DeleteEvent(key) => Delete(s, key)
    case ClearEvent => EMPTY
    case ResetStatsEvent => ResetStats(s)
    case RestoreEvent(snapshot) => Restore(c, s, snapshot)
  }

  predicate AllPermitted(c: Config, events: seq<Event>) {
    events == [] || (AllPermitted(c, events[..|events| - 1]) && Permitted(c, events[|events| - 1]))
  }

  function Run(c: Config, s: Store, events: seq<Event>): Store
    requires AllPermitted(c, events)
  {
    if events == [] then s else Step(c, Run(c, s, events[..|events| - 1]), events[|events| - 1])
  }

  function DeleteAll(s: Store, keys: seq<string>): Store {
    if keys == [] then s else Delete(DeleteAll(s, keys[..|keys| - 1]), keys[|keys| - 1])
  }

  // ---------------------------------------------------------------- every step keeps the store well-formed

  lemma {:induction false} SetKeepsFaithful(c: Config, m: Objects, key: string, obj: StoredObject)
    requires AllFaithful(c, m) && Faithful(c, obj)
    ensures AllFaithful(c, Set(m, key, obj))
  {
    if m != [] && m[0].key != key {
      SetKeepsFaithful(c, m[1..], key, obj);
      assert Set(m, key, obj)[1..] == Set(m[1..], key, obj);
    }
  }

  lemma {:induction false} RemoveKeepsFaithful(c: Config, m: Objects, key: string)
    requires AllFaithful(c, m)
    ensures AllFaithful(c, Remove(m, key))
  {
    if m != [] && m[0].key != key {
      RemoveKeepsFaithful(c, m[1..], key);
      assert Remove(m, key)[1..] == Remove(m[1..], key);
    }
  }

  lemma {:induction false} SuffixKeepsFaithful(c: Config, m: Objects, n: nat)
    requires AllFaithful(c, m) && n <= |m|
    ensures AllFaithful(c, m[n..])
  {
    if n > 0 {
      SuffixKeepsFaithful(c, m[1..], n - 1);
      assert m[1..][n - 1..] == m[n..];
    }
  }

  lemma {:induction false} FoundIsFaithful(c: Config, m: Objects, key: string)
    requires AllFaithful(c, m) && Has(m, key)
    ensures Faithful(c, Find(m, key).value)
  {
    if m[0].key != key { FoundIsFaithful(c, m[1..], key); }
  }

  lemma EvictKeepsWellFormed(c: Config, s: Store, required: int)
    requires WellFormed(c, s.objects)
    ensures WellFormed(c, Evict(c, s, required).objects)
  {
    var n := EvictCount(s.objects, s.currentBytes + required - c.maxMemoryBytes);
    SuffixKeepsUnique(s.objects, n);
    SuffixKeepsFaithful(c, s.objects, n);
  }

  /** A touch moves the entry to the end: as a set after a removal. */
  lemma TouchIsSetAfterRemove(s: Store, key: string)
    requires UniqueKeys(s.objects) && Has(s.objects, key)
    ensures Touch(s, key).objects == Set(Remove(s.objects, key), key, Find(s.objects, key).value)
  {
    FindInRemove(s.objects, key, key);
    SetOfNew(Remove(s.objects, key), key, Find(s.objects, key).value);
  }

  lemma TouchKeepsWellFormed(c: Config, s: Store, key: string)
    requires WellFormed(c, s.objects)
    ensures WellFormed(c, Touch(s, key).objects)
  {
    if Has(s.objects, key) {
      var obj := Find(s.objects, key).value;
      TouchIsSetAfterRemove(s, key);
      FoundIsFaithful(c, s.objects, key);
      RemoveKeepsUnique(s.objects, key);
      RemoveKeepsFaithful(c, s.objects, key);
      SetKeepsUnique(Remove(s.objects, key), key, obj);
      SetKeepsFaithful(c, Remove(s.objects, key), key, obj);
    }
  }

  lemma PutKeepsWellFormed(c: Config, s: Store, key: string, req: PutRequest, now: string)
    requires WellFormed(c, s.objects)
    ensures WellFormed(c, Put(c, s, key, req, now).0.objects)
  {
    var obj := NewObject(c, req, now);
    var required := Max(Delta(s, key, obj), 0);
    EvictKeepsWellFormed(c, s, required);
    SetKeepsUnique(Evict(c, s, required).objects, key, obj);
    SetKeepsFaithful(c, Evict(c, s, required).objects, key, obj);
  }

  lemma StepKeepsWellFormed(c: Config, s: Store, e: Event)
    requires WellFormed(c, s.objects) && Permitted(c, e)
    ensures WellFormed(c, Step(c, s, e).objects)
  {
    match e
    case PutEvent(key, put, now) => PutKeepsWellFormed(c, s, key, put, now);
    case ReadEvent(key) => TouchKeepsWellFormed(c, s, key);
    case CopyEvent(from, to, copy, now) =>
      if Has(s.objects, from) {
        PutKeepsWellFormed(c, s, to, CopyAsPut(Find(s.objects, from).value, copy), now);
      }
    case DeleteEvent(key) =>
      RemoveKeepsUnique(s.objects, key);
      RemoveKeepsFaithful(c, s.objects, key);
    case ClearEvent =>
    case ResetStatsEvent =>
    case RestoreEvent(snapshot) =>
      EvictKeepsWellFormed(c,
          Track(s.(objects := ThawAll(snapshot), currentBytes := 0), SumBodies(ThawAll(snapshot))), 0);
  }

  /** On every run keys are unique, recorded sizes are body lengths and tags are digests of the bodies. */
  lemma {:induction false} RunKeepsWellFormed(c: Config, s: Store, events: seq<Event>)
    requires WellFormed(c, s.objects) && AllPermitted(c, events)
    ensures WellFormed(c, Run(c, s, events).objects)
  {
    if events != [] {
      RunKeepsWellFormed(c, s, events[..|events| - 1]);
      StepKeepsWellFormed(c, Run(c, s, events[..|events| - 1]), events[|events| - 1]);
    }
  }

  // ---------------------------------------------------------------- snapshot and restore

  lemma {:induction false} ThawFreeze(m: Objects)
    ensures Readable(FreezeAll(m)) && ThawAll(FreezeAll(m)) == m
  {
    if m != [] {
      ThawFreeze(m[1..]);
      Base64.RoundTrip(m[0].value.body);
      assert FreezeAll(m)[1..] == FreezeAll(m[1..]);
      assert m == [m[0]] + m[1..];
    }
  }

  lemma {:induction false} FaithfulSizes(c: Config, m: Objects)
    requires AllFaithful(c, m)
    ensures SumBodies(m) == SumSizes(m)
  {
    if m != [] { FaithfulSizes(c, m[1..]); }
  }

  /** Main result: a snapshot of a reachable store is sound; restoring it in any store gives back every
      object in order with an exact counter, as far as the budget allows. */
  lemma SnapshotRoundTrip(c: Config, s: Store, target: Store)
    requires WellFormed(c, s.objects)
    ensures Sound(c, FreezeAll(s.objects))
    ensures var r := Restore(c, target, FreezeAll(s.objects));
      var excess := SumSizes(s.objects) - c.maxMemoryBytes;
      r.objects == s.objects[if c.evictionEnabled then EvictCount(s.objects, excess) else 0..]
    ensures !c.evictionEnabled || SumSizes(s.objects) <= c.maxMemoryBytes ==>
      var r := Restore(c, target, FreezeAll(s.objects));
      r.objects == s.objects && r.currentBytes == r.peakBytes == SumSizes(s.objects)
  {
    ThawFreeze(s.objects);
    FaithfulSizes(c, s.objects);
    assert s.objects[0..] == s.objects;
  }

  lemma {:induction false} DeleteAllIsARun(c: Config, s: Store, keys: seq<string>)
    ensures var events := seq(|keys|, i requires 0 <= i < |keys| => DeleteEvent(keys[i]));
      AllPermitted(c, events) && Run(c, s, events) == DeleteAll(s, keys)
  {
    if keys != [] {
      var n := |keys| - 1;
      DeleteAllIsARun(c, s, keys[..n]);
      var events := seq(|keys|, i requires 0 <= i < |keys| => DeleteEvent(keys[i]));
      assert events[..n] == seq(|keys[..n]|, i requires 0 <= i < |keys[..n]| => DeleteEvent(keys[..n][i]));
    }
  }
}
