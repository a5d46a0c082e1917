/** The in-memory object store as a mutable object. */
module MemoryStorage {
  import opened Wrappers
  import opened OrderedMap
  import opened MemoryStore
  import Base64
  import ETags
  import KeyOrder
  import Listing

  class MemoryStorage {
    const config: Config
    var objects: Objects
    var currentMemoryBytes: int
    var evictions: nat
    var evictedBytes: nat
    var peakMemoryBytes: int

    ghost predicate Valid()
      reads this
    {
      UniqueKeys(objects)
    }

    ghost function State(): (s: Store)
      reads this
    {
      Store(objects, currentMemoryBytes, evictions, evictedBytes, peakMemoryBytes)
    }

    constructor (config: Config)
      ensures Valid() && State() == EMPTY && this.config == config
    {
      this.config := config;
      objects := [];
      currentMemoryBytes, evictions, evictedBytes, peakMemoryBytes := 0, 0, 0, 0;
    }

    // ---------------------------------------------------------------- internals

    method TrackMemory(delta: int)
      modifies this
      ensures State() == Track(old(State()), delta)
    {
      currentMemoryBytes := currentMemoryBytes + delta;
      if currentMemoryBytes > peakMemoryBytes { peakMemoryBytes := currentMemoryBytes; }
    }

    method TouchKey(key: string)
      requires Valid()
      modifies this
      ensures Valid() && State() == Touch(old(State()), key)
    {
      var obj := Find(objects, key);
      if obj.Some? {
        TouchIsSetAfterRemove(State(), key);
        RemoveKeepsUnique(objects, key);
        SetKeepsUnique(Remove(objects, key), key, obj.value);
        objects := Remove(objects, key);
        objects := Set(objects, key, obj.value);
      }
    }

    /** The oldest entries to give up, and their total size. */
    method ChooseVictims(required: int) returns (keysToEvict: seq<string>, bytes: nat)
      requires Valid()
      ensures var n := EvictCount(objects, currentMemoryBytes + required - config.maxMemoryBytes);
        keysToEvict == Keys(objects)[..n] && bytes == SumSizes(objects[..n])
    {
      var excess := currentMemoryBytes + required - config.maxMemoryBytes;
      keysToEvict, bytes := [], 0;
      assert objects[0..] == objects;
      for i := 0 to |objects|
        invariant keysToEvict == Keys(objects)[..i] && bytes == SumSizes(objects[..i])
        invariant EvictCount(objects, excess) == i + EvictCount(objects[i..], excess - bytes)
      {
        if currentMemoryBytes - bytes + required <= config.maxMemoryBytes { return; }
        SumOfNext(objects, i);
        KeyAt(objects, i);
        assert objects[i..][1..] == objects[i + 1..];
        keysToEvict := keysToEvict + [objects[i].key];
        bytes := bytes + objects[i].value.size;
      }
    }

    /** The second loop: deletes the given keys, which are the oldest ones. */
    method DeleteVictims(keysToEvict: seq<string>)
      requires Valid() && |keysToEvict| <= |objects| && keysToEvict == Keys(objects)[..|keysToEvict|]
      modifies this`objects, this`evictions, this`evictedBytes
      ensures Valid() && objects == old(objects)[|keysToEvict|..]
      ensures evictions == old(evictions) + |keysToEvict|
      ensures evictedBytes == old(evictedBytes) + SumSizes(old(objects)[..|keysToEvict|])
    {
      ghost var was := objects;
      assert was[0..] == was && was[..0] == [];
      for i := 0 to |keysToEvict|
        invariant objects == was[i..] && Valid()
        invariant evictions == old(evictions) + i && evictedBytes == old(evictedBytes) + SumSizes(was[..i])
      {
        KeyAt(was, i);
        SumOfNext(was, i);
        SuffixKeepsUnique(was, i + 1);
        assert was[i..][1..] == was[i + 1..] && was[i..][0] == was[i];
        var obj := Find(objects, keysToEvict[i]);
        if obj.Some? {
          objects := Remove(objects, keysToEvict[i]);
          evictions := evictions + 1;
          evictedBytes := evictedBytes + obj.value.size;
        }
      }
    }

    method EvictIfNeeded(required: int)
      requires Valid()
      modifies this
      ensures Valid() && State() == Evict(config, old(State()), required)
    {
      if !config.evictionEnabled || currentMemoryBytes + required <= config.maxMemoryBytes { return; }
      var keysToEvict, bytes := ChooseVictims(required);
      DeleteVictims(keysToEvict);
      currentMemoryBytes := currentMemoryBytes - bytes;
    }

    // ---------------------------------------------------------------- operations

    method PutObject(key: string, req: PutRequest, now: string) returns (result: Outcome<string>)
      requires Valid()
      modifies this
      ensures Valid() && (State(), result) == Put(config, old(State()), key, req, now)
    {
      var violation := Violation(config, req.body, req.metadata);
      if violation.Some? { return Failed(violation.value); }
      var existing := Find(objects, key);
      if req.ifMatch.Some? && !IfMatchHolds(existing, req.ifMatch.value) { return Failed(PreconditionFailed); }
      if req.ifNoneMatch.Some? && !IfNoneMatchHolds(existing, req.ifNoneMatch.value) {
        return Failed(PreconditionFailed);
      }
      var obj := NewObject(config, req, now);
      var delta := obj.size - SizeOf(existing);
      EvictIfNeeded(if delta > 0 then delta else 0);
      SetKeepsUnique(objects, key, obj);
      objects := Set(objects, key, obj);
      TrackMemory(delta);
      result := Done(ETags.Format(obj.etag));
    }

    method GetObject(key: string) returns (result: Outcome<StoredObject>)
      requires Valid()
      modifies this
      ensures Valid() && (State(), result) == Read(old(State()), key)
    {
      var obj := Find(objects, key);
      if obj.None? { return Failed(NoSuchKey); }
      TouchKey(key);
      result := Done(obj.value);
    }

    method HeadObject(key: string) returns (result: Outcome<Head>)
      requires Valid()
      modifies this
      ensures Valid() && State() == Read(old(State()), key).0
      ensures Read(old(State()), key).1.Failed? ==> result == Failed(NoSuchKey)
      ensures Read(old(State()), key).1.Done? ==> result == Done(HeadOf(Read(old(State()), key).1.value))
    {
      var obj := Find(objects, key);
      if obj.None? { return Failed(NoSuchKey); }
      TouchKey(key);
      result := Done(HeadOf(obj.value));
    }

    method CopyObject(from: string, to: string, req: CopyRequest, now: string) returns (result: Outcome<string>)
      requires Valid()
      modifies this
      ensures Valid() && (State(), result) == Copy(config, old(State()), from, to, req, now)
    {
      var source := Find(objects, from);
      if source.None? { return Failed(NoSuchKey); }
      result := PutObject(to, CopyAsPut(source.value, req), now);
    }

    method DeleteObject(key: string)
      requires Valid()
      modifies this
      ensures Valid() && State() == Delete(old(State()), key)
    {
      var obj := Find(objects, key);
      if obj.Some? { TrackMemory(0 - obj.value.size); }
      RemoveKeepsUnique(objects, key);
      RemoveOfAbsent(objects, key);
      objects := Remove(objects, key);
    }

    method DeleteMultiple(keys: seq<string>)
      requires Valid()
      modifies this
      ensures Valid() && State() == DeleteAll(old(State()), keys)
    {
      for i := 0 to |keys|
        invariant Valid() && State() == DeleteAll(old(State()), keys[..i])
      {
        assert keys[..i + 1][..i] == keys[..i];
        DeleteObject(keys[i]);
      }
      assert keys[..|keys|] == keys;
    }

    method List(q: Listing.Query, maxKeys: int, token: string, startAfter: string) returns (page: Option<Listing.Page>)
      ensures page == Listing.ListKeys(Keys(objects), q, maxKeys, token, startAfter)
    {
      page := Listing.List(Keys(objects), q, maxKeys, token, startAfter);
    }

    method GetKeys() returns (keys: seq<string>)
      ensures keys == KeyOrder.SortKeys(Keys(objects))
    {
      keys := KeyOrder.SortKeys(Keys(objects));
    }

    method TakeSnapshot() returns (snapshot: Snapshot)
      ensures snapshot == FreezeAll(objects)
    {
      snapshot := [];
      assert objects[..0] == [];
      for i := 0 to |objects|
        invariant snapshot == FreezeAll(objects[..i])
      {
        FreezeNext(objects, i);
        snapshot := snapshot + [Entry(objects[i].key, Freeze(objects[i].value))];
      }
      assert objects[..|objects|] == objects;
    }

    /** A missing snapshot is refused. */
    method RestoreSnapshot(snapshot: Option<Snapshot>) returns (ok: bool)
      requires Valid() && (snapshot.Some? ==> Readable(snapshot.value) && UniqueKeys(ThawAll(snapshot.value)))
      modifies this
      ensures ok <==> snapshot.Some?
      ensures Valid() && State() == if snapshot.Some? then Restore(config, old(State()), snapshot.value)
          else old(State())
    {
      if snapshot.None? { return false; }
      ghost var thawed := ThawAll(snapshot.value);
      objects, currentMemoryBytes := [], 0;
      var totalBytes := 0;
      assert thawed[..0] == [];
      for i := 0 to |snapshot.value|
        invariant |thawed| == |snapshot.value| && objects == thawed[..i] && totalBytes == SumBodies(thawed[..i])
        invariant currentMemoryBytes == 0 && evictions == old(evictions)
        invariant evictedBytes == old(evictedBytes) && peakMemoryBytes == old(peakMemoryBytes)
      {
        ThawAt(snapshot.value, i);
        SetNext(thawed, i);
        var obj := Thaw(snapshot.value[i].value);
        totalBytes := totalBytes + |obj.body|;
        objects := Set(objects, snapshot.value[i].key, obj);
      }
      assert thawed[..|thawed|] == thawed;
      TrackMemory(totalBytes);
      if currentMemoryBytes > config.maxMemoryBytes { EvictIfNeeded(0); }
      peakMemoryBytes := currentMemoryBytes;
      ok := true;
    }

    method Clear()
      modifies this
      ensures Valid() && State() == EMPTY
    {
      objects := [];
      currentMemoryBytes, evictions, evictedBytes, peakMemoryBytes := 0, 0, 0, 0;
    }

    method Reset()
      requires Valid()
      modifies this
      ensures Valid() && State() == ResetStats(old(State()))
    {
      evictions, evictedBytes, peakMemoryBytes := 0, 0, currentMemoryBytes;
    }
  }

  // ---------------------------------------------------------------- loop steps

  lemma {:induction false} SumOfNext(m: Objects, i: nat)
    requires i < |m|
    ensures SumSizes(m[..i + 1]) == SumSizes(m[..i]) + m[i].value.size
  {
    if i > 0 {
      SumOfNext(m[1..], i - 1);
      assert m[1..][..i] == m[..i + 1][1..] && m[1..][..i - 1] == m[..i][1..];
    } else {
      assert m[..1][1..] == [];
    }
  }

  lemma {:induction false} KeyAt(m: Objects, i: nat)
    requires i < |m|
    ensures Keys(m)[i] == m[i].key
  {
    if i > 0 { KeyAt(m[1..], i - 1); }
  }

  lemma {:induction false} RemoveOfAbsent(m: Objects, key: string)
    ensures !Has(m, key) ==> Remove(m, key) == m
  {
    if m != [] && m[0].key != key { RemoveOfAbsent(m[1..], key); }
  }

  lemma {:induction false} FreezeNext(m: Objects, i: nat)
    requires i < |m|
    ensures FreezeAll(m[..i + 1]) == FreezeAll(m[..i]) + [Entry(m[i].key, Freeze(m[i].value))]
  {
    if i > 0 {
      FreezeNext(m[1..], i - 1);
      assert m[1..][..i] == m[..i + 1][1..] && m[1..][..i - 1] == m[..i][1..];
    } else {
      assert m[..1][1..] == [];
    }
  }

  lemma {:induction false} ThawAt(snapshot: Snapshot, i: nat)
    requires Readable(snapshot) && i < |snapshot|
    ensures Base64.Decode(snapshot[i].value.body).Some? && |ThawAll(snapshot)| == |snapshot|
    ensures ThawAll(snapshot)[i] == Entry(snapshot[i].key, Thaw(snapshot[i].value))
  {
    if i > 0 {
      ThawAt(snapshot[1..], i - 1);
    } else if |snapshot| > 1 {
      ThawAt(snapshot[1..], 0);
    }
  }

  lemma {:induction false} SumBodiesOfNext(m: Objects, i: nat)
    requires i < |m|
    ensures SumBodies(m[..i + 1]) == SumBodies(m[..i]) + |m[i].value.body|
  {
    if i > 0 {
      SumBodiesOfNext(m[1..], i - 1);
      assert m[1..][..i] == m[..i + 1][1..] && m[1..][..i - 1] == m[..i][1..];
    } else {
      assert m[..1][1..] == [];
    }
  }

  lemma {:induction false} EarlierKeysDiffer(m: Objects, i: nat)
    requires UniqueKeys(m) && i < |m|
    ensures !Has(m[..i], m[i].key)
  {
    if i > 0 {
      EarlierKeysDiffer(m[1..], i - 1);
      assert m[..i][1..] == m[1..][..i - 1];
      FindInConcat(m[1..i], m[i..], m[i].key);
      assert m[1..] == m[1..i] + m[i..];
      assert m[0].key != m[i].key;
    }
  }

  lemma SetNext(m: Objects, i: nat)
    requires UniqueKeys(m) && i < |m|
    ensures Set(m[..i], m[i].key, m[i].value) == m[..i + 1]
    ensures SumBodies(m[..i + 1]) == SumBodies(m[..i]) + |m[i].value.body|
  {
    EarlierKeysDiffer(m, i);
    SetOfNew(m[..i], m[i].key, m[i].value);
    SumBodiesOfNext(m, i);
  }
}
