/** The recency order of the store over every run. */
module StoreRecency {
  import opened MinMax
  import opened OrderedMap
  import opened MemoryStore

  /** k comes after j in the recency order, or j is not there. */
  predicate Later(m: Objects, j: string, k: string) {
    m == [] || if m[0].key == j then Has(m[1..], k) else Later(m[1..], j, k)
  }

  lemma {:induction false} LaterKeyIsThere(m: Objects, j: string, k: string)
    requires Later(m, j, k) && Has(m, j) && j != k
    ensures Has(m, k)
  {
    if m[0].key != j { LaterKeyIsThere(m[1..], j, k); }
  }

  lemma {:induction false} LaterInSuffix(m: Objects, n: nat, j: string, k: string)
    requires UniqueKeys(m) && Later(m, j, k) && n <= |m|
    ensures Later(m[n..], j, k)
  {
    if n > 0 {
      if m[0].key == j { AbsentIsEarlier(m[1..], j, k); }
      LaterInSuffix(m[1..], n - 1, j, k);
      assert m[1..][n - 1..] == m[n..];
    } else {
      assert m[0..] == m;
    }
  }

  lemma {:induction false} AbsentIsEarlier(m: Objects, j: string, k: string)
    requires !Has(m, j)
    ensures Later(m, j, k)
  {
    if m != [] { AbsentIsEarlier(m[1..], j, k); }
  }

  lemma {:induction false} LaterAfterRemove(m: Objects, x: string, j: string, k: string)
    requires UniqueKeys(m) && Later(m, j, k) && x != k
    ensures Later(Remove(m, x), j, k)
  {
    if m != [] {
      if m[0].key == x {
        if m[0].key == j { AbsentIsEarlier(m[1..], j, k); }
      } else {
        if m[0].key == j { FindInRemove(m[1..], x, k); } else { LaterAfterRemove(m[1..], x, j, k); }
        assert Remove(m, x)[1..] == Remove(m[1..], x);
      }
    }
  }

  lemma {:induction false} LaterAfterSet(m: Objects, x: string, obj: StoredObject, j: string, k: string)
    requires Later(m, j, k) && x != j
    ensures Later(Set(m, x, obj), j, k)
  {
    if m != [] && m[0].key != x {
      if m[0].key == j { FindInSet(m[1..], x, obj, k); } else { LaterAfterSet(m[1..], x, obj, j, k); }
      assert Set(m, x, obj)[1..] == Set(m[1..], x, obj);
    } else if m != [] {
      assert Set(m, x, obj)[1..] == m[1..];
    }
  }

  lemma {:induction false} LastIsLater(m: Objects, j: string, k: string, obj: StoredObject)
    requires j != k
    ensures Later(m + [Entry(k, obj)], j, k)
  {
    var all := m + [Entry(k, obj)];
    if m != [] {
      LastIsLater(m[1..], j, k, obj);
      assert all[1..] == m[1..] + [Entry(k, obj)];
      FindInConcat(m[1..], [Entry(k, obj)], k);
    }
  }

  lemma TouchedIsLater(s: Store, j: string, k: string)
    requires Has(s.objects, k) && j != k
    ensures Later(Touch(s, k).objects, j, k)
  {
    LastIsLater(Remove(s.objects, k), j, k, Find(s.objects, k).value);
  }

  lemma WriteKeepsLater(c: Config, s: Store, x: string, obj: StoredObject, j: string, k: string)
    requires UniqueKeys(s.objects) && Later(s.objects, j, k) && x != j
    ensures Later(Write(c, s, x, obj).objects, j, k)
  {
    var required := Max(Delta(s, x, obj), 0);
    LaterInSuffix(s.objects, EvictCount(s.objects, s.currentBytes + required - c.maxMemoryBytes), j, k);
    LaterAfterSet(Evict(c, s, required).objects, x, obj, j, k);
  }

  lemma TouchKeepsLater(s: Store, x: string, j: string, k: string)
    requires UniqueKeys(s.objects) && Later(s.objects, j, k) && x != j && j != k
    ensures Later(Touch(s, x).objects, j, k)
  {
    if x == k {
      if Has(s.objects, k) { TouchedIsLater(s, j, k); }
    } else if Has(s.objects, x) {
      TouchIsSetAfterRemove(s, x);
      LaterAfterRemove(s.objects, x, j, k);
      LaterAfterSet(Remove(s.objects, x), x, Find(s.objects, x).value, j, k);
    }
  }

  // ---------------------------------------------------------------- the order after one operation

  /** Main result, one write: the evicted keys go from the front, a new key comes to the end, and every other
      key keeps its place - also that of the object that is overwritten. */
  lemma WriteKeepsOrder(c: Config, s: Store, key: string, obj: StoredObject)
    ensures
      var t, order := Write(c, s, key, obj), Keys(s.objects);
      var n := t.evictions - s.evictions;
      && 0 <= n <= |order|
      && Keys(t.objects) == order[n..] + (if key in order[n..] then [] else [key])
      && t.evictedBytes - s.evictedBytes == SumSizes(s.objects[..n])
  {
    var required := Max(Delta(s, key, obj), 0);
    var e := Evict(c, s, required);
    var n := e.evictions - s.evictions;
    KeysOfSuffix(s.objects, n);
    KeysOfSet(e.objects, key, obj);
    assert s.objects[0..] == s.objects && Keys(s.objects)[n..] + [] == Keys(s.objects)[n..];
  }

  /** A read moves the key to the end, and every other key keeps its place. */
  lemma ReadMovesToEnd(s: Store, key: string) returns (i: nat)
    requires Has(s.objects, key)
    ensures var order := Keys(s.objects);
      i < |order| && order[i] == key && Keys(Read(s, key).0.objects) == order[..i] + order[i + 1..] + [key]
  {
    HasIsInKeys(s.objects, key);
    i := KeysOfRemove(s.objects, key);
    KeysOfAppend(Remove(s.objects, key), Entry(key, Find(s.objects, key).value));
  }

  // ---------------------------------------------------------------- every run

  /** The event neither reads nor writes j, and does not delete k; a restore may do either. */
  predicate Spares(e: Event, j: string, k: string) {
    match e
    case PutEvent(key, _, _) => key != j
    case ReadEvent(key) => key != j
    case CopyEvent(_, to, _, _) => to != j
    case DeleteEvent(key) => key != k
    case ClearEvent => true
    case ResetStatsEvent => true
    case RestoreEvent(_) => false
  }

  predicate AllSpare(events: seq<Event>, j: string, k: string) {
    events == [] || (AllSpare(events[..|events| - 1], j, k) && Spares(events[|events| - 1], j, k))
  }

  lemma StepKeepsLater(c: Config, s: Store, e: Event, j: string, k: string)
    requires UniqueKeys(s.objects) && Permitted(c, e) && Later(s.objects, j, k) && j != k && Spares(e, j, k)
    ensures Later(Step(c, s, e).objects, j, k)
  {
    match e
    case PutEvent(key, put, now) => WriteKeepsLater(c, s, key, NewObject(c, put, now), j, k);
    case ReadEvent(key) => TouchKeepsLater(s, key, j, k);
    case CopyEvent(from, to, copy, now) =>
      if Has(s.objects, from) {
        WriteKeepsLater(c, s, to, NewObject(c, CopyAsPut(Find(s.objects, from).value, copy), now), j, k);
      }
    case DeleteEvent(key) => LaterAfterRemove(s.objects, key, j, k);
    case _ =>
  }

  lemma {:induction false} RunKeepsLater(c: Config, s: Store, events: seq<Event>, j: string, k: string)
    requires WellFormed(c, s.objects) && AllPermitted(c, events) && AllSpare(events, j, k)
    requires Later(s.objects, j, k) && j != k
    ensures Later(Run(c, s, events).objects, j, k)
  {
    if events != [] {
      var before := events[..|events| - 1];
      RunKeepsLater(c, s, before, j, k);
      RunKeepsWellFormed(c, s, before);
      StepKeepsLater(c, Run(c, s, before), events[|events| - 1], j, k);
    }
  }

  /** Main result: a key just read outlives every other key that is not touched afterwards, on every run. */
  lemma ReadKeyOutlivesUntouchedKeys(c: Config, s: Store, k: string, j: string, events: seq<Event>)
    requires WellFormed(c, s.objects) && Has(s.objects, k) && j != k
    requires AllPermitted(c, events) && AllSpare(events, j, k)
    ensures var r := Run(c, Read(s, k).0, events).objects; Has(r, j) ==> Has(r, k)
  {
    TouchKeepsWellFormed(c, s, k);
    TouchedIsLater(s, j, k);
    RunKeepsLater(c, Touch(s, k), events, j, k);
    var r := Run(c, Touch(s, k), events).objects;
    if Has(r, j) { LaterKeyIsThere(r, j, k); }
  }
}
