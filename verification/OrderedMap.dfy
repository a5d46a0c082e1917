/** The insertion-ordered string maps of JavaScript (Map and plain objects), as entry lists. */
module OrderedMap {
  import opened Wrappers

  datatype Entry<+V> = Entry(key: string, value: V)

  function Find<V>(m: seq<Entry<V>>, key: string): Option<V> {
    if m == [] then None
    else if m[0].key == key then Some(m[0].value)
    else Find(m[1..], key)
  }

  predicate Has<V>(m: seq<Entry<V>>, key: string) { Find(m, key).Some? }

  /** An existing key keeps its position; a new one goes to the end. */
  function Set<V>(m: seq<Entry<V>>, key: string, value: V): seq<Entry<V>> {
    if m == [] then [Entry(key, value)]
    else if m[0].key == key then [Entry(key, value)] + m[1..]
    else [m[0]] + Set(m[1..], key, value)
  }

  function Remove<V>(m: seq<Entry<V>>, key: string): seq<Entry<V>> {
    if m == [] then []
    else if m[0].key == key then m[1..]
    else [m[0]] + Remove(m[1..], key)
  }

  predicate UniqueKeys<V>(m: seq<Entry<V>>) {
    m == [] || (!Has(m[1..], m[0].key) && UniqueKeys(m[1..]))
  }

  function Keys<V>(m: seq<Entry<V>>): (keys: seq<string>)
    ensures |keys| == |m|
  {
    if m == [] then [] else [m[0].key] + Keys(m[1..])
  }

  /** The object spread { ...a, ...b }. */
  function Merge<V>(a: seq<Entry<V>>, b: seq<Entry<V>>): seq<Entry<V>>
    decreases |b|
  {
    if b == [] then a else Merge(Set(a, b[0].key, b[0].value), b[1..])
  }

  lemma {:induction false} FindInSet<V>(m: seq<Entry<V>>, key: string, value: V, other: string)
    ensures Find(Set(m, key, value), other) == if other == key then Some(value) else Find(m, other)
  {
    if m != [] && m[0].key != key {
      FindInSet(m[1..], key, value, other);
      assert Set(m, key, value)[1..] == Set(m[1..], key, value);
    }
  }

  lemma {:induction false} FindInRemove<V>(m: seq<Entry<V>>, key: string, other: string)
    requires UniqueKeys(m)
    ensures Find(Remove(m, key), other) == if other == key then None else Find(m, other)
  {
    if m != [] && m[0].key != key {
      FindInRemove(m[1..], key, other);
      assert Remove(m, key)[1..] == Remove(m[1..], key);
    }
  }

  lemma {:induction false} FindInConcat<V>(a: seq<Entry<V>>, b: seq<Entry<V>>, key: string)
    ensures Find(a + b, key) == if Has(a, key) then Find(a, key) else Find(b, key)
  {
    if a == [] {
      assert a + b == b;
    } else {
      FindInConcat(a[1..], b, key);
      assert (a + b)[1..] == a[1..] + b;
    }
  }

  lemma {:induction false} SetKeepsUnique<V>(m: seq<Entry<V>>, key: string, value: V)
    requires UniqueKeys(m)
    ensures UniqueKeys(Set(m, key, value))
  {
    if m != [] && m[0].key != key {
      SetKeepsUnique(m[1..], key, value);
      FindInSet(m[1..], key, value, m[0].key);
      assert Set(m, key, value)[1..] == Set(m[1..], key, value);
    }
  }

  lemma {:induction false} RemoveKeepsUnique<V>(m: seq<Entry<V>>, key: string)
    requires UniqueKeys(m)
    ensures UniqueKeys(Remove(m, key))
  {
    if m != [] && m[0].key != key {
      RemoveKeepsUnique(m[1..], key);
      FindInRemove(m[1..], key, m[0].key);
      assert Remove(m, key)[1..] == Remove(m[1..], key);
    }
  }

  lemma {:induction false} SetOfNew<V>(m: seq<Entry<V>>, key: string, value: V)
    requires !Has(m, key)
    ensures Set(m, key, value) == m + [Entry(key, value)]
  {
    if m != [] { SetOfNew(m[1..], key, value); }
  }

  lemma {:induction false} SuffixKeepsUnique<V>(m: seq<Entry<V>>, n: nat)
    requires UniqueKeys(m) && n <= |m|
    ensures UniqueKeys(m[n..])
  {
    if n > 0 {
      SuffixKeepsUnique(m[1..], n - 1);
      assert m[1..][n - 1..] == m[n..];
    }
  }

  /** Dropping a prefix loses its keys and keeps the others. */
  lemma {:induction false} FindInSuffix<V>(m: seq<Entry<V>>, n: nat, key: string)
    requires UniqueKeys(m) && n <= |m|
    ensures Find(m[n..], key) == if Has(m[..n], key) then None else Find(m, key)
  {
    if n > 0 {
      FindInSuffix(m[1..], n - 1, key);
      assert m[1..][n - 1..] == m[n..];
      assert m[..n][1..] == m[1..][..n - 1];
      if m[0].key == key {
        FindInConcat(m[1..][..n - 1], m[1..][n - 1..], key);
        assert m[1..] == m[1..][..n - 1] + m[1..][n - 1..];
      }
    }
  }

  lemma {:induction false} FindInMerge<V>(a: seq<Entry<V>>, b: seq<Entry<V>>, key: string)
    requires UniqueKeys(b)
    ensures Find(Merge(a, b), key) == if Has(b, key) then Find(b, key) else Find(a, key)
    decreases |b|
  {
    if b != [] {
      FindInMerge(Set(a, b[0].key, b[0].value), b[1..], key);
      FindInSet(a, b[0].key, b[0].value, key);
    }
  }

  lemma {:induction false} MergeKeepsUnique<V>(a: seq<Entry<V>>, b: seq<Entry<V>>)
    requires UniqueKeys(a)
    ensures UniqueKeys(Merge(a, b))
    decreases |b|
  {
    if b != [] {
      SetKeepsUnique(a, b[0].key, b[0].value);
      MergeKeepsUnique(Set(a, b[0].key, b[0].value), b[1..]);
    }
  }

  lemma {:induction false} PrefixKeepsUnique<V>(m: seq<Entry<V>>, n: nat)
    requires UniqueKeys(m) && n <= |m|
    ensures UniqueKeys(m[..n])
  {
    if n > 0 {
      PrefixKeepsUnique(m[1..], n - 1);
      assert m[..n][1..] == m[1..][..n - 1];
      FindInConcat(m[1..][..n - 1], m[1..][n - 1..], m[0].key);
      assert m[1..] == m[1..][..n - 1] + m[1..][n - 1..];
    }
  }

  // ---------------------------------------------------------------- the order of the keys

  lemma {:induction false} HasIsInKeys<V>(m: seq<Entry<V>>, key: string)
    ensures Has(m, key) <==> key in Keys(m)
  {
    if m != [] { HasIsInKeys(m[1..], key); }
  }

  lemma {:induction false} KeysOfSet<V>(m: seq<Entry<V>>, key: string, value: V)
    ensures Keys(Set(m, key, value)) == if key in Keys(m) then Keys(m) else Keys(m) + [key]
  {
    if m != [] && m[0].key != key {
      KeysOfSet(m[1..], key, value);
      assert Set(m, key, value)[1..] == Set(m[1..], key, value);
    }
  }

  lemma {:induction false} KeysOfSuffix<V>(m: seq<Entry<V>>, n: nat)
    requires n <= |m|
    ensures Keys(m[n..]) == Keys(m)[n..]
  {
    if n > 0 {
      KeysOfSuffix(m[1..], n - 1);
      assert m[1..][n - 1..] == m[n..];
      assert Keys(m)[1..] == Keys(m[1..]) && Keys(m)[n..] == Keys(m)[1..][n - 1..];
    } else {
      assert m[0..] == m;
    }
  }

  /** Removing a key takes it out of its place. */
  lemma {:induction false} KeysOfRemove<V>(m: seq<Entry<V>>, key: string) returns (i: nat)
    requires key in Keys(m)
    ensures i < |Keys(m)| && Keys(m)[i] == key && Keys(Remove(m, key)) == Keys(m)[..i] + Keys(m)[i + 1..]
  {
    if m[0].key == key {
      i := 0;
    } else {
      var j := KeysOfRemove(m[1..], key);
      i := j + 1;
      assert Remove(m, key)[1..] == Remove(m[1..], key);
      assert Keys(m)[..i] == [m[0].key] + Keys(m[1..])[..j] && Keys(m)[i + 1..] == Keys(m[1..])[j + 1..];
    }
  }

  lemma {:induction false} KeysOfAppend<V>(m: seq<Entry<V>>, e: Entry<V>)
    ensures Keys(m + [e]) == Keys(m) + [e.key]
  {
    if m != [] {
      KeysOfAppend(m[1..], e);
      assert (m + [e])[1..] == m[1..] + [e];
    }
  }
}
