/** What the pages of a listing hold, in terms of the keys alone. */
module ListingContents {
  import opened Wrappers
  import opened Sorting
  import opened KeyOrder
  import opened Listing

  // ---------------------------------------------------------------- the common prefix of a key

  predicate OccursAt(s: string, d: string, i: nat) { i + |d| <= |s| && s[i..i + |d|] == d }

  lemma OccursInTail(s: string, d: string, j: nat)
    requires 0 < j && OccursAt(s, d, j)
    ensures OccursAt(s[1..], d, j - 1)
  {
    var tail := s[1..][j - 1..j - 1 + |d|];
    forall k | 0 <= k < |d| ensures tail[k] == d[k] { assert s[j..j + |d|][k] == d[k]; }
    assert tail == d;
  }

  lemma {:induction false} IndexOfIsFirst(s: string, d: string, j: nat)
    requires OccursAt(s, d, j)
    ensures 0 <= IndexOf(s, d) <= j
  {
    if !(d <= s) {
      assert j > 0;
      OccursInTail(s, d, j);
      IndexOfIsFirst(s[1..], d, j - 1);
    }
  }

  /** The first delimiter behind the prefix of the query begins at i. */
  ghost predicate FirstDelimiterAt(q: Query, key: string, i: nat) {
    && |q.prefix| <= i && OccursAt(key, q.delimiter, i)
    && forall j: nat :: |q.prefix| <= j < i ==> !OccursAt(key, q.delimiter, j)
  }

  lemma OccursInRest(key: string, d: string, n: nat, i: nat)
    requires n <= |key|
    ensures OccursAt(key[n..], d, i) <==> OccursAt(key, d, n + i)
  {
    if i + |d| <= |key| - n { assert key[n..][i..i + |d|] == key[n + i..n + i + |d|]; }
  }

  lemma IndexInKey(q: Query, key: string)
    requires q.prefix <= key
    ensures var k := IndexOf(key[|q.prefix|..], q.delimiter);
      && -1 <= k
      && (k == -1 <==> forall i: nat :: |q.prefix| <= i ==> !OccursAt(key, q.delimiter, i))
      && (k >= 0 ==> FirstDelimiterAt(q, key, |q.prefix| + k))
  {
    var n, d := |q.prefix|, q.delimiter;
    var rest := key[n..];
    IndexOfFinds(rest, d);
    forall i: nat | n <= i && OccursAt(key, d, i) ensures 0 <= IndexOf(rest, d) <= i - n {
      OccursInRest(key, d, n, i - n);
      IndexOfIsFirst(rest, d, i - n);
    }
    if IndexOf(rest, d) >= 0 { OccursInRest(key, d, n, IndexOf(rest, d)); }
  }

  /** Main result: the common prefix of a key that has the prefix of the query runs to the end of the first
      delimiter behind that prefix; without such a delimiter the key has none. */
  lemma CommonPrefixIs(q: Query, key: string)
    ensures CommonPrefix(q, key).None? <==>
      q.delimiter == "" || !(q.prefix <= key) || forall i: nat :: |q.prefix| <= i ==> !OccursAt(key, q.delimiter, i)
    ensures CommonPrefix(q, key).Some? ==>
      exists i: nat :: FirstDelimiterAt(q, key, i) && CommonPrefix(q, key) == Some(key[..i + |q.delimiter|])
  {
    if q.prefix <= key {
      IndexInKey(q, key);
      var k := IndexOf(key[|q.prefix|..], q.delimiter);
      if k >= 0 { assert FirstDelimiterAt(q, key, |q.prefix| + k); }
    }
  }

  // ---------------------------------------------------------------- one page that holds everything

  /** The keys that a request without a token is about. */
  ghost predicate IsAbout(q: Query, startAfter: string, key: string) {
    q.prefix <= key && (startAfter == "" || KeyLess(startAfter, key))
  }

  lemma {:induction false} UngroupedMembers(q: Query, keys: seq<string>)
    requires Ascending(keys)
    ensures Ascending(Ungrouped(q, keys))
    ensures forall k :: k in Ungrouped(q, keys) <==> k in keys && CommonPrefix(q, k).None?
  {
    if keys != [] {
      var n := |keys| - 1;
      UngroupedMembers(q, keys[..n]);
      assert keys == keys[..n] + [keys[n]];
      forall k | k in Ungrouped(q, keys[..n]) ensures KeyLess(k, keys[n]) {
        assert k in keys[..n];
      }
    }
  }

  lemma {:induction false} LabelMembers(q: Query, keys: seq<string>, p: string)
    ensures p in Labels(q, keys) <==> exists k :: k in keys && CommonPrefix(q, k) == Some(p)
  {
    if keys != [] {
      var n := |keys| - 1;
      LabelMembers(q, keys[..n], p);
      assert keys == keys[..n] + [keys[n]];
      if k :| k in keys && CommonPrefix(q, k) == Some(p) {
        assert k in keys[..n] || k == keys[n];
      }
    }
  }

  /** Main result: a page that is large enough holds, in order, every key that the request is about and that has
      no common prefix, and the common prefix of every other one once. */
  lemma WholeListing(keys: seq<string>, q: Query, size: int, startAfter: string)
    requires NoDuplicates(keys) && |keys| < size
    ensures ListKeys(keys, q, size, "", startAfter).Some?
    ensures var page := ListKeys(keys, q, size, "", startAfter).value;
      && page.nextToken.None?
      && Ascending(page.contents) && NoDuplicates(page.prefixes)
      && (forall k :: k in page.contents <==>
            k in keys && IsAbout(q, startAfter, k) && CommonPrefix(q, k).None?)
      && (forall p :: p in page.prefixes <==>
            exists k :: k in keys && IsAbout(q, startAfter, k) && CommonPrefix(q, k) == Some(p))
  {
    var ks := Matching(keys, q, startAfter);
    SortKeysAscends(keys);
    FilterKeepsOrder(SortKeys(keys), q.prefix, startAfter);
    MatchingAscends(keys, q, startAfter);
    CutAtEnd(q, ks, size, 0);
    assert ks[..|ks|] == ks;
    UngroupedMembers(q, ks);
    DistinctMembers(Labels(q, ks));
    forall p ensures p in Labels(q, ks) <==>
                     exists k :: k in keys && IsAbout(q, startAfter, k) && CommonPrefix(q, k) == Some(p)
    {
      LabelMembers(q, ks, p);
    }
  }

  // ---------------------------------------------------------------- pages of a given size

  lemma {:induction false} CutStopsWhenFull(q: Query, keys: seq<string>, maxKeys: int, i: nat)
    requires i <= |keys|
    ensures var cut := CutFrom(q, keys, maxKeys, i); cut < |keys| ==> Count(q, keys[..cut]) >= maxKeys
    decreases |keys| - i
  {
    if i < |keys| && Count(q, keys[..i]) < maxKeys { CutStopsWhenFull(q, keys, maxKeys, i + 1); }
  }

  /** Every page that has a next one is filled up to the requested size. */
  lemma PageWithTokenIsFull(keys: seq<string>, q: Query, maxKeys: int, token: string, startAfter: string)
    requires ListKeys(keys, q, maxKeys, token, startAfter).Some?
    requires ListKeys(keys, q, maxKeys, token, startAfter).value.nextToken.Some?
    ensures var page := ListKeys(keys, q, maxKeys, token, startAfter).value;
      maxKeys >= 1 && |page.contents| + |page.prefixes| == maxKeys
  {
    var ks := Remaining(keys, q, token, startAfter);
    var cut := CutFrom(q, ks, maxKeys, 0);
    CutStopsWhenFull(q, ks, maxKeys, 0);
    CountGrowsByOne(q, ks, 0);
    if maxKeys >= 1 { CutRespectsLimit(q, ks, maxKeys, 0); }
  }
}
