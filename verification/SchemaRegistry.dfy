/** Permanent attribute indices (generateMappingFromRegistry). */
module SchemaRegistry {
  import opened Wrappers
  import opened KeyLedger
  import opened Numerals
  import opened Sorting
  import opened TextLists

  datatype Registry = Registry(nextIndex: nat, mapping: map<string, nat>, burned: seq<BurnedEntry<nat>>)

  const EMPTY: Registry := Registry(0, map[], [])

  function View(r: Registry): Ledger<nat> {
    Ledger(r.mapping, BurnedKeys(r.burned))
  }

  function Used(r: Registry): set<nat> {
    r.mapping.Values + BurnedKeys(r.burned)
  }

  /** Base 36: the keys survive stores that lower-case metadata names. */
  function EncodeKey(index: nat): string { Encode(36, index) }

  ghost predicate IsMax(used: set<nat>, m: int) {
    m >= -1 && (m == -1 || m in used) && forall x :: x in used ==> x <= m
  }

  /** Math.max(-1, ...used) */
  ghost function MaxOf(used: set<nat>): (m: int)
    ensures IsMax(used, m)
  {
    if used == {} then -1
    else
      var x :| x in used;
      var m := MaxOf(used - {x});
      assert forall y :: y in used ==> y == x || y in used - {x};
      if x > m then x else m
  }

  /** The first index handed out: the stored one, or one above everything ever used if it is too small. */
  ghost function NextFree(r: Registry): nat {
    if r.nextIndex <= MaxOf(Used(r)) then MaxOf(Used(r)) + 1 else r.nextIndex
  }

  /** The first loop: known attributes keep their index, new ones take the next, in order. */
  function Allocate(keys: seq<string>, mapping: map<string, nat>, next: nat): (r: (map<string, nat>, nat)) {
    if keys == [] then (mapping, next)
    else if keys[0] in mapping then Allocate(keys[1..], mapping, next)
    else Allocate(keys[1..], mapping[keys[0] := next], next + 1)
  }

  lemma {:induction false} AllocateSnoc(keys: seq<string>, k: string, mapping: map<string, nat>, next: nat)
    ensures
      var (m, n) := Allocate(keys, mapping, next);
      Allocate(keys + [k], mapping, next) == if k in m then (m, n) else (m[k := n], n + 1)
  {
    if keys == [] {
      assert (keys + [k])[1..] == [];
    } else {
      assert (keys + [k])[1..] == keys[1..] + [k];
      if keys[0] in mapping { AllocateSnoc(keys[1..], k, mapping, next); }
      else { AllocateSnoc(keys[1..], k, mapping[keys[0] := next], next + 1); }
    }
  }

  lemma {:induction false} AllocateProperties(keys: seq<string>, mapping: map<string, nat>, next: nat)
    requires Injective(mapping) && forall a :: a in mapping ==> mapping[a] < next
    ensures
      var (m, n) := Allocate(keys, mapping, next);
      && n >= next && Injective(m)
      && m.Keys == mapping.Keys + Elements(keys)
      && (forall a :: a in mapping ==> m[a] == mapping[a])
      && (forall a :: a in m && a !in mapping ==> next <= m[a])
      && (forall a :: a in m ==> m[a] < n)
  {
    if keys != [] {
      assert Elements(keys) == {keys[0]} + Elements(keys[1..]);
      if keys[0] in mapping { AllocateProperties(keys[1..], mapping, next); }
      else { AllocateProperties(keys[1..], mapping[keys[0] := next], next + 1); }
    }
  }

  method MaxIndex(r: Registry) returns (m: int)
    ensures m == MaxOf(Used(r))
  {
    m := -1;
    var todo := r.mapping.Values;
    while todo != {}
      invariant todo <= r.mapping.Values
      invariant m >= -1 && (m == -1 || m in r.mapping.Values)
      invariant forall x :: x in r.mapping.Values && x !in todo ==> x <= m
    {
      var x :| x in todo;
      todo := todo - {x};
      if x > m { m := x; }
    }
    for i := 0 to |r.burned|
      invariant m >= -1 && (m == -1 || m in Used(r))
      invariant forall x :: x in r.mapping.Values ==> x <= m
      invariant forall j :: 0 <= j < i ==> r.burned[j].key <= m
    {
      assert r.burned[i].key in BurnedKeys(r.burned);
      if r.burned[i].key > m { m := r.burned[i].key; }
    }
  }

  /** What one call makes of a registry. */
  ghost predicate Generates(keys: seq<string>, now: string, prior: Registry, r: Registry) {
    var (given, next) := Allocate(keys, prior.mapping, NextFree(prior));
    && r.nextIndex == next
    && r.mapping == (map a | a in given && a in keys :: given[a])
    && BurnsRemoved(given, given.Keys - Elements(keys), prior.burned, r.burned, now)
  }

  /** Both lookup tables as the loop fills them; on a clash the later attribute would win. */
  function Tables(keys: seq<string>, indices: map<string, nat>): (map<string, string>, map<string, string>)
    requires forall k :: k in keys ==> k in indices
  {
    if keys == [] then (map[], map[])
    else
      var key := keys[|keys| - 1];
      var (mapping, reversed) := Tables(keys[..|keys| - 1], indices);
      (mapping[key := EncodeKey(indices[key])], reversed[EncodeKey(indices[key]) := key])
  }

  lemma {:induction false} TablesAgree(keys: seq<string>, a: map<string, nat>, b: map<string, nat>)
    requires forall k :: k in keys ==> k in a && k in b && a[k] == b[k]
    ensures Tables(keys, a) == Tables(keys, b)
  {
    if keys != [] { TablesAgree(keys[..|keys| - 1], a, b); }
  }

  method AssignIndices(keys: seq<string>, start: nat, prior: map<string, nat>)
    returns (mapping: map<string, string>, reversedMapping: map<string, string>, indices: map<string, nat>, next: nat)
    ensures (indices, next) == Allocate(keys, prior, start) && next >= start
    ensures forall k :: k in keys ==> k in indices
    ensures (mapping, reversedMapping) == Tables(keys, indices)
  {
    mapping, reversedMapping, indices, next := map[], map[], prior, start;
    for i := 0 to |keys|
      invariant (indices, next) == Allocate(keys[..i], prior, start) && next >= start
      invariant forall k :: k in keys[..i] ==> k in indices
      invariant (mapping, reversedMapping) == Tables(keys[..i], indices)
    {
      var key := keys[i];
      assert keys[..i + 1] == keys[..i] + [key];
      AllocateSnoc(keys[..i], key, prior, start);
      ghost var before := indices;
      if key !in indices {
        indices := indices[key := next];
        next := next + 1;
      }
      TablesAgree(keys[..i], before, indices);
      assert (keys[..i] + [key])[..i] == keys[..i];
      var base36Key := EncodeKey(indices[key]);
      mapping := mapping[key := base36Key];
      reversedMapping := reversedMapping[base36Key := key];
    }
    assert keys[..|keys|] == keys;
  }

  method GenerateMapping(keys: seq<string>, existing: Option<Registry>, now: string)
    returns (mapping: map<string, string>, reversedMapping: map<string, string>, registry: Registry, changed: bool)
    ensures
      var prior := if existing.Some? then existing.value else EMPTY;
      && Generates(keys, now, prior, registry)
      && registry.mapping.Keys == Elements(keys)
      && (mapping, reversedMapping) == Tables(keys, registry.mapping)
      && (changed <==> registry.nextIndex != prior.nextIndex || registry.burned != prior.burned)
  {
    var prior := if existing.Some? then existing.value else EMPTY;
    var next := prior.nextIndex;
    var maxIndex := MaxIndex(prior);
    if next <= maxIndex { next := maxIndex + 1; }
    var indices;
    mapping, reversedMapping, indices, next := AssignIndices(keys, next, prior.mapping);
    var kept, burned, burnedSome := BurnRemoved(indices, prior.burned, keys, now);
    registry := Registry(next, kept, burned);
    changed := next != prior.nextIndex || burnedSome;
    TablesAgree(keys, indices, kept);
  }

  // ---------------------------------------------------------------- one step, then every history

  /** A call evolves the registry as a ledger and leaves nextIndex above every index ever used. */
  lemma GeneratedRegistryEvolves(keys: seq<string>, now: string, prior: Registry, r: Registry)
    requires WellFormed(View(prior)) && Generates(keys, now, prior, r)
    ensures Evolves(Elements(keys), View(prior), View(r))
    ensures forall a, x :: a in r.mapping && a !in prior.mapping && x in Used(prior) ==> x < r.mapping[a]
    ensures forall x :: x in Used(prior) || x in Used(r) ==> x < r.nextIndex
  {
    var (given, next) := Allocate(keys, prior.mapping, NextFree(prior));
    forall a | a in prior.mapping ensures prior.mapping[a] < NextFree(prior) {
      assert prior.mapping[a] in Used(prior);
    }
    AllocateProperties(keys, prior.mapping, NextFree(prior));
    forall a | a in Elements(keys) && a !in prior.mapping
      ensures r.mapping[a] !in prior.mapping.Values && r.mapping[a] !in BurnedKeys(prior.burned)
    {
      assert forall x :: x in Used(prior) ==> x < NextFree(prior) <= r.mapping[a];
    }
    assert KeysLeaving(given, given.Keys - Elements(keys)) ==
        KeysLeaving(prior.mapping, prior.mapping.Keys - Elements(keys));
    forall x | x in Used(prior) || x in Used(r) ensures x < r.nextIndex {
      if x in r.mapping.Values {
        var a :| a in r.mapping && r.mapping[a] == x;
        assert a in given;
      }
    }
  }

  // ---------------------------------------------------------------- which indices are handed out

  /** The stored index when it is above every used one, and otherwise one above the largest of these. */
  ghost predicate IsStart(r: Registry, start: nat) {
    && (forall x :: x in Used(r) ==> x < start)
    && r.nextIndex <= start && (r.nextIndex < start ==> start - 1 in Used(r))
  }

  ghost predicate IsNew(keys: seq<string>, mapping: map<string, nat>, i: nat)
    requires i < |keys|
  {
    keys[i] !in mapping && keys[i] !in keys[..i]
  }

  lemma NextFreeIsStart(r: Registry)
    ensures IsStart(r, NextFree(r))
  {
    assert IsMax(Used(r), MaxOf(Used(r)));
  }

  /** How many different attributes among the keys are not mapped. */
  function NewCount(keys: seq<string>, mapping: map<string, nat>): nat { |Elements(keys) - mapping.Keys| }

  lemma NewCountStep(keys: seq<string>, mapping: map<string, nat>)
    requires keys != []
    ensures var last := |keys| - 1;
      NewCount(keys, mapping) == NewCount(keys[..last], mapping) + if IsNew(keys, mapping, last) then 1 else 0
  {
    var last := |keys| - 1;
    var before, k := Elements(keys[..last]) - mapping.Keys, keys[last];
    assert Elements(keys) == Elements(keys[..last]) + {k};
    assert Elements(keys) - mapping.Keys == if IsNew(keys, mapping, last) then before + {k} else before;
  }

  lemma {:induction false} AllocateMaps(keys: seq<string>, mapping: map<string, nat>, next: nat)
    ensures forall a :: a in Allocate(keys, mapping, next).0 <==> a in mapping || a in keys
  {
    if keys != [] {
      var before, k := keys[..|keys| - 1], keys[|keys| - 1];
      assert keys == before + [k];
      AllocateMaps(before, mapping, next);
      AllocateSnoc(before, k, mapping, next);
    }
  }

  lemma {:induction false} AllocateCounts(keys: seq<string>, mapping: map<string, nat>, next: nat)
    ensures Allocate(keys, mapping, next).1 == next + NewCount(keys, mapping)
  {
    if keys != [] {
      var before, k := keys[..|keys| - 1], keys[|keys| - 1];
      assert keys == before + [k];
      NewCountStep(keys, mapping);
      AllocateMaps(before, mapping, next);
      AllocateCounts(before, mapping, next);
      AllocateSnoc(before, k, mapping, next);
    } else {
      assert Elements([]) - mapping.Keys == {};
    }
  }

  lemma {:induction false} AllocatedIndex(keys: seq<string>, mapping: map<string, nat>, next: nat, i: nat)
    requires i < |keys| && IsNew(keys, mapping, i)
    ensures var m := Allocate(keys, mapping, next).0;
      keys[i] in m && m[keys[i]] == next + NewCount(keys[..i], mapping)
  {
    var last := |keys| - 1;
    var before := keys[..last];
    assert keys == before + [keys[last]];
    AllocateMaps(before, mapping, next);
    AllocateCounts(before, mapping, next);
    AllocateSnoc(before, keys[last], mapping, next);
    if i < last {
      assert before[..i] == keys[..i];
      AllocatedIndex(before, mapping, next, i);
    }
  }

  /** Main result: new attributes get the start index and the ones after it, without gaps, in the order in which
      they first occur, and the next index is the first one that is left. */
  lemma FreshIndicesAreConsecutive(keys: seq<string>, now: string, prior: Registry, r: Registry)
    returns (start: nat)
    requires Generates(keys, now, prior, r)
    ensures IsStart(prior, start)
    ensures r.nextIndex == start + |Elements(keys) - prior.mapping.Keys|
    ensures forall i :: 0 <= i < |keys| && IsNew(keys, prior.mapping, i) ==>
      keys[i] in r.mapping && r.mapping[keys[i]] == start + |Elements(keys[..i]) - prior.mapping.Keys|
  {
    start := NextFree(prior);
    NextFreeIsStart(prior);
    AllocateMaps(keys, prior.mapping, start);
    AllocateCounts(keys, prior.mapping, start);
    forall i | 0 <= i < |keys| && IsNew(keys, prior.mapping, i)
      ensures keys[i] in r.mapping && r.mapping[keys[i]] == start + NewCount(keys[..i], prior.mapping)
    {
      AllocatedIndex(keys, prior.mapping, start, i);
    }
  }

  lemma {:induction false} DistinctElements(keys: seq<string>)
    requires NoDuplicates(keys)
    ensures NewCount(keys, map[]) == |keys|
  {
    if keys != [] {
      var last := |keys| - 1;
      DistinctElements(keys[..last]);
      NewCountStep(keys, map[]);
      assert keys[last] !in keys[..last];
    } else {
      assert Elements(keys) - EMPTY.mapping.Keys == {};
    }
  }

  lemma NumberedFromZero(keys: seq<string>, i: nat)
    requires NoDuplicates(keys) && i < |keys|
    ensures var m := Allocate(keys, map[], 0).0; keys[i] in m && m[keys[i]] == i
  {
    DistinctElements(keys[..i]);
    AllocatedIndex(keys, map[], 0, i);
  }

  lemma StartOfEmpty()
    ensures NextFree(EMPTY) == 0
  {
    NextFreeIsStart(EMPTY);
  }

  /** From nothing, the attributes are numbered 0, 1, 2, ... */
  lemma FirstIndices(keys: seq<string>, now: string, r: Registry)
    requires Generates(keys, now, EMPTY, r) && NoDuplicates(keys)
    ensures r.nextIndex == |keys| && r.burned == []
    ensures forall i :: 0 <= i < |keys| ==> keys[i] in r.mapping && r.mapping[keys[i]] == i
  {
    StartOfEmpty();
    NothingLeaves(keys, now, EMPTY, r);
    AllocateMaps(keys, map[], 0);
    AllocateCounts(keys, map[], 0);
    DistinctElements(keys);
    forall i | 0 <= i < |keys| ensures keys[i] in r.mapping && r.mapping[keys[i]] == i {
      NumberedFromZero(keys, i);
    }
  }

  /** A call that names every mapped attribute burns nothing. */
  lemma NothingLeaves(keys: seq<string>, now: string, prior: Registry, r: Registry)
    requires Generates(keys, now, prior, r) && prior.mapping.Keys <= Elements(keys)
    ensures r.burned == prior.burned
  {
    var given := Allocate(keys, prior.mapping, NextFree(prior)).0;
    AllocateMaps(keys, prior.mapping, NextFree(prior));
    if |prior.burned| < |r.burned| {
      var a := LeaverOfBurn(given, given.Keys - Elements(keys), prior.burned, r.burned, now);
    }
  }

  /** Main result: a call with the attributes that are mapped already, in whatever order, changes nothing. */
  lemma UnchangedAttributes(keys: seq<string>, now: string, prior: Registry, r: Registry)
    requires Generates(keys, now, prior, r) && Elements(keys) == prior.mapping.Keys
    requires forall x :: x in Used(prior) ==> x < prior.nextIndex
    ensures r == prior
  {
    NextFreeIsStart(prior);
    NothingLeaves(keys, now, prior, r);
    AllocateCounts(keys, prior.mapping, prior.nextIndex);
    assert NewCount(keys, prior.mapping) == 0;
    AllocateAddsNothing(keys, prior.mapping, prior.nextIndex);
  }

  /** Metadata names that a provider turns into lower case stay as they are, so no two of them become equal. */
  lemma KeysSurviveLowerCase(m: nat, n: nat)
    ensures ToLower(EncodeKey(m)) == EncodeKey(m)
    ensures ToLower(EncodeKey(m)) == ToLower(EncodeKey(n)) ==> m == n
  {
    LowerCaseNumeral(EncodeKey(m));
    LowerCaseNumeral(EncodeKey(n));
    EncodeInjective(36, m, n);
  }

  lemma LowerCaseNumeral(s: string)
    requires IsNumeral(36, s)
    ensures ToLower(s) == s
  {
    forall i | 0 <= i < |s| ensures LowerChar(s[i]) == s[i] { assert IsDigit(36, s[i]); }
  }

  /** When `changed` is raised the stored registry has to be written again.  When it is not, the only possible
      difference is that live attributes whose index was burned already are dropped; a well-formed registry
      has none, so for it `changed` is exact. */
  lemma ChangedIsExact(keys: seq<string>, now: string, prior: Registry, r: Registry)
    requires Generates(keys, now, prior, r)
    ensures var changed := r.nextIndex != prior.nextIndex || r.burned != prior.burned;
      && (changed ==> r != prior)
      && (!changed ==> (r == prior <==> forall a :: a in prior.mapping ==> a in keys))
      && (!changed ==> forall a :: a in prior.mapping && a !in keys ==> prior.mapping[a] in BurnedKeys(prior.burned))
      && (WellFormed(View(prior)) ==> (r != prior <==> changed))
  {
    if r.nextIndex == prior.nextIndex && r.burned == prior.burned {
      AllocateAddsNothing(keys, prior.mapping, NextFree(prior));
      forall a | a in prior.mapping && a !in keys ensures prior.mapping[a] in BurnedKeys(prior.burned) {
        assert prior.mapping[a] in KeysLeaving(prior.mapping, prior.mapping.Keys - Elements(keys));
      }
      forall a | WellFormed(View(prior)) && a in prior.mapping ensures a in keys {
        assert prior.mapping[a] in View(prior).live.Values;
      }
    }
  }

  lemma {:induction false} AllocateAddsNothing(keys: seq<string>, mapping: map<string, nat>, next: nat)
    ensures Allocate(keys, mapping, next).1 >= next
    ensures Allocate(keys, mapping, next).1 == next ==> Allocate(keys, mapping, next).0 == mapping
    ensures Allocate(keys, mapping, next).1 == next ==> forall k :: k in keys ==> k in mapping
  {
    if keys != [] {
      if keys[0] in mapping { AllocateAddsNothing(keys[1..], mapping, next); }
      else { AllocateAddsNothing(keys[1..], mapping[keys[0] := next], next + 1); }
    }
  }

  ghost predicate MutuallyInverse(mapping: map<string, string>, reversed: map<string, string>) {
    && (forall k :: k in mapping ==> mapping[k] in reversed && reversed[mapping[k]] == k)
    && (forall s :: s in reversed ==> reversed[s] in mapping && mapping[reversed[s]] == s)
  }

  /** The last attribute in the loop either is there already or has a key of its own. */
  lemma InverseAfterOneMore(mapping: map<string, string>, reversed: map<string, string>, key: string, code: string)
    requires MutuallyInverse(mapping, reversed)
    requires forall k :: k in mapping ==> (k == key <==> mapping[k] == code)
    ensures MutuallyInverse(mapping[key := code], reversed[code := key])
  {}

  /** The two tables are mutually inverse, and the first one spells out the indices. */
  lemma {:induction false} TablesAreInverse(keys: seq<string>, indices: map<string, nat>)
    requires (forall k :: k in keys ==> k in indices) && Injective(indices)
    ensures
      var (mapping, reversed) := Tables(keys, indices);
      && mapping.Keys == Elements(keys)
      && (forall k :: k in mapping ==> mapping[k] == EncodeKey(indices[k]))
      && MutuallyInverse(mapping, reversed)
  {
    if keys != [] {
      var key := keys[|keys| - 1];
      TablesAreInverse(keys[..|keys| - 1], indices);
      var (mapping, reversed) := Tables(keys[..|keys| - 1], indices);
      assert Elements(keys) == Elements(keys[..|keys| - 1]) + {key};
      forall k | k in mapping ensures k == key <==> mapping[k] == EncodeKey(indices[key]) {
        EncodeInjective(36, indices[k], indices[key]);
      }
      InverseAfterOneMore(mapping, reversed, key, EncodeKey(indices[key]));
    }
  }

  /** rs[0] is well-formed and rs[i + 1] is what the call with the attributes sets[i] makes of rs[i]. */
  ghost predicate RegistryHistory(rs: seq<Registry>, sets: seq<seq<string>>, times: seq<string>) {
    && |rs| == |sets| + 1 == |times| + 1
    && WellFormed(View(rs[0]))
    && forall i :: 0 <= i < |sets| ==> Generates(sets[i], times[i], rs[i], rs[i + 1])
  }

  ghost function Ledgers(rs: seq<Registry>): (h: seq<Ledger<nat>>)
    ensures |h| == |rs| && forall i :: 0 <= i < |rs| ==> h[i] == View(rs[i])
  {
    seq(|rs|, i requires 0 <= i < |rs| => View(rs[i]))
  }

  ghost function AttributeSets(calls: seq<seq<string>>): (sets: seq<set<string>>)
    ensures |sets| == |calls| && forall i :: 0 <= i < |calls| ==> sets[i] == Elements(calls[i])
  {
    seq(|calls|, i requires 0 <= i < |calls| => Elements(calls[i]))
  }

  lemma OneCallEvolves(rs: seq<Registry>, sets: seq<seq<string>>, times: seq<string>, i: nat)
    requires RegistryHistory(rs, sets, times) && i < |sets| && WellFormed(View(rs[i]))
    ensures Evolves(Elements(sets[i]), View(rs[i]), View(rs[i + 1])) && WellFormed(View(rs[i + 1]))
  {
    GeneratedRegistryEvolves(sets[i], times[i], rs[i], rs[i + 1]);
    EvolvesKeepsWellFormed(Elements(sets[i]), View(rs[i]), View(rs[i + 1]));
  }

  lemma {:induction false} EveryCallEvolves(rs: seq<Registry>, sets: seq<seq<string>>, times: seq<string>, n: nat)
    requires RegistryHistory(rs, sets, times) && n <= |sets|
    ensures WellFormed(View(rs[n]))
    ensures forall i :: 0 <= i < n ==> Evolves(Elements(sets[i]), View(rs[i]), View(rs[i + 1]))
  {
    if n > 0 {
      EveryCallEvolves(rs, sets, times, n - 1);
      OneCallEvolves(rs, sets, times, n - 1);
    }
  }

  lemma RegistryHistoryIsLedgerHistory(rs: seq<Registry>, sets: seq<seq<string>>, times: seq<string>)
    requires RegistryHistory(rs, sets, times)
    ensures History(Ledgers(rs), AttributeSets(sets))
  {
    EveryCallEvolves(rs, sets, times, |sets|);
    var h, es := Ledgers(rs), AttributeSets(sets);
    forall i | 0 <= i < |es| ensures Evolves(es[i], h[i], h[i + 1]) {
      assert es[i] == Elements(sets[i]);
    }
  }

  /**
   Main result.  Over every history of attribute sets an index is never given to a second
   attribute, nor given back: two attributes with the same index, at any two times, are one
   attribute that held it all the time in between.
  */
  lemma IndexIsNeverReassigned(rs: seq<Registry>, sets: seq<seq<string>>, times: seq<string>, i: nat, j: nat,
      a: string, b: string)
    requires RegistryHistory(rs, sets, times) && i <= j < |rs|
    requires a in rs[i].mapping && b in rs[j].mapping && rs[i].mapping[a] == rs[j].mapping[b]
    ensures a == b
    ensures forall m :: i <= m <= j ==> a in rs[m].mapping && rs[m].mapping[a] == rs[i].mapping[a]
  {
    var h, es := Ledgers(rs), AttributeSets(sets);
    RegistryHistoryIsLedgerHistory(rs, sets, times);
    KeyIsNeverReassigned(h, es, i, j, a, b);
    forall m | i <= m <= j ensures a in rs[m].mapping && rs[m].mapping[a] == rs[i].mapping[a] {
      assert a in h[m].live && h[m].live[a] == h[i].live[a];
    }
  }

  /** An index that is burned, also one burned before the history began, stays burned and is never handed out. */
  lemma BurnedIndexIsForever(rs: seq<Registry>, sets: seq<seq<string>>, times: seq<string>, i: nat, j: nat, x: nat)
    requires RegistryHistory(rs, sets, times) && i <= j < |rs| && x in BurnedKeys(rs[i].burned)
    ensures x in BurnedKeys(rs[j].burned) && x !in rs[j].mapping.Values
  {
    var h, es := Ledgers(rs), AttributeSets(sets);
    RegistryHistoryIsLedgerHistory(rs, sets, times);
    BurnedIsForever(h, es, i, j, x);
  }

  lemma RegistryMapsItsAttributes(rs: seq<Registry>, sets: seq<seq<string>>, times: seq<string>, i: nat)
    requires RegistryHistory(rs, sets, times) && 1 <= i < |rs|
    ensures Injective(rs[i].mapping) && rs[i].mapping.Keys == Elements(sets[i - 1])
  {
    var h, es := Ledgers(rs), AttributeSets(sets);
    RegistryHistoryIsLedgerHistory(rs, sets, times);
    assert Evolves(es[i - 1], h[i - 1], h[i]);
  }

  /** A key written for `a` under schema i, read under a later schema j, reverse-maps to `a` or to nothing. */
  lemma OldKeysNeverMislead(rs: seq<Registry>, sets: seq<seq<string>>, times: seq<string>, i: nat, j: nat, a: string)
    requires RegistryHistory(rs, sets, times)
    requires 1 <= i <= j < |rs| && a in sets[i - 1]
    ensures a in rs[i].mapping && forall k :: k in sets[j - 1] ==> k in rs[j].mapping
    ensures
      var written := EncodeKey(rs[i].mapping[a]);
      var reversed := Tables(sets[j - 1], rs[j].mapping).1;
      written in reversed ==> reversed[written] == a
  {
    RegistryMapsItsAttributes(rs, sets, times, i);
    RegistryMapsItsAttributes(rs, sets, times, j);
    assert a in Elements(sets[i - 1]);
    forall k | k in sets[j - 1] ensures k in rs[j].mapping {
      assert k in Elements(sets[j - 1]);
    }
    TablesAreInverse(sets[j - 1], rs[j].mapping);
    var written := EncodeKey(rs[i].mapping[a]);
    var reversed := Tables(sets[j - 1], rs[j].mapping).1;
    if written in reversed {
      var b := reversed[written];
      EncodeInjective(36, rs[j].mapping[b], rs[i].mapping[a]);
      IndexIsNeverReassigned(rs, sets, times, i, j, a, b);
    }
  }
}
