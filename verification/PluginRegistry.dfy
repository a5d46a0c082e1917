/** Permanent hash-based keys of plugin attributes. */
module PluginRegistry {
  import opened Wrappers
  import opened KeyLedger
  import opened Numerals
  import opened TextLists

  datatype Attribute = Attribute(key: string, pluginName: string)

  datatype Registry = Registry(mapping: map<string, string>, burned: seq<BurnedEntry<string>>)

  const EMPTY: Registry := Registry(map[], [])

  /** The first 32 bits of SHA-256 of a text, taken as an arbitrary function. */
  type Digest = string -> nat

  function AttributeHash(digest: Digest, pluginName: string, attributeName: string): string {
    var padded := PadStart(Encode(62, digest(pluginName + ":" + attributeName)), 3, '0');
    "p" + ToLower(padded[..3])
  }

  /** The hash is a p and, in lower case, the first three base-62 digits of the digest, with zeros in front of a
      shorter numeral. */
  lemma AttributeHashForm(digest: Digest, pluginName: string, attributeName: string) returns (digits: string)
    ensures Decode(62, digits) == Some(digest(pluginName + ":" + attributeName)) && |digits| >= 3
    ensures |digits| > 3 ==> digits[0] != '0'
    ensures AttributeHash(digest, pluginName, attributeName) == "p" + ToLower(digits[..3])
  {
    var n := digest(pluginName + ":" + attributeName);
    digits := PadStart(Encode(62, n), 3, '0');
    FixedRoundTrip(62, n, 3);
    if n > 0 { NoLeadingZero(62, n); }
  }

  // ---------------------------------------------------------------- probing

  /** The keys tried for one attribute: the hash itself, then the hash with 1, 2, 3, ... appended. */
  function Candidate(hash: string, counter: nat): string {
    if counter == 0 then hash else hash + Encode(10, counter)
  }

  function Tried(hash: string, counter: nat): set<string> {
    if counter == 0 then {} else Tried(hash, counter - 1) + {Candidate(hash, counter - 1)}
  }

  lemma CandidateInjective(hash: string, a: nat, b: nat)
    ensures Candidate(hash, a) == Candidate(hash, b) ==> a == b
  {
    assert Candidate(hash, a)[|hash|..] == (if a == 0 then [] else Encode(10, a));
    assert Candidate(hash, b)[|hash|..] == (if b == 0 then [] else Encode(10, b));
    EncodeInjective(10, a, b);
  }

  lemma {:induction false} CandidateIsNew(hash: string, counter: nat, c: nat)
    requires counter <= c
    ensures Candidate(hash, c) !in Tried(hash, counter)
  {
    if counter > 0 {
      CandidateIsNew(hash, counter - 1, c);
      CandidateInjective(hash, counter - 1, c);
    }
  }

  /** Every rejected candidate is another member of the finite set of used keys, so the search ends. */
  function ProbeFrom(hash: string, used: set<string>, counter: nat): string
    decreases used - Tried(hash, counter)
  {
    var key := Candidate(hash, counter);
    if key !in used then key
    else
      CandidateIsNew(hash, counter, counter);
      assert key in used - Tried(hash, counter);
      ProbeFrom(hash, used, counter + 1)
  }

  /** The least candidate that is not in use. */
  ghost predicate IsProbed(hash: string, used: set<string>, key: string) {
    exists c: nat :: key == Candidate(hash, c) && key !in used && forall b: nat :: b < c ==> Candidate(hash, b) in used
  }

  lemma {:induction false} ProbeIsLeastFree(hash: string, used: set<string>, counter: nat)
    requires forall b: nat :: b < counter ==> Candidate(hash, b) in used
    ensures IsProbed(hash, used, ProbeFrom(hash, used, counter))
    ensures hash != "" ==> ProbeFrom(hash, used, counter) != ""
    decreases used - Tried(hash, counter)
  {
    if Candidate(hash, counter) in used {
      CandidateIsNew(hash, counter, counter);
      assert Candidate(hash, counter) in used - Tried(hash, counter);
      ProbeIsLeastFree(hash, used, counter + 1);
    }
  }

  /** c is the first number from 1 on that makes the hash free. */
  ghost predicate IsNumbered(hash: string, used: set<string>, c: nat) {
    c >= 1 && hash + Encode(10, c) !in used && forall b: nat :: 1 <= b < c ==> hash + Encode(10, b) in used
  }

  /** The hash itself when it is free, and otherwise the hash with the first number that makes it so. */
  lemma ProbedKeyForm(hash: string, used: set<string>)
    ensures hash !in used ==> ProbeFrom(hash, used, 0) == hash
    ensures hash in used ==>
      exists c: nat :: IsNumbered(hash, used, c) && ProbeFrom(hash, used, 0) == hash + Encode(10, c)
  {
    ProbeIsLeastFree(hash, used, 0);
    assert Candidate(hash, 0) == hash;
    if hash in used {
      var c: nat :| ProbeFrom(hash, used, 0) == Candidate(hash, c) && Candidate(hash, c) !in used
                    && forall b: nat :: b < c ==> Candidate(hash, b) in used;
      assert forall b: nat :: b >= 1 ==> Candidate(hash, b) == hash + Encode(10, b);
      assert IsNumbered(hash, used, c);
    }
  }

  method Probe(hash: string, used: set<string>) returns (key: string)
    ensures key == ProbeFrom(hash, used, 0)
  {
    var counter := 0;
    key := hash;
    while key in used
      invariant counter >= 0 && key == Candidate(hash, counter)
      invariant ProbeFrom(hash, used, counter) == ProbeFrom(hash, used, 0)
      decreases used - Tried(hash, counter)
    {
      CandidateIsNew(hash, counter, counter);
      assert key in used - Tried(hash, counter);
      counter := counter + 1;
      key := hash + Encode(10, counter);
    }
  }

  // ---------------------------------------------------------------- without a registry

  datatype Tables = Tables(mapping: map<string, string>, reversed: map<string, string>, used: set<string>)

  type Hash = Attribute -> string

  function HashWith(digest: Digest): Hash { (a: Attribute) => AttributeHash(digest, a.pluginName, a.key) }

  function HashedTables(hash: Hash, attributes: seq<Attribute>): Tables {
    if attributes == [] then Tables(map[], map[], {})
    else
      var a := attributes[|attributes| - 1];
      var t := HashedTables(hash, attributes[..|attributes| - 1]);
      var key := ProbeFrom(hash(a), t.used, 0);
      Tables(t.mapping[a.key := key], t.reversed[key := a.key], t.used + {key})
  }

  method GeneratePluginMapping(digest: Digest, attributes: seq<Attribute>)
    returns (mapping: map<string, string>, reversedMapping: map<string, string>)
    ensures mapping == HashedTables(HashWith(digest), attributes).mapping
    ensures reversedMapping == HashedTables(HashWith(digest), attributes).reversed
  {
    mapping, reversedMapping := map[], map[];
    var usedHashes := {};
    for i := 0 to |attributes|
      invariant HashedTables(HashWith(digest), attributes[..i]) == Tables(mapping, reversedMapping, usedHashes)
    {
      assert attributes[..i + 1][..i] == attributes[..i];
      var Attribute(key, pluginName) := attributes[i];
      var finalHash := Probe(AttributeHash(digest, pluginName, key), usedHashes);
      usedHashes := usedHashes + {finalHash};
      mapping := mapping[key := finalHash];
      reversedMapping := reversedMapping[finalHash := key];
    }
    assert attributes[..|attributes|] == attributes;
  }

  /** Distinct attributes get distinct keys across all plugins, whatever the hash. */
  lemma {:induction false} PluginMappingInjective(hash: Hash, attributes: seq<Attribute>)
    ensures
      var t := HashedTables(hash, attributes);
      && t.mapping.Keys == (set a | a in attributes :: a.key)
      && Injective(t.mapping)
      && t.used == t.reversed.Keys
      && (forall k :: k in t.mapping ==> t.mapping[k] in t.used && t.reversed[t.mapping[k]] == k)
  {
    if attributes != [] {
      var last := |attributes| - 1;
      PluginMappingInjective(hash, attributes[..last]);
      var a, t := attributes[last], HashedTables(hash, attributes[..last]);
      ProbeIsLeastFree(hash(a), t.used, 0);
      assert forall b :: b in attributes <==> b in attributes[..last] || b == a;
    }
  }

  ghost predicate NoCollision(hash: Hash, attributes: seq<Attribute>) {
    forall i, j :: 0 <= i < j < |attributes| ==> hash(attributes[i]) != hash(attributes[j])
  }

  ghost predicate HasItsHash(hash: Hash, attributes: seq<Attribute>, a: Attribute) {
    var mapping := HashedTables(hash, attributes).mapping;
    a.key in mapping && mapping[a.key] == hash(a)
  }

  ghost predicate IsLastOfItsName(attributes: seq<Attribute>, i: nat) {
    i < |attributes| && forall j :: i < j < |attributes| ==> attributes[j].key != attributes[i].key
  }

  /** When no two hashes collide, the hashes themselves are the keys; a name in several plugins has the last one. */
  lemma {:induction false} HashesWithoutCollision(hash: Hash, attributes: seq<Attribute>, i: nat)
    requires NoCollision(hash, attributes) && IsLastOfItsName(attributes, i)
    ensures HasItsHash(hash, attributes, attributes[i])
  {
    var before := attributes[..|attributes| - 1];
    if i < |before| {
      PrefixWithoutCollision(hash, attributes, i);
      HashesWithoutCollision(hash, before, i);
      HashStays(hash, attributes, before[i]);
    } else {
      LastHash(hash, attributes);
    }
  }

  lemma PrefixWithoutCollision(hash: Hash, attributes: seq<Attribute>, i: nat)
    requires NoCollision(hash, attributes) && IsLastOfItsName(attributes, i) && i < |attributes| - 1
    ensures NoCollision(hash, attributes[..|attributes| - 1])
    ensures IsLastOfItsName(attributes[..|attributes| - 1], i)
    ensures attributes[i].key != attributes[|attributes| - 1].key
  {}

  lemma HashStays(hash: Hash, attributes: seq<Attribute>, a: Attribute)
    requires attributes != [] && attributes[|attributes| - 1].key != a.key
    requires HasItsHash(hash, attributes[..|attributes| - 1], a)
    ensures HasItsHash(hash, attributes, a)
  {}

  lemma LastHash(hash: Hash, attributes: seq<Attribute>)
    requires NoCollision(hash, attributes) && attributes != []
    ensures HasItsHash(hash, attributes, attributes[|attributes| - 1])
  {
    var before := attributes[..|attributes| - 1];
    UsedAreHashes(hash, before);
    ProbedKeyForm(hash(attributes[|attributes| - 1]), HashedTables(hash, before).used);
  }

  lemma {:induction false} UsedAreHashes(hash: Hash, attributes: seq<Attribute>)
    requires NoCollision(hash, attributes)
    ensures forall k :: k in HashedTables(hash, attributes).used ==>
      exists i :: 0 <= i < |attributes| && hash(attributes[i]) == k
  {
    if attributes != [] {
      var last := |attributes| - 1;
      var before := attributes[..last];
      UsedAreHashes(hash, before);
      var used := HashedTables(hash, before).used;
      ProbedKeyForm(hash(attributes[last]), used);
      forall k | k in used ensures exists i :: 0 <= i < |attributes| && hash(attributes[i]) == k {
        var i :| 0 <= i < |before| && hash(before[i]) == k;
        assert attributes[i] == before[i];
      }
    }
  }

  // ---------------------------------------------------------------- with a registry

  function View(r: Registry): Ledger<string> {
    Ledger(r.mapping, BurnedKeys(r.burned))
  }

  function AllKeys(r: Registry): set<string> {
    r.mapping.Values + BurnedKeys(r.burned)
  }

  /** Well-formed, and no stored key is empty (an empty key would read as missing). */
  ghost predicate Sound(r: Registry) {
    WellFormed(View(r)) && "" !in r.mapping.Values
  }

  /** One plugin: stored keys are kept, missing ones are probed against everything in use so far. */
  function Assign(digest: Digest, plugin: string, keys: seq<string>, mapping: map<string, string>, tables: Tables):
      (map<string, string>, Tables) {
    if keys == [] then (mapping, tables)
    else
      var (m, t) := Assign(digest, plugin, keys[..|keys| - 1], mapping, tables);
      AssignNext(AttributeHash(digest, plugin, keys[|keys| - 1]), keys[|keys| - 1], m, t)
  }

  function AssignNext(hash: string, attr: string, m: map<string, string>, t: Tables): (map<string, string>, Tables) {
    if attr in m && m[attr] != "" then (m, Enter(t, attr, m[attr]))
    else
      var key := ProbeFrom(hash, t.used, 0);
      (m[attr := key], Enter(t.(used := t.used + {key}), attr, key))
  }

  function Enter(t: Tables, attr: string, key: string): Tables {
    t.(mapping := t.mapping[attr := key], reversed := t.reversed[key := attr])
  }

  /** m is `mapping` with more attributes, whose keys were not among those used at the start. */
  ghost predicate Extends(mapping: map<string, string>, start: set<string>, m: map<string, string>, used: set<string>) {
    && Injective(m) && "" !in m.Values && m.Values <= used && start <= used <= start + m.Values
    && (forall a :: a in mapping ==> a in m && m[a] == mapping[a])
    && (forall a :: a in m && a !in mapping ==> m[a] !in start)
  }

  lemma FreshKeyExtends(mapping: map<string, string>, start: set<string>, m: map<string, string>, used: set<string>,
      attr: string, key: string)
    requires Extends(mapping, start, m, used) && attr !in m && key !in used && key != ""
    ensures Extends(mapping, start, m[attr := key], used + {key})
  {
    assert forall a :: a in m ==> m[a] in m.Values;
    var longer := m[attr := key];
    forall k | k in m.Values ensures k in longer.Values {
      var a :| a in m && m[a] == k;
      assert longer[a] == k;
    }
    assert longer[attr] == key;
  }

  lemma NextExtends(mapping: map<string, string>, start: set<string>, hash: string, attr: string,
      m: map<string, string>, t: Tables)
    requires Extends(mapping, start, m, t.used) && hash != ""
    ensures var (longer, after) := AssignNext(hash, attr, m, t);
      longer.Keys == m.Keys + {attr} && Extends(mapping, start, longer, after.used)
  {
    if attr in m {
      assert m[attr] in m.Values;
    } else {
      ProbeIsLeastFree(hash, t.used, 0);
      FreshKeyExtends(mapping, start, m, t.used, attr, ProbeFrom(hash, t.used, 0));
    }
  }

  lemma {:induction false} AssignProperties(
      digest: Digest, plugin: string, keys: seq<string>, mapping: map<string, string>, tables: Tables)
    requires Injective(mapping) && "" !in mapping.Values && mapping.Values <= tables.used
    ensures
      var (m, t) := Assign(digest, plugin, keys, mapping, tables);
      m.Keys == mapping.Keys + Elements(keys) && Extends(mapping, tables.used, m, t.used)
  {
    if keys != [] {
      var before, attr := keys[..|keys| - 1], keys[|keys| - 1];
      assert Elements(keys) == Elements(before) + {attr};
      AssignProperties(digest, plugin, before, mapping, tables);
      var (m, t) := Assign(digest, plugin, before, mapping, tables);
      NextExtends(mapping, tables.used, AttributeHash(digest, plugin, attr), attr, m, t);
    }
  }

  /** What one call makes of the registry of one plugin, given the tables before it. */
  ghost predicate Generates(digest: Digest, plugin: string, keys: seq<string>, now: string, tables: Tables,
      prior: Registry, r: Registry) {
    var given := Assign(digest, plugin, keys, prior.mapping, Reserve(tables, prior)).0;
    && r.mapping == (map a | a in given && a in keys :: given[a])
    && BurnsRemoved(given, given.Keys - Elements(keys), prior.burned, r.burned, now)
  }

  /** Stored and burned keys of the plugin count as used before any of its attributes is assigned. */
  function Reserve(tables: Tables, prior: Registry): Tables {
    tables.(used := tables.used + AllKeys(prior))
  }

  method EvolvePlugin(digest: Digest, plugin: string, keys: seq<string>, now: string, prior: Registry, before: Tables)
    returns (registry: Registry, after: Tables)
    ensures Generates(digest, plugin, keys, now, before, prior, registry)
    ensures after == Assign(digest, plugin, keys, prior.mapping, Reserve(before, prior)).1
  {
    var given := prior.mapping;
    after := Reserve(before, prior);
    for i := 0 to |keys|
      invariant (given, after) == Assign(digest, plugin, keys[..i], prior.mapping, Reserve(before, prior))
    {
      var attrName := keys[i];
      assert keys[..i + 1][..i] == keys[..i];
      if attrName !in given || given[attrName] == "" {
        var hashKey := Probe(AttributeHash(digest, plugin, attrName), after.used);
        after := after.(used := after.used + {hashKey});
        given := given[attrName := hashKey];
      }
      after := Enter(after, attrName, given[attrName]);
    }
    assert keys[..|keys|] == keys;
    var kept, burned, _ := BurnRemoved(given, prior.burned, keys, now);
    registry := Registry(kept, burned);
  }

  /** The plugins in the order in which the attribute list first names them. */
  function PluginsOf(attributes: seq<Attribute>): seq<string> {
    if attributes == [] then []
    else
      var plugins := PluginsOf(attributes[..|attributes| - 1]);
      var p := attributes[|attributes| - 1].pluginName;
      if p in plugins then plugins else plugins + [p]
  }

  function KeysOf(attributes: seq<Attribute>, plugin: string): seq<string> {
    if attributes == [] then []
    else (if attributes[0].pluginName == plugin then [attributes[0].key] else []) + KeysOf(attributes[1..], plugin)
  }

  function PriorOf(existing: map<string, Registry>, plugin: string): Registry {
    if plugin in existing then existing[plugin] else EMPTY
  }

  /** The lookup tables and used keys after the first n plugins. */
  function TablesAfter(digest: Digest, attributes: seq<Attribute>, existing: map<string, Registry>,
      plugins: seq<string>, n: nat): Tables
    requires n <= |plugins|
  {
    if n == 0 then Tables(map[], map[], {})
    else
      var p := plugins[n - 1];
      var before := TablesAfter(digest, attributes, existing, plugins, n - 1);
      Assign(digest, p, KeysOf(attributes, p), PriorOf(existing, p).mapping, Reserve(before, PriorOf(existing, p))).1
  }

  /** The registries of the first n plugins and nothing else, each made in its turn. */
  ghost predicate GeneratesFirst(
      digest: Digest, attributes: seq<Attribute>, now: string, existing: map<string, Registry>,
      plugins: seq<string>, n: nat, registries: map<string, Registry>)
    requires n <= |plugins|
  {
    if n == 0 then registries == map[]
    else
      var p := plugins[n - 1];
      && p in registries
      && GeneratesFirst(digest, attributes, now, existing, plugins, n - 1, registries - {p})
      && Generates(digest, p, KeysOf(attributes, p), now, TablesAfter(digest, attributes, existing, plugins, n - 1),
                   PriorOf(existing, p), registries[p])
  }

  ghost predicate GeneratesAll(
      digest: Digest, attributes: seq<Attribute>, now: string, existing: map<string, Registry>,
      registries: map<string, Registry>)
  {
    GeneratesFirst(digest, attributes, now, existing, PluginsOf(attributes), |PluginsOf(attributes)|, registries)
  }

  lemma {:induction false} PluginsAreDistinct(attributes: seq<Attribute>, i: nat, j: nat)
    requires i < j < |PluginsOf(attributes)|
    ensures PluginsOf(attributes)[i] != PluginsOf(attributes)[j]
  {
    var plugins := PluginsOf(attributes[..|attributes| - 1]);
    if j < |plugins| { PluginsAreDistinct(attributes[..|attributes| - 1], i, j); }
  }

  lemma GenerateOneMore(digest: Digest, attributes: seq<Attribute>, now: string, existing: map<string, Registry>,
                        plugins: seq<string>, n: nat, registries: map<string, Registry>, r: Registry)
    requires n < |plugins| && GeneratesFirst(digest, attributes, now, existing, plugins, n, registries)
    requires Generates(digest, plugins[n], KeysOf(attributes, plugins[n]), now,
                       TablesAfter(digest, attributes, existing, plugins, n), PriorOf(existing, plugins[n]), r)
    requires plugins[n] !in registries
    ensures GeneratesFirst(digest, attributes, now, existing, plugins, n + 1, registries[plugins[n] := r])
  {
    assert registries[plugins[n] := r] - {plugins[n]} == registries;
  }

  method GeneratePluginMappingFromRegistry(digest: Digest, attributes: seq<Attribute>, now: string,
      existing: map<string, Registry>)
    returns (mapping: map<string, string>, reversedMapping: map<string, string>, registries: map<string, Registry>)
    ensures GeneratesAll(digest, attributes, now, existing, registries)
    ensures mapping == MergedTables(digest, attributes, existing).mapping
    ensures reversedMapping == MergedTables(digest, attributes, existing).reversed
  {
    var plugins := PluginsOf(attributes);
    var tables := Tables(map[], map[], {});
    registries := map[];
    for i := 0 to |plugins|
      invariant tables == TablesAfter(digest, attributes, existing, plugins, i)
      invariant GeneratesFirst(digest, attributes, now, existing, plugins, i, registries)
      invariant forall j :: i <= j < |plugins| ==> plugins[j] !in registries
    {
      var p := plugins[i];
      forall j | i < j < |plugins| ensures plugins[j] != p { PluginsAreDistinct(attributes, i, j); }
      var registry;
      registry, tables := EvolvePlugin(digest, p, KeysOf(attributes, p), now, PriorOf(existing, p), tables);
      GenerateOneMore(digest, attributes, now, existing, plugins, i, registries, registry);
      registries := registries[p := registry];
    }
    mapping, reversedMapping := tables.mapping, tables.reversed;
  }

  // ---------------------------------------------------------------- the merged tables

  /** Both maps have the same entry under k, or both have none. */
  ghost predicate SameAt(a: map<string, string>, b: map<string, string>, k: string) {
    (k in a <==> k in b) && (k in a ==> a[k] == b[k])
  }

  ghost predicate Holds(m: map<string, string>, keys: seq<string>, key: string) {
    exists a :: a in keys && a in m && m[a] == key
  }

  /** A plugin enters the key of each of its attributes and leaves the entries of the others alone. */
  lemma {:induction false} AssignEnters(
      digest: Digest, plugin: string, keys: seq<string>, mapping: map<string, string>, tables: Tables)
    ensures
      var (m, t) := Assign(digest, plugin, keys, mapping, tables);
      && (forall a :: a in keys ==> a in m && a in t.mapping && t.mapping[a] == m[a])
      && (forall a :: a !in keys ==> SameAt(t.mapping, tables.mapping, a))
  {
    if keys != [] {
      var last := |keys| - 1;
      AssignEnters(digest, plugin, keys[..last], mapping, tables);
      assert keys == keys[..last] + [keys[last]];
    }
  }

  lemma ReversesOneMore(m: map<string, string>, given: map<string, string>, keys: seq<string>, attr: string,
      original: map<string, string>, reversed: map<string, string>)
    requires Injective(given) && attr in given
    requires forall a :: a in keys ==> a in m && a in given && given[a] == m[a]
    requires forall a :: a in keys ==> m[a] in reversed && reversed[m[a]] == a
    requires forall k :: !Holds(m, keys, k) ==> SameAt(reversed, original, k)
    ensures var longer, after := keys + [attr], reversed[given[attr] := attr];
      && (forall a :: a in longer ==> a in given && given[a] in after && after[given[a]] == a)
      && (forall k :: !Holds(given, longer, k) ==> SameAt(after, original, k))
  {
    var longer, after := keys + [attr], reversed[given[attr] := attr];
    forall k | !Holds(given, longer, k) ensures SameAt(after, original, k) {
      assert attr in longer;
      forall a | a in keys && a in m ensures m[a] != k { assert a in longer; }
      assert !Holds(m, keys, k);
    }
  }

  lemma AssignOneMore(digest: Digest, plugin: string, keys: seq<string>, mapping: map<string, string>, tables: Tables)
    requires keys != [] && Injective(mapping) && "" !in mapping.Values && mapping.Values <= tables.used
    ensures
      var last := |keys| - 1;
      var (m, t) := Assign(digest, plugin, keys[..last], mapping, tables);
      var (given, after) := Assign(digest, plugin, keys, mapping, tables);
      && Injective(given) && keys[last] in given && after.reversed == t.reversed[given[keys[last]] := keys[last]]
      && (forall a :: a in keys[..last] ==> a in m && a in given && given[a] == m[a])
  {
    var last := |keys| - 1;
    AssignProperties(digest, plugin, keys[..last], mapping, tables);
    AssignProperties(digest, plugin, keys, mapping, tables);
    var m := Assign(digest, plugin, keys[..last], mapping, tables).0;
    assert Elements(keys[..last]) <= m.Keys;
    forall a | a in keys[..last] ensures a in m && m[a] != "" {
      assert a in Elements(keys[..last]);
      assert m[a] in m.Values;
    }
  }

  /** It enters each of its attributes under its key, and leaves the entries under other keys alone. */
  lemma {:induction false} AssignReverses(
      digest: Digest, plugin: string, keys: seq<string>, mapping: map<string, string>, tables: Tables)
    requires Injective(mapping) && "" !in mapping.Values && mapping.Values <= tables.used
    ensures
      var (m, t) := Assign(digest, plugin, keys, mapping, tables);
      && (forall a :: a in keys ==> a in m && m[a] in t.reversed && t.reversed[m[a]] == a)
      && (forall k :: !Holds(m, keys, k) ==> SameAt(t.reversed, tables.reversed, k))
  {
    if keys != [] {
      var last := |keys| - 1;
      assert keys == keys[..last] + [keys[last]];
      AssignReverses(digest, plugin, keys[..last], mapping, tables);
      AssignOneMore(digest, plugin, keys, mapping, tables);
      var (m, t) := Assign(digest, plugin, keys[..last], mapping, tables);
      var given := Assign(digest, plugin, keys, mapping, tables).0;
      ReversesOneMore(m, given, keys[..last], keys[last], tables.reversed, t.reversed);
    }
  }

  /** The registry of every plugin is made from the tables that the plugins before it left. */
  lemma {:induction false} EachInItsTurn(
      digest: Digest, attributes: seq<Attribute>, now: string, existing: map<string, Registry>,
      plugins: seq<string>, n: nat, registries: map<string, Registry>, i: nat)
    requires i < n <= |plugins| && forall j, k :: 0 <= j < k < |plugins| ==> plugins[j] != plugins[k]
    requires GeneratesFirst(digest, attributes, now, existing, plugins, n, registries)
    ensures plugins[i] in registries
    ensures Generates(digest, plugins[i], KeysOf(attributes, plugins[i]), now,
                      TablesAfter(digest, attributes, existing, plugins, i), PriorOf(existing, plugins[i]),
                      registries[plugins[i]])
  {
    var last := plugins[n - 1];
    if i < n - 1 {
      var before := registries - {last};
      EachInItsTurn(digest, attributes, now, existing, plugins, n - 1, before, i);
      assert plugins[i] != last && before[plugins[i]] == registries[plugins[i]];
    } else {
      assert plugins[i] == last;
    }
  }

  ghost predicate AllSound(existing: map<string, Registry>) {
    forall p :: p in existing ==> Sound(existing[p])
  }

  /** What one plugin brings to a call: its attributes, its stored mapping, and that mapping with the added keys. */
  datatype Turn = Turn(keys: seq<string>, stored: map<string, string>, given: map<string, string>)

  ghost predicate Enters(turn: Turn, before: Tables, after: Tables) {
    && before.used <= after.used
    && (forall a :: a in turn.keys ==> a in turn.given && turn.given[a] in after.used)
    && (forall a :: a in turn.keys ==> a in after.mapping && after.mapping[a] == turn.given[a])
    && (forall a :: a !in turn.keys ==> SameAt(after.mapping, before.mapping, a))
    && (forall a :: a in turn.keys ==> turn.given[a] in after.reversed && after.reversed[turn.given[a]] == a)
    && (forall k :: !Holds(turn.given, turn.keys, k) ==> SameAt(after.reversed, before.reversed, k))
    && (forall k :: k in before.used ==> (Holds(turn.given, turn.keys, k) <==> Holds(turn.stored, turn.keys, k)))
  }

  lemma AssignIsATurn(digest: Digest, plugin: string, keys: seq<string>, prior: Registry, tables: Tables)
    requires Sound(prior)
    ensures var (given, after) := Assign(digest, plugin, keys, prior.mapping, Reserve(tables, prior));
      Enters(Turn(keys, prior.mapping, given), tables, after)
  {
    var reserved := Reserve(tables, prior);
    var (given, after) := Assign(digest, plugin, keys, prior.mapping, reserved);
    AssignProperties(digest, plugin, keys, prior.mapping, reserved);
    AssignEnters(digest, plugin, keys, prior.mapping, reserved);
    AssignReverses(digest, plugin, keys, prior.mapping, reserved);
    forall a | a in keys ensures given[a] in after.used { assert given[a] in given.Values; }
    forall k | k in tables.used ensures Holds(given, keys, k) <==> Holds(prior.mapping, keys, k) {
      if Holds(prior.mapping, keys, k) {
        var a :| a in keys && a in prior.mapping && prior.mapping[a] == k;
        assert a in given && given[a] == k;
      }
    }
  }

  /** ts[0], ts[1], ... are the tables between the turns. */
  ghost predicate InTurn(turns: seq<Turn>, ts: seq<Tables>) {
    |ts| == |turns| + 1 && forall i :: 0 <= i < |turns| ==> Enters(turns[i], ts[i], ts[i + 1])
  }

  lemma {:induction false} UsedGrows(turns: seq<Turn>, ts: seq<Tables>, i: nat, n: nat)
    requires InTurn(turns, ts) && i <= n <= |turns|
    ensures ts[i].used <= ts[n].used
  {
    if i < n { UsedGrows(turns, ts, i, n - 1); }
  }

  /** The turns i, ..., n - 1 leave the entry of an attribute that none of them names. */
  lemma {:induction false} LaterLeaveMapping(turns: seq<Turn>, ts: seq<Tables>, i: nat, n: nat, a: string)
    requires InTurn(turns, ts) && i <= n <= |turns| && forall j :: i <= j < n ==> a !in turns[j].keys
    ensures SameAt(ts[n].mapping, ts[i].mapping, a)
  {
    if i < n { LaterLeaveMapping(turns, ts, i, n - 1, a); }
  }

  ghost predicate SomeHolds(turns: seq<Turn>, i: nat, n: nat, key: string)
    requires n <= |turns|
  {
    exists j :: i <= j < n && Holds(turns[j].given, turns[j].keys, key)
  }

  ghost predicate SomeNames(turns: seq<Turn>, i: nat, n: nat, a: string)
    requires n <= |turns|
  {
    exists j :: i <= j < n && a in turns[j].keys
  }

  /** The entry under a key becomes an attribute of one of the turns that hold the key, or stays if none does. */
  lemma {:induction false} LaterReverse(turns: seq<Turn>, ts: seq<Tables>, i: nat, n: nat, key: string)
    requires InTurn(turns, ts) && i <= n <= |turns|
    ensures if SomeHolds(turns, i, n, key)
            then key in ts[n].reversed && SomeNames(turns, i, n, ts[n].reversed[key])
            else SameAt(ts[n].reversed, ts[i].reversed, key)
  {
    if i < n {
      LaterReverse(turns, ts, i, n - 1, key);
      var turn := turns[n - 1];
      if Holds(turn.given, turn.keys, key) {
        var a :| a in turn.keys && a in turn.given && turn.given[a] == key;
        assert ts[n].reversed[key] == a;
      } else {
        assert SomeHolds(turns, i, n, key) <==> SomeHolds(turns, i, n - 1, key);
        assert SameAt(ts[n].reversed, ts[n - 1].reversed, key);
      }
    }
  }

  ghost predicate SomeStores(turns: seq<Turn>, i: nat, key: string) {
    exists j :: i <= j < |turns| && Holds(turns[j].stored, turns[j].keys, key)
  }

  /** A key of one turn leads back to its attribute exactly when no later plugin has stored that key. */
  lemma LeadsBackIff(turns: seq<Turn>, ts: seq<Tables>, i: nat, a: string)
    requires InTurn(turns, ts) && i < |turns| && a in turns[i].keys
    requires forall j :: i < j < |turns| ==> a !in turns[j].keys
    ensures a in turns[i].given
    ensures var key, t := turns[i].given[a], ts[|turns|];
      && a in t.mapping && t.mapping[a] == key && key in t.reversed
      && (t.reversed[key] == a <==> !SomeStores(turns, i + 1, key))
  {
    assert Enters(turns[i], ts[i], ts[i + 1]);
    var key, n := turns[i].given[a], |turns|;
    LaterLeaveMapping(turns, ts, i + 1, n, a);
    LaterReverse(turns, ts, i + 1, n, key);
    forall j | i < j < n
      ensures Holds(turns[j].given, turns[j].keys, key) <==> Holds(turns[j].stored, turns[j].keys, key)
    {
      UsedGrows(turns, ts, i + 1, j);
      assert Enters(turns[j], ts[j], ts[j + 1]);
    }
    assert SomeHolds(turns, i + 1, n, key) <==> SomeStores(turns, i + 1, key);
  }

  // ---------------------------------------------------------------- the turns of a call

  ghost function TurnAt(digest: Digest, attributes: seq<Attribute>, existing: map<string, Registry>,
      plugins: seq<string>, i: nat): Turn
    requires i < |plugins|
  {
    var p := plugins[i];
    var tables := Reserve(TablesAfter(digest, attributes, existing, plugins, i), PriorOf(existing, p));
    Turn(KeysOf(attributes, p), PriorOf(existing, p).mapping,
         Assign(digest, p, KeysOf(attributes, p), PriorOf(existing, p).mapping, tables).0)
  }

  ghost function TurnsOf(digest: Digest, attributes: seq<Attribute>, existing: map<string, Registry>,
      plugins: seq<string>): (turns: seq<Turn>)
    ensures |turns| == |plugins|
    ensures forall i :: 0 <= i < |turns| ==> turns[i] == TurnAt(digest, attributes, existing, plugins, i)
  {
    seq(|plugins|, i requires 0 <= i < |plugins| => TurnAt(digest, attributes, existing, plugins, i))
  }

  ghost function TablesOf(digest: Digest, attributes: seq<Attribute>, existing: map<string, Registry>,
      plugins: seq<string>): (ts: seq<Tables>)
    ensures |ts| == |plugins| + 1
    ensures forall i :: 0 <= i < |ts| ==> ts[i] == TablesAfter(digest, attributes, existing, plugins, i)
  {
    seq(|plugins| + 1, i requires 0 <= i <= |plugins| => TablesAfter(digest, attributes, existing, plugins, i))
  }

  lemma OneTurn(digest: Digest, attributes: seq<Attribute>, existing: map<string, Registry>, plugins: seq<string>,
      i: nat, turn: Turn, before: Tables, after: Tables)
    requires AllSound(existing) && i < |plugins| && turn == TurnAt(digest, attributes, existing, plugins, i)
    requires before == TablesAfter(digest, attributes, existing, plugins, i)
    requires after == TablesAfter(digest, attributes, existing, plugins, i + 1)
    ensures Enters(turn, before, after)
  {
    var p := plugins[i];
    AssignIsATurn(digest, p, KeysOf(attributes, p), PriorOf(existing, p), before);
  }

  lemma CallIsInTurn(digest: Digest, attributes: seq<Attribute>, existing: map<string, Registry>, plugins: seq<string>)
    returns (turns: seq<Turn>, ts: seq<Tables>)
    requires AllSound(existing)
    ensures InTurn(turns, ts) && |turns| == |plugins|
    ensures forall i :: 0 <= i < |turns| ==> turns[i] == TurnAt(digest, attributes, existing, plugins, i)
    ensures ts[0] == Tables(map[], map[], {})
    ensures ts[|plugins|] == TablesAfter(digest, attributes, existing, plugins, |plugins|)
  {
    turns, ts := TurnsOf(digest, attributes, existing, plugins), TablesOf(digest, attributes, existing, plugins);
    forall i | 0 <= i < |turns| ensures Enters(turns[i], ts[i], ts[i + 1]) {
      OneTurn(digest, attributes, existing, plugins, i, turns[i], ts[i], ts[i + 1]);
    }
  }

  /** The last plugin that names the attribute. */
  ghost predicate IsLastToName(attributes: seq<Attribute>, i: nat, a: string) {
    && i < |PluginsOf(attributes)| && a in KeysOf(attributes, PluginsOf(attributes)[i])
    && forall j :: i < j < |PluginsOf(attributes)| ==> a !in KeysOf(attributes, PluginsOf(attributes)[j])
  }

  function MergedTables(digest: Digest, attributes: seq<Attribute>, existing: map<string, Registry>): Tables {
    TablesAfter(digest, attributes, existing, PluginsOf(attributes), |PluginsOf(attributes)|)
  }

  ghost predicate StoredAt(attributes: seq<Attribute>, existing: map<string, Registry>, plugin: string, key: string) {
    Holds(PriorOf(existing, plugin).mapping, KeysOf(attributes, plugin), key)
  }

  /** Main result: the merged mapping has the key of every attribute from the registry of the last plugin that
      names it, and the reversed table leads back from there if and only if no later plugin of the call had
      that key stored for one of its attributes already. */
  lemma MergedTablesLeadBackIff(digest: Digest, attributes: seq<Attribute>, now: string,
      existing: map<string, Registry>, registries: map<string, Registry>, i: nat, a: string)
    requires GeneratesAll(digest, attributes, now, existing, registries) && AllSound(existing)
    requires IsLastToName(attributes, i, a)
    ensures
      var plugins, t := PluginsOf(attributes), MergedTables(digest, attributes, existing);
      && plugins[i] in registries && a in registries[plugins[i]].mapping && a in t.mapping
      && t.mapping[a] == registries[plugins[i]].mapping[a] && t.mapping[a] in t.reversed
      && (t.reversed[t.mapping[a]] == a <==>
          forall j :: i < j < |plugins| ==> !StoredAt(attributes, existing, plugins[j], t.mapping[a]))
  {
    var plugins := PluginsOf(attributes);
    forall j, k | 0 <= j < k < |plugins| ensures plugins[j] != plugins[k] { PluginsAreDistinct(attributes, j, k); }
    EachInItsTurn(digest, attributes, now, existing, plugins, |plugins|, registries, i);
    var turns, ts := CallIsInTurn(digest, attributes, existing, plugins);
    assert turns[i] == TurnAt(digest, attributes, existing, plugins, i);
    LeadsBackIff(turns, ts, i, a);
    var key := turns[i].given[a];
    forall j | i < j < |plugins|
      ensures Holds(turns[j].stored, turns[j].keys, key) <==> StoredAt(attributes, existing, plugins[j], key)
    {
      assert turns[j] == TurnAt(digest, attributes, existing, plugins, j);
    }
  }

  lemma {:induction false} KeysOfMeans(attributes: seq<Attribute>, plugin: string, a: string)
    ensures a in KeysOf(attributes, plugin) <==> Attribute(a, plugin) in attributes
  {
    if attributes != [] {
      KeysOfMeans(attributes[1..], plugin, a);
      assert attributes == [attributes[0]] + attributes[1..];
    }
  }

  lemma {:induction false} PluginsOfMeans(attributes: seq<Attribute>, x: Attribute)
    requires x in attributes
    ensures x.pluginName in PluginsOf(attributes)
  {
    var last := |attributes| - 1;
    assert attributes == attributes[..last] + [attributes[last]];
    if x in attributes[..last] { PluginsOfMeans(attributes[..last], x); }
  }

  /** The merged mapping has an entry for every attribute of the call and no other. */
  lemma MergedMappingIsTotal(digest: Digest, attributes: seq<Attribute>, existing: map<string, Registry>)
    requires AllSound(existing)
    ensures MergedTables(digest, attributes, existing).mapping.Keys == (set x | x in attributes :: x.key)
  {
    var plugins := PluginsOf(attributes);
    var turns, ts := CallIsInTurn(digest, attributes, existing, plugins);
    forall a ensures a in ts[|plugins|].mapping <==> exists x :: x in attributes && x.key == a {
      MappedIffNamed(turns, ts, |plugins|, a);
      forall j | 0 <= j < |plugins| ensures a in turns[j].keys <==> Attribute(a, plugins[j]) in attributes {
        KeysOfMeans(attributes, plugins[j], a);
      }
      if x :| x in attributes && x.key == a {
        PluginsOfMeans(attributes, x);
        var j :| 0 <= j < |plugins| && plugins[j] == x.pluginName;
        assert a in turns[j].keys;
      }
    }
  }

  lemma {:induction false} MappedIffNamed(turns: seq<Turn>, ts: seq<Tables>, n: nat, a: string)
    requires InTurn(turns, ts) && n <= |turns| && ts[0].mapping == map[]
    ensures a in ts[n].mapping <==> SomeNames(turns, 0, n, a)
  {
    if n > 0 {
      MappedIffNamed(turns, ts, n - 1, a);
      assert Enters(turns[n - 1], ts[n - 1], ts[n]);
    }
  }

  lemma AssignOne(digest: Digest, plugin: string, attr: string, mapping: map<string, string>, tables: Tables)
    requires attr in mapping ==> mapping[attr] != ""
    requires attr !in mapping ==> AttributeHash(digest, plugin, attr) !in tables.used
    ensures var hash := AttributeHash(digest, plugin, attr);
      Assign(digest, plugin, [attr], mapping, tables) ==
      if attr in mapping then (mapping, Enter(tables, attr, mapping[attr]))
      else (mapping[attr := hash], Enter(tables.(used := tables.used + {hash}), attr, hash))
  {
    assert [attr][..0] == [];
    assert Assign(digest, plugin, [attr][..0], mapping, tables) == (mapping, tables);
    assert Candidate(AttributeHash(digest, plugin, attr), 0) == AttributeHash(digest, plugin, attr);
  }

  lemma TwoPlugins(x: Attribute, y: Attribute)
    requires x.pluginName != y.pluginName
    ensures PluginsOf([x, y]) == [x.pluginName, y.pluginName]
    ensures KeysOf([x, y], x.pluginName) == [x.key] && KeysOf([x, y], y.pluginName) == [y.key]
  {
    assert [x, y][..1] == [x] && [x][..0] == [] && [x, y][1..] == [y] && [y][1..] == [];
    assert PluginsOf([x]) == [x.pluginName];
    assert KeysOf([y], y.pluginName) == [y.key] && KeysOf([y], x.pluginName) == [];
  }

  /** An earlier plugin can be given a key that a later one has stored, whatever the digest: then its attribute
      reads back as that of the other. */
  lemma StoredKeyCanClash(digest: Digest, x: Attribute, y: Attribute)
    requires x.pluginName != y.pluginName && x.key != y.key
    ensures
      var hash := AttributeHash(digest, x.pluginName, x.key);
      var existing := map[y.pluginName := Registry(map[y.key := hash], [])];
      var t := MergedTables(digest, [x, y], existing);
      AllSound(existing) && t.mapping == map[x.key := hash, y.key := hash] && t.reversed == map[hash := y.key]
  {
    var hash := AttributeHash(digest, x.pluginName, x.key);
    var prior := Registry(map[y.key := hash], []);
    TwoPlugins(x, y);
    TwoTurns(digest, [x, y], map[y.pluginName := prior], x, y);
    assert AllKeys(EMPTY) == {};
    var none := Tables(map[], map[], {});
    assert Reserve(none, EMPTY) == none;
    AssignOne(digest, x.pluginName, x.key, map[], none);
    var first := Tables(map[x.key := hash], map[hash := x.key], {hash});
    AssignOne(digest, y.pluginName, y.key, prior.mapping, Reserve(first, prior));
  }

  lemma TwoTurns(digest: Digest, attributes: seq<Attribute>, existing: map<string, Registry>, x: Attribute,
      y: Attribute)
    requires PluginsOf(attributes) == [x.pluginName, y.pluginName]
    requires KeysOf(attributes, x.pluginName) == [x.key] && KeysOf(attributes, y.pluginName) == [y.key]
    ensures var p, q := PriorOf(existing, x.pluginName), PriorOf(existing, y.pluginName);
      var none := Tables(map[], map[], {});
      var first := Assign(digest, x.pluginName, [x.key], p.mapping, Reserve(none, p)).1;
      MergedTables(digest, attributes, existing) ==
      Assign(digest, y.pluginName, [y.key], q.mapping, Reserve(first, q)).1
  {
    var plugins := PluginsOf(attributes);
    assert TablesAfter(digest, attributes, existing, plugins, 0) == Tables(map[], map[], {});
    var p := PriorOf(existing, x.pluginName);
    assert TablesAfter(digest, attributes, existing, plugins, 1) ==
           Assign(digest, x.pluginName, [x.key], p.mapping, Reserve(Tables(map[], map[], {}), p)).1;
  }

  // ---------------------------------------------------------------- one step, then every history

  lemma GeneratedPluginEvolves(digest: Digest, plugin: string, keys: seq<string>, now: string, tables: Tables,
      prior: Registry, r: Registry)
    requires Sound(prior) && Generates(digest, plugin, keys, now, tables, prior, r)
    ensures Evolves(Elements(keys), View(prior), View(r)) && Sound(r)
    ensures forall a :: a in r.mapping && a !in prior.mapping ==> r.mapping[a] !in tables.used
  {
    AssignProperties(digest, plugin, keys, prior.mapping, Reserve(tables, prior));
    var given := Assign(digest, plugin, keys, prior.mapping, Reserve(tables, prior)).0;
    assert KeysLeaving(given, given.Keys - Elements(keys)) ==
        KeysLeaving(prior.mapping, prior.mapping.Keys - Elements(keys));
    EvolvesKeepsWellFormed(Elements(keys), View(prior), View(r));
  }

  lemma {:induction false} AssignAddsNothing(
      digest: Digest, plugin: string, keys: seq<string>, mapping: map<string, string>, tables: Tables)
    requires forall a :: a in keys ==> a in mapping && mapping[a] != ""
    ensures Assign(digest, plugin, keys, mapping, tables).0 == mapping
  {
    if keys != [] {
      assert keys[|keys| - 1] in keys;
      AssignAddsNothing(digest, plugin, keys[..|keys| - 1], mapping, tables);
    }
  }

  /** A call with the attributes that are mapped already changes nothing. */
  lemma UnchangedPlugin(digest: Digest, plugin: string, keys: seq<string>, now: string, tables: Tables,
      prior: Registry, r: Registry)
    requires Generates(digest, plugin, keys, now, tables, prior, r)
    requires Elements(keys) == prior.mapping.Keys && "" !in prior.mapping.Values
    ensures r == prior
  {
    forall a | a in keys ensures a in prior.mapping && prior.mapping[a] != "" {
      assert a in Elements(keys);
      assert prior.mapping[a] in prior.mapping.Values;
    }
    AssignAddsNothing(digest, plugin, keys, prior.mapping, Reserve(tables, prior));
    if |prior.burned| < |r.burned| {
      var a := LeaverOfBurn(prior.mapping, prior.mapping.Keys - Elements(keys), prior.burned, r.burned, now);
    }
  }

  /** A new attribute gets its hash, unless that is reserved or goes to another attribute of the plugin. */
  lemma {:induction false} NewKeyIsItsHash(digest: Digest, plugin: string, keys: seq<string>,
      mapping: map<string, string>, tables: Tables, a: string)
    requires Injective(mapping) && "" !in mapping.Values && mapping.Values <= tables.used
    requires a in keys && a !in mapping
    ensures var m, hash := Assign(digest, plugin, keys, mapping, tables).0, AttributeHash(digest, plugin, a);
      && a in m
      && (m[a] == hash || hash in tables.used || exists b :: b in keys && b in m && b != a && m[b] == hash)
  {
    var last := |keys| - 1;
    var before := keys[..last];
    assert keys == before + [keys[last]];
    AssignProperties(digest, plugin, before, mapping, tables);
    var (m, t) := Assign(digest, plugin, before, mapping, tables);
    KeysStay(digest, plugin, keys, mapping, tables);
    if a in before {
      NewKeyIsItsHash(digest, plugin, before, mapping, tables, a);
    } else {
      var hash := AttributeHash(digest, plugin, a);
      ProbedKeyForm(hash, t.used);
      assert a !in m by { assert a !in Elements(before); }
      if hash in t.used && hash !in tables.used {
        var b :| b in m && m[b] == hash;
        assert b in mapping || b in Elements(before);
      }
    }
  }

  /** The last attribute takes no key away. */
  lemma KeysStay(digest: Digest, plugin: string, keys: seq<string>, mapping: map<string, string>, tables: Tables)
    requires keys != [] && Injective(mapping) && "" !in mapping.Values && mapping.Values <= tables.used
    ensures var m := Assign(digest, plugin, keys[..|keys| - 1], mapping, tables).0;
      var longer := Assign(digest, plugin, keys, mapping, tables).0;
      forall b :: b in m ==> b in longer && longer[b] == m[b]
  {
    AssignProperties(digest, plugin, keys[..|keys| - 1], mapping, tables);
    var m := Assign(digest, plugin, keys[..|keys| - 1], mapping, tables).0;
    forall b | b in m ensures m[b] != "" { assert m[b] in m.Values; }
  }

  lemma {:induction false} CallEvolvesPlugin(
      digest: Digest, plugin: string, attributes: seq<Attribute>, now: string, existing: map<string, Registry>,
      plugins: seq<string>, n: nat, registries: map<string, Registry>)
    requires n <= |plugins| && GeneratesFirst(digest, attributes, now, existing, plugins, n, registries)
    requires plugin in plugins[..n] && Sound(PriorOf(existing, plugin))
    ensures plugin in registries && Sound(registries[plugin])
    ensures Evolves(Elements(KeysOf(attributes, plugin)), View(PriorOf(existing, plugin)), View(registries[plugin]))
  {
    var last := plugins[n - 1];
    if plugin == last {
      GeneratedPluginEvolves(digest, plugin, KeysOf(attributes, plugin), now,
        TablesAfter(digest, attributes, existing, plugins, n - 1), PriorOf(existing, plugin), registries[plugin]);
    } else {
      assert plugins[..n] == plugins[..n - 1] + [last];
      CallEvolvesPlugin(digest, plugin, attributes, now, existing, plugins, n - 1, registries - {last});
    }
  }

  /** A history of calls in every one of which the plugin has at least one attribute. */
  ghost predicate PluginHistory(digest: Digest, plugin: string, rs: seq<map<string, Registry>>,
      calls: seq<seq<Attribute>>, times: seq<string>) {
    && |rs| == |calls| + 1 == |times| + 1
    && Sound(PriorOf(rs[0], plugin))
    && forall i :: 0 <= i < |calls| ==>
         plugin in PluginsOf(calls[i]) && GeneratesAll(digest, calls[i], times[i], rs[i], rs[i + 1])
  }

  /** The history of the plugin alone: its ledgers, and the attribute sets it was given. */
  ghost function Ledgers(rs: seq<map<string, Registry>>, plugin: string): (h: seq<Ledger<string>>)
    ensures |h| == |rs| && forall i :: 0 <= i < |rs| ==> h[i] == View(PriorOf(rs[i], plugin))
  {
    seq(|rs|, i requires 0 <= i < |rs| => View(PriorOf(rs[i], plugin)))
  }

  ghost function AttributeSets(calls: seq<seq<Attribute>>, plugin: string): (sets: seq<set<string>>)
    ensures |sets| == |calls| && forall i :: 0 <= i < |calls| ==> sets[i] == Elements(KeysOf(calls[i], plugin))
  {
    seq(|calls|, i requires 0 <= i < |calls| => Elements(KeysOf(calls[i], plugin)))
  }

  lemma LastCallEvolves(
      digest: Digest, plugin: string, call: seq<Attribute>, now: string, before: map<string, Registry>,
      after: map<string, Registry>)
    requires plugin in PluginsOf(call) && GeneratesAll(digest, call, now, before, after)
        && Sound(PriorOf(before, plugin))
    ensures Sound(PriorOf(after, plugin))
    ensures Evolves(Elements(KeysOf(call, plugin)), View(PriorOf(before, plugin)), View(PriorOf(after, plugin)))
  {
    var plugins := PluginsOf(call);
    assert plugins[..|plugins|] == plugins;
    CallEvolvesPlugin(digest, plugin, call, now, before, plugins, |plugins|, after);
  }

  lemma {:induction false} EveryCallEvolves(
      digest: Digest, plugin: string, rs: seq<map<string, Registry>>, calls: seq<seq<Attribute>>, times: seq<string>,
      n: nat)
    requires PluginHistory(digest, plugin, rs, calls, times) && n <= |calls|
    ensures Sound(PriorOf(rs[n], plugin))
    ensures forall i :: 0 <= i < n ==>
      Evolves(Elements(KeysOf(calls[i], plugin)), View(PriorOf(rs[i], plugin)), View(PriorOf(rs[i + 1], plugin)))
  {
    if n > 0 {
      EveryCallEvolves(digest, plugin, rs, calls, times, n - 1);
      LastCallEvolves(digest, plugin, calls[n - 1], times[n - 1], rs[n - 1], rs[n]);
    }
  }

  lemma PluginHistoryIsLedgerHistory(
      digest: Digest, plugin: string, rs: seq<map<string, Registry>>, calls: seq<seq<Attribute>>, times: seq<string>)
    requires PluginHistory(digest, plugin, rs, calls, times)
    ensures History(Ledgers(rs, plugin), AttributeSets(calls, plugin))
  {
    EveryCallEvolves(digest, plugin, rs, calls, times, |calls|);
    var h, sets := Ledgers(rs, plugin), AttributeSets(calls, plugin);
    forall i | 0 <= i < |sets| ensures Evolves(sets[i], h[i], h[i + 1]) {
      assert sets[i] == Elements(KeysOf(calls[i], plugin));
    }
  }

  /** A key that is burned, also one burned before the history began, stays burned and is never handed out. */
  lemma BurnedPluginKeyIsForever(
      digest: Digest, plugin: string, rs: seq<map<string, Registry>>, calls: seq<seq<Attribute>>, times: seq<string>,
      i: nat, j: nat, key: string)
    requires PluginHistory(digest, plugin, rs, calls, times) && i <= j < |rs|
    requires key in BurnedKeys(PriorOf(rs[i], plugin).burned)
    ensures key in BurnedKeys(PriorOf(rs[j], plugin).burned) && key !in PriorOf(rs[j], plugin).mapping.Values
  {
    PluginHistoryIsLedgerHistory(digest, plugin, rs, calls, times);
    BurnedIsForever(Ledgers(rs, plugin), AttributeSets(calls, plugin), i, j, key);
  }

  /** Main result: over every such history two attributes that ever hold the same key are the same attribute,
      and it held the key all the time in between. */
  lemma PluginKeyIsNeverReassigned(
      digest: Digest, plugin: string, rs: seq<map<string, Registry>>, calls: seq<seq<Attribute>>, times: seq<string>,
      i: nat, j: nat, a: string, b: string)
    requires PluginHistory(digest, plugin, rs, calls, times) && i <= j < |rs|
    requires a in PriorOf(rs[i], plugin).mapping && b in PriorOf(rs[j], plugin).mapping
    requires PriorOf(rs[i], plugin).mapping[a] == PriorOf(rs[j], plugin).mapping[b]
    ensures a == b
    ensures forall m :: i <= m <= j ==>
      a in PriorOf(rs[m], plugin).mapping && PriorOf(rs[m], plugin).mapping[a] == PriorOf(rs[i], plugin).mapping[a]
  {
    var h := Ledgers(rs, plugin);
    PluginHistoryIsLedgerHistory(digest, plugin, rs, calls, times);
    KeyIsNeverReassigned(h, AttributeSets(calls, plugin), i, j, a, b);
    forall m | i <= m <= j
      ensures a in PriorOf(rs[m], plugin).mapping && PriorOf(rs[m], plugin).mapping[a] ==
          PriorOf(rs[i], plugin).mapping[a]
    {
      assert a in h[m].live && h[m].live[a] == h[i].live[a];
    }
  }
}
