/** Placing fields in the metadata or the body (body-overflow.ts). */
module BodyOverflow {
  import opened Wrappers
  import opened Sorting
  import opened OrderedMap
  import opened TextLists
  import opened Greedy
  import Calculator

  type Fields = seq<Entry<string>>

  /** JSON.stringify and JSON.parse for records of strings. */
  datatype Json = Json(stringify: Fields -> string, parse: string -> Option<Fields>)

  ghost predicate Lossless(json: Json) {
    forall f: Fields :: Trim(json.stringify(f)) != "" && json.parse(json.stringify(f)) == Some(f)
  }

  const OVERFLOW_FLAG: string := "$overflow"
  const OVERFLOW_FLAG_BYTES: nat := 13
  const PLUGIN_MAP_BYTES: nat := 10

  /** calculateAttributeSizes counts the bytes of the value only. */
  function Size(value: string): nat { Calculator.ByteCount(value) }

  function EntrySize(): Entry<string> -> nat { (e: Entry<string>) => Size(e.value) }

  function SmallerFirst(): (Entry<string>, Entry<string>) -> bool { Cheaper(EntrySize()) }

  function WithoutVersion(fields: Fields): Fields {
    if fields == [] then []
    else if fields[0].key == "_v" then WithoutVersion(fields[1..])
    else [fields[0]] + WithoutVersion(fields[1..])
  }

  // ---------------------------------------------------------------- placement

  /** The version, when it is not empty, and the plugin map, when there is one, are always metadata. */
  function Version(data: Fields): Fields {
    var v := Find(data, "_v");
    if v.Some? && v.value != "" then [Entry("_v", v.value)] else []
  }

  function Fixed(data: Fields, pluginMap: string): Fields {
    if pluginMap != "" then Set(Version(data), "_pluginMap", pluginMap) else Version(data)
  }

  function VersionSize(data: Fields): nat {
    var v := Find(data, "_v");
    if v.Some? then Size(v.value) else 0
  }

  function FixedSize(data: Fields, pluginMap: string): nat {
    VersionSize(data) + if pluginMap != "" then PLUGIN_MAP_BYTES + Size(pluginMap) else 0
  }

  function Candidates(data: Fields): Fields { WithoutVersion(Sort(SmallerFirst(), data)) }

  /** What the limit leaves for the candidates. */
  function Room(data: Fields, pluginMap: string, limit: int): int { limit - FixedSize(data, pluginMap) }

  function KeptCount(data: Fields, room: int): (n: nat)
    ensures n <= |Candidates(data)|
  {
    FitCount(EntrySize(), Candidates(data), room)
  }

  function Kept(data: Fields, room: int): (kept: Fields)
    ensures |kept| == KeptCount(data, room)
  {
    Candidates(data)[..KeptCount(data, room)]
  }

  function Overflowed(data: Fields, room: int): Fields { Candidates(data)[KeptCount(data, room)..] }

  /** The metadata when the first n candidates are kept. */
  function Assemble(fixed: Fields, all: Fields, n: nat): Fields
    requires n <= |all|
  {
    var placed := Merge(fixed, all[..n]);
    if n == |all| then placed else Set(placed, OVERFLOW_FLAG, "true")
  }

  function MetadataOf(data: Fields, pluginMap: string, limit: int): Fields {
    Assemble(Fixed(data, pluginMap), Candidates(data), KeptCount(data, Room(data, pluginMap, limit)))
  }

  function BodyOf(json: Json, data: Fields, pluginMap: string, limit: int): string {
    if Overflowed(data, Room(data, pluginMap, limit)) == [] then ""
        else json.stringify(Overflowed(data, Room(data, pluginMap, limit)))
  }

  datatype Placement = Placement(metadata: Fields, bodyFields: Fields, willOverflow: bool)

  /** Where the candidates `rest` end up, when so much room is left and the earlier ones are placed as in p. */
  function Final(rest: Fields, room: int, p: Placement): Placement {
    if p.willOverflow then Placement(p.metadata, p.bodyFields + rest, true)
    else
      var n := FitCount(EntrySize(), rest, room);
      Placement(Merge(p.metadata, rest[..n]), p.bodyFields + rest[n..], n < |rest|)
  }

  lemma Keep(field: Entry<string>, rest: Fields, room: int, p: Placement)
    requires !p.willOverflow && Size(field.value) <= room
    ensures Final([field] + rest, room, p) ==
            Final(rest, room - Size(field.value), p.(metadata := Set(p.metadata, field.key, field.value)))
  {
    var all, n := [field] + rest, FitCount(EntrySize(), [field] + rest, room);
    assert all[1..] == rest;
    assert all[..n] == [field] + rest[..n - 1] && all[n..] == rest[n - 1..];
    assert all[..n][1..] == rest[..n - 1];
  }

  lemma Overflow(field: Entry<string>, rest: Fields, room: int, later: int, p: Placement)
    requires p.willOverflow || Size(field.value) > room
    ensures Final([field] + rest, room, p) ==
            Final(rest, later, Placement(p.metadata, p.bodyFields + [field], true))
  {
    assert p.bodyFields + ([field] + rest) == p.bodyFields + [field] + rest;
    assert ([field] + rest)[..0] == [] && ([field] + rest)[0..] == [field] + rest;
  }

  /** One turn of the loop below. */
  lemma PlaceNext(fields: Fields, i: nat, limit: int, size: int, p: Placement)
    requires i < |fields|
    ensures
      var field, rest := fields[i], WithoutVersion(fields[i + 1..]);
      var bytes := Size(field.value);
      Final(WithoutVersion(fields[i..]), limit - size, p) ==
      if field.key == "_v" then Final(rest, limit - size, p)
      else if !p.willOverflow && size + bytes <= limit
      then Final(rest, limit - (size + bytes), p.(metadata := Set(p.metadata, field.key, field.value)))
      else Final(rest, limit - size, Placement(p.metadata, p.bodyFields + [field], true))
  {
    var field, rest := fields[i], WithoutVersion(fields[i + 1..]);
    assert fields[i..][1..] == fields[i + 1..];
    if field.key != "_v" {
      if !p.willOverflow && size + Size(field.value) <= limit { Keep(field, rest, limit - size, p); }
      else { Overflow(field, rest, limit - size, limit - size, p); }
    }
  }

  lemma AllPlaced(room: int, p: Placement)
    ensures Final([], room, p) == p
  {}

  lemma FinalIsTheResult(json: Json, data: Fields, pluginMap: string, limit: int)
    ensures var room := Room(data, pluginMap, limit);
      var p := Final(Candidates(data), room, Placement(Fixed(data, pluginMap), [], false));
      && MetadataOf(data, pluginMap, limit) ==
         (if p.willOverflow then Set(p.metadata, OVERFLOW_FLAG, "true") else p.metadata)
      && BodyOf(json, data, pluginMap, limit) == (if |p.bodyFields| > 0 then json.stringify(p.bodyFields) else "")
  {
    assert [] + Overflowed(data, Room(data, pluginMap, limit)) == Overflowed(data, Room(data, pluginMap, limit));
  }

  /** The unconditional fields and their size. */
  method PlaceFixed(data: Fields, pluginMap: string) returns (metadata: Fields, currentSize: nat)
    ensures metadata == Fixed(data, pluginMap) && currentSize == FixedSize(data, pluginMap)
  {
    metadata, currentSize := [], 0;
    var v := Find(data, "_v");
    if v.Some? && v.value != "" {
      metadata := [Entry("_v", v.value)];
      currentSize := currentSize + Size(v.value);
    }
    if pluginMap != "" {
      metadata := Set(metadata, "_pluginMap", pluginMap);
      currentSize := currentSize + PLUGIN_MAP_BYTES + Size(pluginMap);
    }
  }

  method PlaceFields(sortedFields: Fields, fixed: Fields, fixedSize: nat, effectiveLimit: int) returns (p: Placement)
    ensures p == Final(WithoutVersion(sortedFields), effectiveLimit - fixedSize, Placement(fixed, [], false))
  {
    ghost var result := Final(WithoutVersion(sortedFields), effectiveLimit - fixedSize, Placement(fixed, [], false));
    var metadata, bodyFields, willOverflow := fixed, [], false;
    var currentSize, reservedLimit := fixedSize, effectiveLimit;
    assert sortedFields[0..] == sortedFields;
    for i := 0 to |sortedFields|
      invariant !willOverflow ==> reservedLimit == effectiveLimit
      invariant result == Final(WithoutVersion(sortedFields[i..]), effectiveLimit - currentSize,
                                Placement(metadata, bodyFields, willOverflow))
    {
      var field := sortedFields[i];
      PlaceNext(sortedFields, i, effectiveLimit, currentSize, Placement(metadata, bodyFields, willOverflow));
      if field.key == "_v" { continue; }
      var size := Size(field.value);
      if !willOverflow && currentSize + size > effectiveLimit {
        reservedLimit := reservedLimit - OVERFLOW_FLAG_BYTES;
        willOverflow := true;
      }
      if !willOverflow && currentSize + size <= reservedLimit {
        metadata := Set(metadata, field.key, field.value);
        currentSize := currentSize + size;
      } else {
        bodyFields := bodyFields + [field];
        willOverflow := true;
      }
    }
    p := Placement(metadata, bodyFields, willOverflow);
    AllPlaced(effectiveLimit - currentSize, p);
  }

  method HandleInsert(json: Json, data: Fields, pluginMap: string, effectiveLimit: int)
    returns (metadata: Fields, body: string)
    ensures metadata == MetadataOf(data, pluginMap, effectiveLimit)
    ensures body == BodyOf(json, data, pluginMap, effectiveLimit)
  {
    var sortedFields := Sort(SmallerFirst(), data);
    var fixed, fixedSize := PlaceFixed(data, pluginMap);
    var placed := PlaceFields(sortedFields, fixed, fixedSize, effectiveLimit);
    FinalIsTheResult(json, data, pluginMap, effectiveLimit);
    metadata := placed.metadata;
    if placed.willOverflow { metadata := Set(metadata, OVERFLOW_FLAG, "true"); }
    body := if |placed.bodyFields| > 0 then json.stringify(placed.bodyFields) else "";
  }

  function Get(json: Json, metadata: Fields, body: string): Fields {
    var parsed := if Trim(body) != "" then json.parse(body) else None;
    Remove(Merge(if parsed.Some? then parsed.value else [], metadata), OVERFLOW_FLAG)
  }

  // ---------------------------------------------------------------- partition

  lemma {:induction false} WithoutVersionMembers(fields: Fields)
    ensures forall e :: e in WithoutVersion(fields) <==> e in fields && e.key != "_v"
    ensures multiset(WithoutVersion(fields)) <= multiset(fields)
  {
    if fields != [] {
      WithoutVersionMembers(fields[1..]);
      assert fields == [fields[0]] + fields[1..];
    }
  }

  /** Main result: metadata and body share the mapped fields, apart from the version, between them. */
  lemma FieldsArePartitioned(data: Fields, room: int)
    ensures forall e :: e in data && e.key != "_v" <==> e in Candidates(data)
    ensures multiset(Kept(data, room)) + multiset(Overflowed(data, room)) == multiset(Candidates(data))
    ensures multiset(Candidates(data)) <= multiset(data)
  {
    var sorted, all := Sort(SmallerFirst(), data), Candidates(data);
    SortPermutes(SmallerFirst(), data);
    WithoutVersionMembers(sorted);
    var n := KeptCount(data, room);
    assert all == all[..n] + all[n..];
  }

  // ---------------------------------------------------------------- the size of what is kept

  /** The kept sizes stay within the limit whenever the fixed fields do; the flag comes on top. */
  lemma KeptSizeIsBounded(data: Fields, room: int)
    ensures room >= 0 ==> Total(EntrySize(), Kept(data, room)) <= room
    ensures room < 0 ==> Kept(data, room) == []
  {
    FitFits(EntrySize(), Candidates(data), room);
  }

  /** What the calculator counts for the placed metadata: the values, and the two reserved names. */
  function PlacedSize(data: Fields, pluginMap: string, limit: int): nat {
    var room := Room(data, pluginMap, limit);
    FixedSize(data, pluginMap) + Total(EntrySize(), Kept(data, room))
    + if Overflowed(data, room) == [] then 0 else OVERFLOW_FLAG_BYTES
  }

  lemma NothingOverflowsIff(data: Fields, room: int)
    ensures Overflowed(data, room) == [] <==> Candidates(data) == [] || Total(EntrySize(), Candidates(data)) <= room
  {
    var all, n := Candidates(data), KeptCount(data, room);
    FitFits(EntrySize(), all, room);
    if n < |all| {
      FitCountNext(EntrySize(), all, room, n);
      TotalOfPrefix(EntrySize(), all, n + 1, |all|);
    }
    assert all[..|all|] == all;
  }

  /** The sizes of the candidates leave a gap below the room that is too small for the flag. */
  ghost predicate FlagHasNoRoom(all: Fields, room: int) {
    exists k: nat :: k < |all| &&
      room - OVERFLOW_FLAG_BYTES < Total(EntrySize(), all[..k]) <= room < Total(EntrySize(), all[..k + 1])
  }

  lemma KeptIsTheLastToFit(data: Fields, room: int, k: nat)
    requires k < |Candidates(data)|
    requires Total(EntrySize(), Candidates(data)[..k]) <= room < Total(EntrySize(), Candidates(data)[..k + 1])
    ensures k == KeptCount(data, room)
  {
    var all, n := Candidates(data), KeptCount(data, room);
    FitFits(EntrySize(), all, room);
    if k < n { TotalOfPrefix(EntrySize(), all, k + 1, n); }
    if n < k {
      FitCountNext(EntrySize(), all, room, n);
      TotalOfPrefix(EntrySize(), all, n + 1, k);
    }
  }

  /** Main result: the placed metadata passes the limit if and only if the fixed fields do by themselves, or
      the flag is set and the gap that the kept fields leave is smaller than it; never by more than the flag. */
  lemma PlacedSizeExceedsIff(data: Fields, pluginMap: string, limit: int)
    ensures
      var room := Room(data, pluginMap, limit);
      && (PlacedSize(data, pluginMap, limit) > limit <==> room < 0 || FlagHasNoRoom(Candidates(data), room))
      && (room >= 0 ==> PlacedSize(data, pluginMap, limit) <= limit + OVERFLOW_FLAG_BYTES)
  {
    var room := Room(data, pluginMap, limit);
    var all, n := Candidates(data), KeptCount(data, room);
    KeptSizeIsBounded(data, room);
    if room >= 0 && n < |all| { FitCountNext(EntrySize(), all, room, n); }
    if FlagHasNoRoom(all, room) {
      var k: nat :| k < |all| &&
        room - OVERFLOW_FLAG_BYTES < Total(EntrySize(), all[..k]) <= room < Total(EntrySize(), all[..k + 1]);
      KeptIsTheLastToFit(data, room, k);
    }
  }

  /** The bytes of one metadata entry as the code counts them. */
  function Charge(): Entry<string> -> nat {
    (e: Entry<string>) =>
      Size(e.value) + if e.key == OVERFLOW_FLAG || e.key == "_pluginMap" then Size(e.key) else 0
  }

  predicate NoReservedNames(fields: Fields) { !Has(fields, OVERFLOW_FLAG) && !Has(fields, "_pluginMap") }

  lemma {:induction false} ChargeOfOthers(fields: Fields)
    requires NoReservedNames(fields)
    ensures Total(Charge(), fields) == Total(EntrySize(), fields)
  {
    if fields != [] { ChargeOfOthers(fields[1..]); }
  }

  lemma ChargeOfOne(e: Entry<string>)
    ensures Total(Charge(), [e]) == Charge()(e)
  {
    assert [e][1..] == [];
  }

  lemma ChargeOfVersion(data: Fields)
    ensures Total(Charge(), Version(data)) == VersionSize(data)
  {
    assert Size("") == 0;
    if Version(data) != [] { ChargeOfOne(Version(data)[0]); }
  }

  lemma ChargeOfReserved(pluginMap: string)
    ensures Total(Charge(), [Entry("_pluginMap", pluginMap)]) == PLUGIN_MAP_BYTES + Size(pluginMap)
    ensures Total(Charge(), [Entry(OVERFLOW_FLAG, "true")]) == OVERFLOW_FLAG_BYTES
  {
    ReservedNameSizes();
    ChargeOfOne(Entry("_pluginMap", pluginMap));
    ChargeOfOne(Entry(OVERFLOW_FLAG, "true"));
  }

  lemma FixedIsVersionAndMap(data: Fields, pluginMap: string)
    ensures Fixed(data, pluginMap) ==
            Version(data) + if pluginMap != "" then [Entry("_pluginMap", pluginMap)] else []
  {
    FindVersion(data, "_pluginMap");
    SetOfNew(Version(data), "_pluginMap", pluginMap);
    assert Version(data) + [] == Version(data);
  }

  lemma ChargeOfFixed(data: Fields, pluginMap: string)
    ensures Total(Charge(), Fixed(data, pluginMap)) == FixedSize(data, pluginMap)
  {
    ChargeOfVersion(data);
    ChargeOfReserved(pluginMap);
    FixedIsVersionAndMap(data, pluginMap);
    TotalOfConcat(Charge(), Version(data), [Entry("_pluginMap", pluginMap)]);
    assert Version(data) + [] == Version(data);
  }

  lemma {:induction false} MergeOfNew(a: Fields, b: Fields)
    requires UniqueKeys(b) && forall i :: 0 <= i < |b| ==> !Has(a, b[i].key)
    ensures Merge(a, b) == a + b
    decreases |b|
  {
    if b != [] {
      var more := a + [b[0]];
      SetOfNew(a, b[0].key, b[0].value);
      forall i | 0 <= i < |b[1..]| ensures !Has(more, b[1..][i].key) {
        FindInConcat(a, [b[0]], b[i + 1].key);
        MemberHasKey(b[1..], i);
      }
      MergeOfNew(more, b[1..]);
      assert more + b[1..] == a + b;
    } else {
      assert a + b == a;
    }
  }

  lemma {:induction false} MemberHasKey(m: Fields, i: nat)
    requires i < |m|
    ensures Has(m, m[i].key)
  {
    if i > 0 { MemberHasKey(m[1..], i - 1); }
  }

  /** With no field under a reserved name, the placed size is what the metadata itself adds up to. */
  lemma PlacedSizeIsTheMetadata(data: Fields, pluginMap: string, limit: int)
    requires UniqueKeys(data) && NoReservedNames(data)
    ensures Total(Charge(), MetadataOf(data, pluginMap, limit)) == PlacedSize(data, pluginMap, limit)
  {
    var room := Room(data, pluginMap, limit);
    var fixed, kept := Fixed(data, pluginMap), Kept(data, room);
    FindCandidate(data, "");
    PrefixKeepsUnique(Candidates(data), KeptCount(data, room));
    AbsentIsNotKept(data, room, OVERFLOW_FLAG);
    AbsentIsNotKept(data, room, "_pluginMap");
    forall i | 0 <= i < |kept| ensures !Has(fixed, kept[i].key) {
      MemberHasKey(kept, i);
      MemberHasKey(Candidates(data), i);
      FindCandidate(data, kept[i].key);
      FindFixed(data, pluginMap, kept[i].key);
      FindVersion(data, kept[i].key);
    }
    MergeOfNew(fixed, kept);
    FindFixed(data, pluginMap, OVERFLOW_FLAG);
    FindVersion(data, OVERFLOW_FLAG);
    FindInConcat(fixed, kept, OVERFLOW_FLAG);
    SetOfNew(fixed + kept, OVERFLOW_FLAG, "true");
    ChargeOfFixed(data, pluginMap);
    ChargeOfOthers(kept);
    ChargeOfReserved(pluginMap);
    TotalOfConcat(Charge(), fixed, kept);
    TotalOfConcat(Charge(), fixed + kept, [Entry(OVERFLOW_FLAG, "true")]);
  }

  // ---------------------------------------------------------------- the number of fields kept

  lemma {:induction false} WithoutVersionSorted(fields: Fields)
    requires SortedBy(SmallerFirst(), fields)
    ensures SortedBy(SmallerFirst(), WithoutVersion(fields))
  {
    if fields != [] {
      WithoutVersionSorted(fields[1..]);
      WithoutVersionMembers(fields[1..]);
      var rest := WithoutVersion(fields[1..]);
      forall j | 0 <= j < |rest| ensures SmallerFirst()(fields[0], rest[j]) {
        assert rest[j] in fields[1..];
        var k :| 0 <= k < |fields[1..]| && fields[1..][k] == rest[j];
        assert fields[k + 1] == rest[j];
      }
    }
  }

  lemma CandidatesAreSorted(data: Fields)
    ensures SortedBy(SmallerFirst(), Candidates(data))
  {
    CheaperIsOrder(EntrySize());
    SortSorts(SmallerFirst(), data);
    WithoutVersionSorted(Sort(SmallerFirst(), data));
  }

  /** Main result: no set of fields that fits next to the fixed ones has more members than the kept one. */
  lemma KeptIsLargest(data: Fields, room: int, chosen: Fields)
    requires multiset(chosen) <= multiset(Candidates(data)) && Total(EntrySize(), chosen) <= room
    ensures |chosen| <= |Kept(data, room)|
  {
    CandidatesAreSorted(data);
    FitIsLargest(EntrySize(), Candidates(data), room, chosen);
  }

  // ---------------------------------------------------------------- the way back

  lemma {:induction false} FindInInsert(leq: (Entry<string>, Entry<string>) -> bool, x: Entry<string>, m: Fields,
      key: string)
    requires !Has(m, x.key)
    ensures Find(Insert(leq, x, m), key) == if key == x.key then Some(x.value) else Find(m, key)
  {
    if m != [] && !leq(x, m[0]) {
      FindInInsert(leq, x, m[1..], key);
      assert Insert(leq, x, m)[1..] == Insert(leq, x, m[1..]);
    } else {
      assert ([x] + m)[1..] == m;
    }
  }

  lemma {:induction false} InsertKeepsUnique(leq: (Entry<string>, Entry<string>) -> bool, x: Entry<string>, m: Fields)
    requires UniqueKeys(m) && !Has(m, x.key)
    ensures UniqueKeys(Insert(leq, x, m))
  {
    if m != [] && !leq(x, m[0]) {
      InsertKeepsUnique(leq, x, m[1..]);
      FindInInsert(leq, x, m[1..], m[0].key);
      assert Insert(leq, x, m)[1..] == Insert(leq, x, m[1..]);
    } else {
      assert ([x] + m)[1..] == m;
    }
  }

  lemma {:induction false} FindInSort(leq: (Entry<string>, Entry<string>) -> bool, m: Fields, key: string)
    requires UniqueKeys(m)
    ensures Find(Sort(leq, m), key) == Find(m, key)
  {
    if m != [] {
      FindInSort(leq, m[1..], key);
      FindInSort(leq, m[1..], m[0].key);
      FindInInsert(leq, m[0], Sort(leq, m[1..]), key);
    }
  }

  lemma {:induction false} SortKeepsUnique(leq: (Entry<string>, Entry<string>) -> bool, m: Fields)
    requires UniqueKeys(m)
    ensures UniqueKeys(Sort(leq, m))
  {
    if m != [] {
      SortKeepsUnique(leq, m[1..]);
      FindInSort(leq, m[1..], m[0].key);
      InsertKeepsUnique(leq, m[0], Sort(leq, m[1..]));
    }
  }

  lemma {:induction false} FindWithoutVersion(m: Fields, key: string)
    ensures Find(WithoutVersion(m), key) == if key == "_v" then None else Find(m, key)
  {
    if m != [] {
      FindWithoutVersion(m[1..], key);
      if m[0].key != "_v" { assert WithoutVersion(m)[1..] == WithoutVersion(m[1..]); }
    }
  }

  lemma {:induction false} WithoutVersionKeepsUnique(m: Fields)
    requires UniqueKeys(m)
    ensures UniqueKeys(WithoutVersion(m))
  {
    if m != [] {
      WithoutVersionKeepsUnique(m[1..]);
      FindWithoutVersion(m[1..], m[0].key);
      if m[0].key != "_v" { assert WithoutVersion(m)[1..] == WithoutVersion(m[1..]); }
    }
  }

  lemma FindCandidate(data: Fields, key: string)
    requires UniqueKeys(data)
    ensures UniqueKeys(Candidates(data))
    ensures Find(Candidates(data), key) == if key == "_v" then None else Find(data, key)
  {
    SortKeepsUnique(SmallerFirst(), data);
    FindInSort(SmallerFirst(), data, key);
    FindWithoutVersion(Sort(SmallerFirst(), data), key);
    WithoutVersionKeepsUnique(Sort(SmallerFirst(), data));
  }

  lemma FindFixed(data: Fields, pluginMap: string, key: string)
    ensures UniqueKeys(Fixed(data, pluginMap))
    ensures Find(Fixed(data, pluginMap), key) ==
            if key == "_pluginMap" && pluginMap != "" then Some(pluginMap) else Find(Version(data), key)
  {
    var version := Version(data);
    assert UniqueKeys(version) by { assert version == [] || version[1..] == []; }
    SetKeepsUnique(version, "_pluginMap", pluginMap);
    FindInSet(version, "_pluginMap", pluginMap, key);
  }

  lemma FindVersion(data: Fields, key: string)
    ensures Find(Version(data), key) == if key == "_v" && Find(data, key) != Some("") then Find(data, key) else None
  {
    assert Version(data) == [] || Version(data)[1..] == [];
  }

  lemma FindAssembled(fixed: Fields, all: Fields, n: nat, key: string)
    requires n <= |all| && UniqueKeys(fixed) && UniqueKeys(all) && key != OVERFLOW_FLAG
    ensures UniqueKeys(Assemble(fixed, all, n))
    ensures Find(Assemble(fixed, all, n), key) == if Has(all[..n], key) then Find(all[..n], key) else Find(fixed, key)
  {
    PrefixKeepsUnique(all, n);
    MergeKeepsUnique(fixed, all[..n]);
    FindInMerge(fixed, all[..n], key);
    SetKeepsUnique(Merge(fixed, all[..n]), OVERFLOW_FLAG, "true");
    FindInSet(Merge(fixed, all[..n]), OVERFLOW_FLAG, "true", key);
  }

  /** What handleGet makes of the metadata and body that an assembly leaves. */
  function Reassembled(fixed: Fields, all: Fields, n: nat): Fields
    requires n <= |all|
  {
    Remove(Merge(all[n..], Assemble(fixed, all, n)), OVERFLOW_FLAG)
  }

  lemma FindReassembled(fixed: Fields, all: Fields, n: nat, key: string)
    requires n <= |all| && UniqueKeys(fixed) && UniqueKeys(all)
    ensures Find(Reassembled(fixed, all, n), key) ==
            if key == OVERFLOW_FLAG then None
            else if Has(fixed, key) && !Has(all[..n], key) then Find(fixed, key)
            else Find(all, key)
  {
    var other := if key == OVERFLOW_FLAG then "" else key;
    var metadata := Assemble(fixed, all, n);
    FindAssembled(fixed, all, n, other);
    SuffixKeepsUnique(all, n);
    MergeKeepsUnique(all[n..], metadata);
    FindInMerge(all[n..], metadata, other);
    FindInRemove(Merge(all[n..], metadata), OVERFLOW_FLAG, key);
    FindInConcat(all[..n], all[n..], key);
    assert all == all[..n] + all[n..];
  }

  lemma GetIsReassembled(json: Json, data: Fields, pluginMap: string, limit: int)
    requires Lossless(json)
    ensures Get(json, MetadataOf(data, pluginMap, limit), BodyOf(json, data, pluginMap, limit)) ==
            Reassembled(Fixed(data, pluginMap), Candidates(data), KeptCount(data, Room(data, pluginMap, limit)))
  {
    var rest := Overflowed(data, Room(data, pluginMap, limit));
    assert Trim("") == "";
    assert rest != [] ==> json.parse(json.stringify(rest)) == Some(rest);
  }

  /** What a field comes back as. */
  function Returned(data: Fields, pluginMap: string, room: int, key: string): Option<string> {
    if key == OVERFLOW_FLAG then None
    else if key == "_v" then (if Find(data, key) == Some("") then None else Find(data, key))
    else if key == "_pluginMap" && pluginMap != "" && !Has(Kept(data, room), key) then Some(pluginMap)
    else Find(data, key)
  }

  lemma ReassembledReturns(data: Fields, pluginMap: string, room: int, key: string)
    requires UniqueKeys(data)
    ensures Find(Reassembled(Fixed(data, pluginMap), Candidates(data), KeptCount(data, room)), key) ==
            Returned(data, pluginMap, room, key)
  {
    var n := KeptCount(data, room);
    var all := Candidates(data);
    FindCandidate(data, key);
    FindFixed(data, pluginMap, key);
    FindVersion(data, key);
    FindReassembled(Fixed(data, pluginMap), all, n, key);
    FindInConcat(all[..n], all[n..], key);
    assert all == all[..n] + all[n..];
  }

  /** Every field, whatever it is called. */
  lemma GetReturns(json: Json, data: Fields, pluginMap: string, limit: int, key: string)
    requires Lossless(json) && UniqueKeys(data)
    ensures Find(Get(json, MetadataOf(data, pluginMap, limit), BodyOf(json, data, pluginMap, limit)), key) ==
            Returned(data, pluginMap, Room(data, pluginMap, limit), key)
  {
    GetIsReassembled(json, data, pluginMap, limit);
    ReassembledReturns(data, pluginMap, Room(data, pluginMap, limit), key);
  }

  ghost predicate SameFields(a: Fields, b: Fields) {
    forall key :: Find(a, key) == Find(b, key)
  }

  function WithPluginMap(data: Fields, pluginMap: string): Fields {
    if pluginMap == "" then data else Set(data, "_pluginMap", pluginMap)
  }

  lemma AbsentIsNotKept(data: Fields, room: int, key: string)
    requires UniqueKeys(data) && !Has(data, key)
    ensures !Has(Kept(data, room), key)
  {
    var all, n := Candidates(data), KeptCount(data, room);
    FindCandidate(data, key);
    FindInConcat(all[..n], all[n..], key);
    assert all == all[..n] + all[n..];
  }

  /** A field called like the plugin map that is kept takes the place of the plugin map. */
  predicate PluginMapIsHidden(data: Fields, pluginMap: string, room: int) {
    pluginMap != "" && Has(Kept(data, room), "_pluginMap") && Find(data, "_pluginMap") != Some(pluginMap)
  }

  /** Which fields come back as they were. */
  predicate ComesBack(data: Fields, pluginMap: string, room: int, key: string) {
    && !(key == OVERFLOW_FLAG && Has(data, key))
    && !(key == "_v" && Find(data, key) == Some(""))
    && !(key == "_pluginMap" && PluginMapIsHidden(data, pluginMap, room))
  }

  /** handleGet after handleInsert. */
  function Returns(json: Json, data: Fields, pluginMap: string, limit: int): Fields {
    Get(json, MetadataOf(data, pluginMap, limit), BodyOf(json, data, pluginMap, limit))
  }

  lemma FieldRoundTrip(json: Json, data: Fields, pluginMap: string, limit: int, key: string)
    requires Lossless(json) && UniqueKeys(data)
    ensures Find(Returns(json, data, pluginMap, limit), key) == Find(WithPluginMap(data, pluginMap), key)
      <==> ComesBack(data, pluginMap, Room(data, pluginMap, limit), key)
  {
    GetReturns(json, data, pluginMap, limit, key);
    FindInSet(data, "_pluginMap", pluginMap, key);
    if !Has(data, "_pluginMap") { AbsentIsNotKept(data, Room(data, pluginMap, limit), "_pluginMap"); }
  }

  lemma AllComeBack(data: Fields, pluginMap: string, room: int)
    ensures (forall key :: ComesBack(data, pluginMap, room, key)) <==>
            !Has(data, OVERFLOW_FLAG) && Find(data, "_v") != Some("") && !PluginMapIsHidden(data, pluginMap, room)
  {
    if forall key :: ComesBack(data, pluginMap, room, key) {
      assert ComesBack(data, pluginMap, room, OVERFLOW_FLAG);
      assert ComesBack(data, pluginMap, room, "_v");
      assert ComesBack(data, pluginMap, room, "_pluginMap");
    }
  }

  lemma SameFieldsIff(json: Json, data: Fields, pluginMap: string, limit: int)
    requires Lossless(json) && UniqueKeys(data)
    ensures SameFields(Returns(json, data, pluginMap, limit), WithPluginMap(data, pluginMap)) <==>
            forall key :: ComesBack(data, pluginMap, Room(data, pluginMap, limit), key)
  {
    var got, room := Returns(json, data, pluginMap, limit), Room(data, pluginMap, limit);
    forall key ensures Find(got, key) == Find(WithPluginMap(data, pluginMap), key) <==>
                       ComesBack(data, pluginMap, room, key)
    {
      FieldRoundTrip(json, data, pluginMap, limit, key);
    }
  }

  /** Main result: reading gives back exactly the mapped fields and the plugin map, unless a field is called
      "$overflow" or the version is the empty string, which are lost, or a small field called "_pluginMap"
      hides the plugin map. */
  lemma InsertGetRoundTrip(json: Json, data: Fields, pluginMap: string, limit: int)
    requires Lossless(json) && UniqueKeys(data)
    ensures SameFields(Returns(json, data, pluginMap, limit), WithPluginMap(data, pluginMap)) <==>
            !Has(data, OVERFLOW_FLAG) && Find(data, "_v") != Some("")
            && !PluginMapIsHidden(data, pluginMap, Room(data, pluginMap, limit))
  {
    SameFieldsIff(json, data, pluginMap, limit);
    AllComeBack(data, pluginMap, Room(data, pluginMap, limit));
  }

  /** The flag comes on top of the limit: two fields of a byte each and a limit of one byte. */
  lemma FlagExceedsTheLimit()
    ensures var data := [Entry("a", "x"), Entry("b", "y")];
      var metadata := MetadataOf(data, "", 1);
      metadata == [Entry("a", "x"), Entry(OVERFLOW_FLAG, "true")] && PlacedSize(data, "", 1) == 14
  {
    var a, b := Entry("a", "x"), Entry("b", "y");
    assert Size("x") == 1 && Size("y") == 1;
  }

  lemma ReservedNameSizes()
    ensures Size(OVERFLOW_FLAG) + Size("true") == OVERFLOW_FLAG_BYTES && Size("_pluginMap") == PLUGIN_MAP_BYTES
  {}
}
