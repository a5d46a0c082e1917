/** S3-style listing with delimiter grouping and tokens. */
module Listing {
  import opened Wrappers
  import opened Sorting
  import opened KeyOrder
  import TextLists
  import Utf8
  import Base64

  // ---------------------------------------------------------------- continuation tokens

  function EncodeToken(key: string): string { Base64.Encode(Utf8.Encode(key)) }

  /** None stands for the validation error: the token must be what encoding the decoded key gives, up to padding. */
  function DecodeToken(token: string): Option<string> {
    var normalized := TextLists.Trim(token);
    var octets := Base64.Decode(normalized);
    if octets.None? then None
    else
      var key := Utf8.Decode(octets.value);
      if key.None? || key.value == "" then None
      else if Base64.StripPadding(EncodeToken(key.value)) != Base64.StripPadding(normalized) then None
      else key
  }

  lemma TokenRoundTrip(key: string)
    requires key != ""
    ensures EncodeToken(key) != "" && DecodeToken(EncodeToken(key)) == Some(key)
  {
    var octets := Utf8.Encode(key);
    var token := EncodeToken(key);
    Base64.RoundTrip(octets);
    Utf8.RoundTrip(key);
    Base64.EncodeNotEmpty(octets);
    Base64.EncodeHasNoSpace(octets);
    assert TextLists.Trim(token) == token;
  }

  lemma {:induction false} StripTwice(s: string)
    ensures Base64.StripPadding(Base64.StripPadding(s)) == Base64.StripPadding(s)
  {
    if s != "" && s[|s| - 1] == '=' { StripTwice(s[..|s| - 1]); }
  }

  /** A token is accepted, for a key, exactly when it is what encoding the key gives, up to white space around it
      and padding. */
  lemma TokenIsAcceptedIff(token: string, key: string)
    ensures DecodeToken(token) == Some(key) <==>
      key != "" && Base64.StripPadding(EncodeToken(key)) == Base64.StripPadding(TextLists.Trim(token))
  {
    var normalized := TextLists.Trim(token);
    var octets := Utf8.Encode(key);
    Base64.RoundTrip(octets);
    Utf8.RoundTrip(key);
    StripTwice(EncodeToken(key));
    StripTwice(normalized);
    if Base64.StripPadding(EncodeToken(key)) == Base64.StripPadding(normalized) {
      assert Base64.Decode(normalized) == Base64.Decode(EncodeToken(key));
    }
  }

  // ---------------------------------------------------------------- grouping

  /** A request without its paging part; an empty delimiter means none. */
  datatype Query = Query(prefix: string, delimiter: string)

  function IndexOf(s: string, d: string): int {
    if d <= s then 0
    else if s == "" then -1
    else
      var i := IndexOf(s[1..], d);
      if i == -1 then -1 else i + 1
  }

  lemma {:induction false} IndexOfFinds(s: string, d: string)
    ensures -1 <= IndexOf(s, d) <= |s|
    ensures IndexOf(s, d) >= 0 ==> IndexOf(s, d) + |d| <= |s| && s[IndexOf(s, d)..IndexOf(s, d) + |d|] == d
  {
    if !(d <= s) && s != "" {
      IndexOfFinds(s[1..], d);
      var i := IndexOf(s[1..], d);
      if i >= 0 { assert s[1..][i..i + |d|] == s[i + 1..i + 1 + |d|]; }
    }
  }

  /** Whether an occurrence is the first one does not depend on what follows it. */
  lemma {:induction false} FirstOccurrenceIsLocal(c: string, u: string, v: string, d: string)
    requires |c| >= |d| && IndexOf(c + u, d) == |c| - |d|
    ensures IndexOf(c + v, d) == |c| - |d|
  {
    if |c| == |d| {
      assert d <= c + u && c == d;
    } else {
      assert (c + u)[..|d|] == c[..|d|] == (c + v)[..|d|];
      assert !(d <= c + u) && !(d <= c + v);
      assert (c + u)[1..] == c[1..] + u && (c + v)[1..] == c[1..] + v;
      FirstOccurrenceIsLocal(c[1..], u, v, d);
    }
  }

  /** _extractCommonPrefix on keys that have the prefix: the key up to and with the first delimiter after it. */
  function CommonPrefix(q: Query, key: string): (p: Option<string>)
    ensures p.Some? ==> p.value <= key && p.value != ""
  {
    if q.delimiter == "" || !(q.prefix <= key) then None
    else
      IndexOfFinds(key[|q.prefix|..], q.delimiter);
      var index := IndexOf(key[|q.prefix|..], q.delimiter);
      if index == -1 then None else Some(key[..|q.prefix| + index + |q.delimiter|])
  }

  /** Every key that starts with a common prefix belongs to its group. */
  lemma GroupIsAPrefixClass(q: Query, a: string, b: string)
    requires CommonPrefix(q, a).Some? && CommonPrefix(q, a).value <= b
    ensures CommonPrefix(q, b) == CommonPrefix(q, a)
  {
    var n := |q.prefix|;
    var p := CommonPrefix(q, a).value;
    IndexOfFinds(a[n..], q.delimiter);
    assert a == p + a[|p|..] && b == p + b[|p|..];
    assert q.prefix == p[..n];
    assert a[n..] == p[n..] + a[|p|..] && b[n..] == p[n..] + b[|p|..];
    FirstOccurrenceIsLocal(p[n..], a[|p|..], b[|p|..], q.delimiter);
  }

  // ---------------------------------------------------------------- one page

  datatype Page = Page(contents: seq<string>, prefixes: seq<string>, nextToken: Option<string>)

  function Ungrouped(q: Query, keys: seq<string>): seq<string> {
    if keys == [] then []
    else
      var k := keys[|keys| - 1];
      Ungrouped(q, keys[..|keys| - 1]) + (if CommonPrefix(q, k).None? then [k] else [])
  }

  /** The common prefixes of the grouped keys, one per grouped key. */
  function Labels(q: Query, keys: seq<string>): seq<string> {
    if keys == [] then []
    else
      var g := CommonPrefix(q, keys[|keys| - 1]);
      Labels(q, keys[..|keys| - 1]) + (if g.Some? then [g.value] else [])
  }

  /** Insertion order of a Set. */
  function Distinct(s: seq<string>): seq<string> {
    if s == [] then []
    else
      var d := Distinct(s[..|s| - 1]);
      if s[|s| - 1] in d then d else d + [s[|s| - 1]]
  }

  function Count(q: Query, keys: seq<string>): nat {
    |Ungrouped(q, keys)| + |Distinct(Labels(q, keys))|
  }

  /** Where the page loop stops: at the first index reached with maxKeys entries, or at the end. */
  function CutFrom(q: Query, keys: seq<string>, maxKeys: int, i: nat): nat
    requires i <= |keys|
    ensures i <= CutFrom(q, keys, maxKeys, i) <= |keys|
    decreases |keys| - i
  {
    if i == |keys| || Count(q, keys[..i]) >= maxKeys then i else CutFrom(q, keys, maxKeys, i + 1)
  }

  /** The sorted keys with the prefix, after the given one (an empty start key is no start key). */
  function Filter(keys: seq<string>, prefix: string, after: string): seq<string> {
    if keys == [] then []
    else
      (if prefix <= keys[0] && (after == "" || KeyLess(after, keys[0])) then [keys[0]] else [])
      + Filter(keys[1..], prefix, after)
  }

  function Matching(keys: seq<string>, q: Query, after: string): seq<string> {
    Filter(SortKeys(keys), q.prefix, after)
  }

  /** The page the loop builds over the filtered keys. */
  function PageOf(q: Query, keys: seq<string>, maxKeys: int): Page {
    var cut := CutFrom(q, keys, maxKeys, 0);
    Page(Ungrouped(q, keys[..cut]), Distinct(Labels(q, keys[..cut])),
         if cut == |keys| || cut == 0 || keys[cut - 1] == "" then None else Some(EncodeToken(keys[cut - 1])))
  }

  /** None is the validation error for a bad token. */
  function ListKeys(keys: seq<string>, q: Query, maxKeys: int, token: string, startAfter: string): Option<Page> {
    if token != "" then
      var after := DecodeToken(token);
      if after.None? then None else Some(PageOf(q, Matching(keys, q, after.value), maxKeys))
    else Some(PageOf(q, Matching(keys, q, startAfter), maxKeys))
  }

  lemma {:induction false} UngroupedAppend(q: Query, a: seq<string>, b: seq<string>)
    ensures Ungrouped(q, a + b) == Ungrouped(q, a) + Ungrouped(q, b)
  {
    if b == [] {
      assert a + b == a;
    } else {
      UngroupedAppend(q, a, b[..|b| - 1]);
      assert (a + b)[..|a + b| - 1] == a + b[..|b| - 1];
    }
  }

  lemma {:induction false} LabelsAppend(q: Query, a: seq<string>, b: seq<string>)
    ensures Labels(q, a + b) == Labels(q, a) + Labels(q, b)
  {
    if b == [] {
      assert a + b == a;
    } else {
      LabelsAppend(q, a, b[..|b| - 1]);
      assert (a + b)[..|a + b| - 1] == a + b[..|b| - 1];
    }
  }

  /** What one more key adds to a page. */
  lemma OneMoreKey(q: Query, keys: seq<string>, i: nat)
    requires i < |keys|
    ensures
      var g := CommonPrefix(q, keys[i]);
      var groups := Distinct(Labels(q, keys[..i]));
      && Ungrouped(q, keys[..i + 1]) == Ungrouped(q, keys[..i]) + (if g.None? then [keys[i]] else [])
      && Distinct(Labels(q, keys[..i + 1])) == (if g.None? || g.value in groups then groups else groups + [g.value])
      && Count(q, keys[..i]) <= Count(q, keys[..i + 1]) <= Count(q, keys[..i]) + 1
  {
    assert keys[..i + 1][..i] == keys[..i];
    var labels := Labels(q, keys[..i]);
    assert labels + [] == labels;
    if CommonPrefix(q, keys[i]).Some? {
      assert (labels + [CommonPrefix(q, keys[i]).value])[..|labels|] == labels;
    }
  }

  lemma CountGrowsByOne(q: Query, keys: seq<string>, i: nat)
    requires i <= |keys|
    ensures i == 0 ==> Count(q, keys[..i]) == 0
    ensures i > 0 ==> Count(q, keys[..i]) <= Count(q, keys[..i - 1]) + 1
  {
    if i > 0 { OneMoreKey(q, keys, i - 1); } else { assert keys[..0] == []; }
  }

  /** A page never has more than maxKeys entries. */
  lemma {:induction false} CutRespectsLimit(q: Query, keys: seq<string>, maxKeys: nat, i: nat)
    requires i <= |keys| && (i == 0 || Count(q, keys[..i - 1]) < maxKeys)
    ensures Count(q, keys[..CutFrom(q, keys, maxKeys, i)]) <= maxKeys
    decreases |keys| - i
  {
    CountGrowsByOne(q, keys, i);
    if i < |keys| && Count(q, keys[..i]) < maxKeys { CutRespectsLimit(q, keys, maxKeys, i + 1); }
  }

  /** The loop of MemoryStorage.list over the filtered keys. */
  method ScanPage(q: Query, filteredKeys: seq<string>, maxKeys: int) returns (page: Page)
    ensures page == PageOf(q, filteredKeys, maxKeys)
  {
    var contents, commonPrefixes, processed := [], [], 0;
    var lastKeyInPage, hasMoreKeys := "", false;
    var index := 0;
    while index < |filteredKeys|
      invariant index <= |filteredKeys| && !hasMoreKeys
      invariant contents == Ungrouped(q, filteredKeys[..index])
      invariant commonPrefixes == Distinct(Labels(q, filteredKeys[..index]))
      invariant processed == |contents| + |commonPrefixes|
      invariant CutFrom(q, filteredKeys, maxKeys, index) == CutFrom(q, filteredKeys, maxKeys, 0)
      invariant index == 0 ==> lastKeyInPage == ""
      invariant index > 0 && processed >= maxKeys ==> lastKeyInPage == filteredKeys[index - 1]
    {
      if processed >= maxKeys {
        hasMoreKeys := true;
        break;
      }
      var key := filteredKeys[index];
      OneMoreKey(q, filteredKeys, index);
      var prefixEntry := CommonPrefix(q, key);
      if prefixEntry.Some? {
        if prefixEntry.value !in commonPrefixes {
          commonPrefixes := commonPrefixes + [prefixEntry.value];
          processed := processed + 1;
          lastKeyInPage := key;
        }
      } else {
        contents := contents + [key];
        processed := processed + 1;
        lastKeyInPage := key;
      }
      index := index + 1;
    }
    page := Page(contents, commonPrefixes,
                 if hasMoreKeys && lastKeyInPage != "" then Some(EncodeToken(lastKeyInPage)) else None);
  }

  /** MemoryStorage.list, on the keys of the store. */
  method List(keys: seq<string>, q: Query, maxKeys: int, token: string, startAfter: string) returns (page: Option<Page>)
    ensures page == ListKeys(keys, q, maxKeys, token, startAfter)
  {
    var startAfterKey := startAfter;
    if token != "" {
      var decoded := DecodeToken(token);
      if decoded.None? { return None; }
      startAfterKey := decoded.value;
    }
    var scanned := ScanPage(q, Filter(SortKeys(keys), q.prefix, startAfterKey), maxKeys);
    page := Some(scanned);
  }

  // ---------------------------------------------------------------- runs of equal common prefixes

  /** Runs of equal neighbours shrunk to one. */
  function Collapse(s: seq<string>): seq<string> {
    if |s| < 2 then s
    else if s[0] == s[1] then Collapse(s[1..])
    else [s[0]] + Collapse(s[1..])
  }

  lemma {:induction false} CollapseKeepsHead(s: seq<string>)
    requires s != []
    ensures Collapse(s) != [] && Collapse(s)[0] == s[0]
  {
    if |s| >= 2 { CollapseKeepsHead(s[1..]); }
  }

  lemma {:induction false} CollapseLeft(x: seq<string>, y: seq<string>)
    ensures Collapse(Collapse(x) + y) == Collapse(x + y)
  {
    if |x| >= 2 {
      CollapseLeft(x[1..], y);
      assert (x + y)[1..] == x[1..] + y;
      if x[0] != x[1] {
        CollapseKeepsHead(x[1..]);
        var z := Collapse(x[1..]);
        assert (Collapse(x) + y)[1..] == z + y && (Collapse(x) + y)[1] == x[1];
      }
    }
  }

  lemma {:induction false} CollapseRight(x: seq<string>, y: seq<string>)
    ensures Collapse(x + Collapse(y)) == Collapse(x + y)
  {
    if x == [] {
      CollapseLeft(y, []);
      assert [] + y == y && y + [] == y && [] + Collapse(y) == Collapse(y) && Collapse(y) + [] == Collapse(y);
    } else {
      CollapseRight(x[1..], y);
      var z := Collapse(y);
      assert (x + y)[1..] == x[1..] + y && (x + z)[1..] == x[1..] + z;
      if |x| == 1 && y != [] {
        CollapseKeepsHead(y);
        assert (x + y)[1] == y[0] == z[0] == (x + z)[1];
      } else if |x| > 1 {
        assert (x + y)[1] == x[1] == (x + z)[1];
      }
    }
  }

  lemma {:induction false} CollapseSnoc(s: seq<string>, x: string)
    requires s != []
    ensures Collapse(s + [x]) == if s[|s| - 1] == x then Collapse(s) else Collapse(s) + [x]
  {
    if |s| == 1 {
      assert (s + [x])[1..] == [x];
    } else {
      CollapseSnoc(s[1..], x);
      assert (s + [x])[1..] == s[1..] + [x];
    }
  }

  ghost predicate Contiguous(s: seq<string>) {
    forall i, j, k :: 0 <= i < j < k < |s| && s[i] == s[k] ==> s[j] == s[k]
  }

  lemma {:induction false} DistinctMembers(s: seq<string>)
    ensures NoDuplicates(Distinct(s))
    ensures forall x :: x in Distinct(s) <==> x in s
  {
    if s != [] {
      DistinctMembers(s[..|s| - 1]);
      assert s == s[..|s| - 1] + [s[|s| - 1]];
    }
  }

  lemma {:induction false} DistinctIsCollapse(s: seq<string>)
    requires Contiguous(s)
    ensures Distinct(s) == Collapse(s)
  {
    if |s| > 1 {
      var n := |s| - 1;
      DistinctIsCollapse(s[..n]);
      DistinctMembers(s[..n]);
      assert s == s[..n] + [s[n]];
      CollapseSnoc(s[..n], s[n]);
      if s[n] in s[..n] {
        var i :| 0 <= i < n && s[i] == s[n];
        assert s[n - 1] == s[n];
      }
    } else if |s| == 1 {
      assert Distinct(s[..0]) == [];
    }
  }

  lemma {:induction false} LabelComesFromKey(q: Query, keys: seq<string>, l: string) returns (i: nat)
    requires l in Labels(q, keys)
    ensures i < |keys| && CommonPrefix(q, keys[i]) == Some(l)
  {
    var n := |keys| - 1;
    if CommonPrefix(q, keys[n]) == Some(l) { return n; }
    i := LabelComesFromKey(q, keys[..n], l);
  }

  /** In ascending keys, a group is a run: keys between two of its members belong to it. */
  lemma {:induction false} LabelsAreContiguous(q: Query, keys: seq<string>)
    requires Ascending(keys)
    ensures Contiguous(Labels(q, keys))
  {
    if keys != [] {
      var n := |keys| - 1;
      var labels, g := Labels(q, keys[..n]), CommonPrefix(q, keys[n]);
      LabelsAreContiguous(q, keys[..n]);
      if g.Some? && g.value in labels {
        var i := LabelComesFromKey(q, keys[..n], g.value);
        LastLabelIsItsGroup(q, keys, g.value, i);
        assert labels[|labels| - 1] == g.value;
      }
    }
  }

  lemma LastLabelIsItsGroup(q: Query, keys: seq<string>, l: string, i: nat)
    requires Ascending(keys) && i < |keys| - 1
    requires CommonPrefix(q, keys[i]) == Some(l) == CommonPrefix(q, keys[|keys| - 1])
    ensures var labels := Labels(q, keys[..|keys| - 1]);
      labels != [] && labels[|labels| - 1] == l
  {
    var n := |keys| - 1;
    if i < n - 1 {
      PrefixesAreContiguous(l, keys[i], keys[n - 1], keys[n]);
      GroupIsAPrefixClass(q, keys[i], keys[n - 1]);
    }
    assert keys[..n][..n - 1] == keys[..n - 1] && keys[..n][n - 1] == keys[n - 1];
  }

  // ---------------------------------------------------------------- following the tokens

  lemma {:induction false} FilterKeepsOrder(keys: seq<string>, prefix: string, after: string)
    requires Ascending(keys)
    ensures Ascending(Filter(keys, prefix, after))
    ensures forall k :: k in Filter(keys, prefix, after) <==>
        k in keys && prefix <= k && (after == "" || KeyLess(after, k))
  {
    if keys != [] {
      FilterKeepsOrder(keys[1..], prefix, after);
      var rest := Filter(keys[1..], prefix, after);
      assert keys == [keys[0]] + keys[1..];
      forall j | 0 <= j < |rest| ensures KeyLess(keys[0], rest[j]) {
        assert rest[j] in keys[1..];
      }
    }
  }

  /** Listing from the last key of a page gives exactly what the page left. */
  lemma ContinuingIsTheRest(keys: seq<string>, q: Query, after: string, e: nat)
    requires NoDuplicates(keys) && 0 < e <= |Matching(keys, q, after)| && Matching(keys, q, after)[e - 1] != ""
    ensures Matching(keys, q, Matching(keys, q, after)[e - 1]) == Matching(keys, q, after)[e..]
  {
    var all := SortKeys(keys);
    var ks := Matching(keys, q, after);
    var last := ks[e - 1];
    SortKeysAscends(keys);
    FilterKeepsOrder(all, q.prefix, after);
    FilterKeepsOrder(all, q.prefix, last);
    KeyLeqIsOrder();
    var a, b := Matching(keys, q, last), ks[e..];
    forall x ensures x in a <==> x in b {
      if x in b { assert x in ks; }
      if x in a {
        if after != "" { assert last in ks; KeyLessTransitive(after, last, x); }
        assert x in ks;
        var i :| 0 <= i < |ks| && ks[i] == x;
        if i < e - 1 { KeyLessAsymmetric(ks[i], last); }
        if i == e - 1 { KeyLessIrreflexive(last); }
        assert ks[e..][i - e] == x;
      }
    }
    AscendingIsSorted(a);
    AscendingIsSorted(b);
    SortedUnique((x: string, y: string) => KeyLeq(x, y), a, b);
  }

  lemma AscendingIsSorted(keys: seq<string>)
    requires Ascending(keys)
    ensures NoDuplicates(keys) && SortedBy((x: string, y: string) => KeyLeq(x, y), keys)
  {
    forall i, j | 0 <= i < j < |keys| ensures keys[i] != keys[j] {
      KeyLessIrreflexive(keys[i]);
    }
  }

  /** Where a request starts: the token takes precedence over startAfter; None if the token is rejected. */
  function StartKey(token: string, startAfter: string): Option<string> {
    if token == "" then Some(startAfter) else DecodeToken(token)
  }

  /** The keys that a request with this token and startAfter is about. */
  function Remaining(keys: seq<string>, q: Query, token: string, startAfter: string): seq<string> {
    if StartKey(token, startAfter).None? then [] else Matching(keys, q, StartKey(token, startAfter).value)
  }

  lemma NextPageIsTheRest(keys: seq<string>, q: Query, maxKeys: int, after: string, startAfter: string)
    requires NoDuplicates(keys) && PageOf(q, Matching(keys, q, after), maxKeys).nextToken.Some?
    ensures
      var ks := Matching(keys, q, after);
      var cut := CutFrom(q, ks, maxKeys, 0);
      var token := PageOf(q, ks, maxKeys).nextToken.value;
      && 0 < cut < |ks| && token != "" && StartKey(token, startAfter).Some?
      && Remaining(keys, q, token, startAfter) == ks[cut..]
  {
    var ks := Matching(keys, q, after);
    var cut := CutFrom(q, ks, maxKeys, 0);
    TokenRoundTrip(ks[cut - 1]);
    ContinuingIsTheRest(keys, q, after, cut);
  }

  /** A client that repeats its request with each NextContinuationToken; it always gets to the end. */
  function Follow(keys: seq<string>, q: Query, maxKeys: int, token: string, startAfter: string): seq<Page>
    requires NoDuplicates(keys) && maxKeys >= 1
    decreases |Remaining(keys, q, token, startAfter)|
  {
    var page := ListKeys(keys, q, maxKeys, token, startAfter);
    if page.None? then []
    else if page.value.nextToken.None? then [page.value]
    else
      NextPageIsTheRest(keys, q, maxKeys, StartKey(token, startAfter).value, startAfter);
      [page.value] + Follow(keys, q, maxKeys, page.value.nextToken.value, startAfter)
  }

  function AllContents(pages: seq<Page>): seq<string> {
    if pages == [] then [] else pages[0].contents + AllContents(pages[1..])
  }

  function AllPrefixes(pages: seq<Page>): seq<string> {
    if pages == [] then [] else pages[0].prefixes + AllPrefixes(pages[1..])
  }

  lemma PageIsItsPrefix(q: Query, ks: seq<string>, maxKeys: int)
    requires Ascending(ks) && maxKeys >= 1
    ensures
      var cut := CutFrom(q, ks, maxKeys, 0);
      var page := PageOf(q, ks, maxKeys);
      && page.contents == Ungrouped(q, ks[..cut]) && page.prefixes == Collapse(Labels(q, ks[..cut]))
  {
    var cut := CutFrom(q, ks, maxKeys, 0);
    LabelsAreContiguous(q, ks[..cut]);
    DistinctIsCollapse(Labels(q, ks[..cut]));
  }

  lemma PageIsNotEmpty(q: Query, ks: seq<string>, maxKeys: int)
    requires maxKeys >= 1 && ks != []
    ensures CutFrom(q, ks, maxKeys, 0) > 0
  {
    CountGrowsByOne(q, ks, 0);
  }

  /** At most maxKeys entries, and no common prefix twice. */
  ghost predicate FitsLimit(page: Page, maxKeys: int) {
    |page.contents| + |page.prefixes| <= maxKeys && NoDuplicates(page.prefixes)
  }

  lemma PageFitsLimit(q: Query, ks: seq<string>, maxKeys: int)
    requires maxKeys >= 1
    ensures FitsLimit(PageOf(q, ks, maxKeys), maxKeys)
  {
    CutRespectsLimit(q, ks, maxKeys, 0);
    DistinctMembers(Labels(q, ks[..CutFrom(q, ks, maxKeys, 0)]));
  }

  ghost predicate WithinLimit(pages: seq<Page>, maxKeys: int) {
    forall i :: 0 <= i < |pages| ==> FitsLimit(pages[i], maxKeys)
  }

  lemma MatchingAscends(keys: seq<string>, q: Query, after: string)
    requires NoDuplicates(keys)
    ensures Ascending(Matching(keys, q, after)) && |Matching(keys, q, after)| <= |keys|
    ensures forall k :: k in Matching(keys, q, after) ==> k in keys
  {
    SortKeysAscends(keys);
    FilterKeepsOrder(SortKeys(keys), q.prefix, after);
    FilterIsShorter(SortKeys(keys), q.prefix, after);
  }

  lemma {:induction false} FilterIsShorter(keys: seq<string>, prefix: string, after: string)
    ensures |Filter(keys, prefix, after)| <= |keys|
  {
    if keys != [] { FilterIsShorter(keys[1..], prefix, after); }
  }

  /** Nothing is hidden behind the empty key: the only page that ends early without a token is [""]. */
  ghost predicate Pageable(ks: seq<string>, maxKeys: int) {
    Ascending(ks) && maxKeys >= 1 && (|ks| <= 1 || ks[0] != "" || maxKeys > 1)
  }

  lemma LargerPagesCutLater(q: Query, ks: seq<string>, maxKeys: int)
    requires maxKeys > 1 && |ks| > 1
    ensures CutFrom(q, ks, maxKeys, 0) > 1
  {
    CountGrowsByOne(q, ks, 0);
    CountGrowsByOne(q, ks, 1);
  }

  lemma PageWithoutTokenIsTheRest(q: Query, ks: seq<string>, maxKeys: int)
    requires Pageable(ks, maxKeys) && PageOf(q, ks, maxKeys).nextToken.None?
    ensures CutFrom(q, ks, maxKeys, 0) == |ks|
  {
    if ks != [] { PageIsNotEmpty(q, ks, maxKeys); }
    if |ks| > 1 && maxKeys > 1 { LargerPagesCutLater(q, ks, maxKeys); }
  }

  /** The pages of a list of keys, cut after cut. */
  function Pages(q: Query, ks: seq<string>, maxKeys: int): seq<Page>
    decreases |ks|
  {
    var cut := CutFrom(q, ks, maxKeys, 0);
    if cut == 0 || cut == |ks| then [PageOf(q, ks, maxKeys)]
    else [PageOf(q, ks, maxKeys)] + Pages(q, ks[cut..], maxKeys)
  }

  /** Each token leads to exactly the keys its page left, so the tokens walk through the cuts. */
  lemma {:induction false} FollowingIsCutting(
      keys: seq<string>, q: Query, maxKeys: int, token: string, startAfter: string)
    requires NoDuplicates(keys) && Pageable(Remaining(keys, q, token, startAfter), maxKeys)
    requires StartKey(token, startAfter).Some?
    ensures Follow(keys, q, maxKeys, token, startAfter) == Pages(q, Remaining(keys, q, token, startAfter), maxKeys)
    decreases |Remaining(keys, q, token, startAfter)|
  {
    var ks := Remaining(keys, q, token, startAfter);
    var cut, page := CutFrom(q, ks, maxKeys, 0), PageOf(q, ks, maxKeys);
    if page.nextToken.None? {
      PageWithoutTokenIsTheRest(q, ks, maxKeys);
    } else {
      NextPageIsTheRest(keys, q, maxKeys, StartKey(token, startAfter).value, startAfter);
      assert KeyLess(ks[cut - 1], ks[cut]);
      FollowingIsCutting(keys, q, maxKeys, page.nextToken.value, startAfter);
    }
  }

  lemma SplitAt(q: Query, ks: seq<string>, cut: nat)
    requires cut <= |ks|
    ensures Ungrouped(q, ks) == Ungrouped(q, ks[..cut]) + Ungrouped(q, ks[cut..])
    ensures Labels(q, ks) == Labels(q, ks[..cut]) + Labels(q, ks[cut..])
  {
    UngroupedAppend(q, ks[..cut], ks[cut..]);
    LabelsAppend(q, ks[..cut], ks[cut..]);
    assert ks == ks[..cut] + ks[cut..];
  }

  lemma AllOfCons(page: Page, rest: seq<Page>)
    ensures AllContents([page] + rest) == page.contents + AllContents(rest)
    ensures AllPrefixes([page] + rest) == page.prefixes + AllPrefixes(rest)
  {
    assert ([page] + rest)[1..] == rest;
  }

  lemma EntriesOfOnePage(page: Page)
    ensures AllContents([page]) == page.contents && AllPrefixes([page]) == page.prefixes
  {
    AllOfCons(page, []);
    assert [page] + [] == [page];
  }

  lemma RestAscends(ks: seq<string>, cut: nat)
    requires Ascending(ks) && cut <= |ks|
    ensures Ascending(ks[cut..])
  {}

  /** What the first of several pages contributes. */
  lemma PagesStep(q: Query, ks: seq<string>, maxKeys: int, cut: nat)
    requires Ascending(ks) && maxKeys >= 1 && cut == CutFrom(q, ks, maxKeys, 0) && 0 < cut < |ks|
    ensures AllContents(Pages(q, ks, maxKeys)) == Ungrouped(q, ks[..cut]) + AllContents(Pages(q, ks[cut..], maxKeys))
    ensures AllPrefixes(Pages(q, ks, maxKeys)) ==
        Collapse(Labels(q, ks[..cut])) + AllPrefixes(Pages(q, ks[cut..], maxKeys))
  {
    PageIsItsPrefix(q, ks, maxKeys);
    AllOfCons(PageOf(q, ks, maxKeys), Pages(q, ks[cut..], maxKeys));
  }

  lemma LastPage(q: Query, ks: seq<string>, maxKeys: int)
    requires Ascending(ks) && maxKeys >= 1 && !(0 < CutFrom(q, ks, maxKeys, 0) < |ks|)
    ensures AllContents(Pages(q, ks, maxKeys)) == Ungrouped(q, ks)
    ensures AllPrefixes(Pages(q, ks, maxKeys)) == Collapse(Labels(q, ks))
  {
    PageIsItsPrefix(q, ks, maxKeys);
    if ks != [] { PageIsNotEmpty(q, ks, maxKeys); }
    assert ks[..CutFrom(q, ks, maxKeys, 0)] == ks;
    EntriesOfOnePage(PageOf(q, ks, maxKeys));
  }

  lemma {:induction false} PagesTileTheContents(q: Query, ks: seq<string>, maxKeys: int)
    requires Ascending(ks) && maxKeys >= 1
    ensures AllContents(Pages(q, ks, maxKeys)) == Ungrouped(q, ks)
    decreases |ks|
  {
    var cut := CutFrom(q, ks, maxKeys, 0);
    if 0 < cut < |ks| {
      RestAscends(ks, cut);
      PagesTileTheContents(q, ks[cut..], maxKeys);
      SplitAt(q, ks, cut);
      PagesStep(q, ks, maxKeys, cut);
    } else {
      LastPage(q, ks, maxKeys);
    }
  }

  lemma {:induction false} PagesTileThePrefixes(q: Query, ks: seq<string>, maxKeys: int)
    requires Ascending(ks) && maxKeys >= 1
    ensures Collapse(AllPrefixes(Pages(q, ks, maxKeys))) == Collapse(Labels(q, ks))
    decreases |ks|
  {
    var cut := CutFrom(q, ks, maxKeys, 0);
    if 0 < cut < |ks| {
      RestAscends(ks, cut);
      PagesTileThePrefixes(q, ks[cut..], maxKeys);
      SplitAt(q, ks, cut);
      PagesStep(q, ks, maxKeys, cut);
      CollapseBoth(Labels(q, ks[..cut]), AllPrefixes(Pages(q, ks[cut..], maxKeys)), Labels(q, ks[cut..]));
    } else {
      LastPage(q, ks, maxKeys);
      CollapseIsIdempotent(Labels(q, ks));
    }
  }

  lemma {:induction false} PagesAreWithinLimit(q: Query, ks: seq<string>, maxKeys: int)
    requires maxKeys >= 1
    ensures WithinLimit(Pages(q, ks, maxKeys), maxKeys)
    decreases |ks|
  {
    var cut := CutFrom(q, ks, maxKeys, 0);
    PageFitsLimit(q, ks, maxKeys);
    if 0 < cut < |ks| { PagesAreWithinLimit(q, ks[cut..], maxKeys); }
  }

  lemma CollapseIsIdempotent(a: seq<string>)
    ensures Collapse(Collapse(a)) == Collapse(a)
  {
    CollapseLeft(a, []);
    assert a + [] == a && Collapse(a) + [] == Collapse(a);
  }

  lemma CollapseBoth(a: seq<string>, r: seq<string>, b: seq<string>)
    requires Collapse(r) == Collapse(b)
    ensures Collapse(Collapse(a) + r) == Collapse(a + b)
  {
    CollapseLeft(a, r);
    CollapseRight(a, r);
    CollapseRight(a, b);
  }

  /** These pages are the listing of ks that one page of a size that holds everything would give: its
      contents once and in order, and its common prefixes up to repeats across page breaks. */
  ghost predicate IsListing(q: Query, ks: seq<string>, size: int, maxKeys: int, pages: seq<Page>) {
    var whole := PageOf(q, ks, size);
    && whole.nextToken.None?
    && WithinLimit(pages, maxKeys)
    && AllContents(pages) == whole.contents
    && Collapse(AllPrefixes(pages)) == whole.prefixes
  }

  lemma CuttingIsTheListing(q: Query, ks: seq<string>, maxKeys: int, size: int, pages: seq<Page>)
    requires Ascending(ks) && maxKeys >= 1 && |ks| < size && pages == Pages(q, ks, maxKeys)
    ensures IsListing(q, ks, size, maxKeys, pages)
  {
    PagesTileTheContents(q, ks, maxKeys);
    PagesTileThePrefixes(q, ks, maxKeys);
    PagesAreWithinLimit(q, ks, maxKeys);
    WholePage(q, ks, size);
  }

  /** The client meets the empty key alone on a page, with other keys behind it. */
  predicate EmptyKeyStandsAlone(keys: seq<string>, q: Query, maxKeys: int, startAfter: string) {
    maxKeys <= 1 && q.prefix == "" && startAfter == "" && "" in keys && |keys| != 1
  }

  /**
   Main result.  Whatever the page size and startAfter, the pages a client gets by following the
   tokens hold every ungrouped matching key exactly once and in order, at most maxKeys entries
   each, and the common prefixes of the one-page listing: the only repeats are neighbours across a
   page break, and shrinking them gives the one-page list.  The one exception is a page of size 1
   with the empty key, which hides the other keys.
  */
  lemma PagedListingIsTheListing(keys: seq<string>, q: Query, maxKeys: int, startAfter: string)
    requires NoDuplicates(keys) && maxKeys >= 1
    ensures IsListing(q, Matching(keys, q, startAfter), |keys| + 1, maxKeys, Follow(keys, q, maxKeys, "", startAfter))
       <==> !EmptyKeyStandsAlone(keys, q, maxKeys, startAfter)
  {
    if EmptyKeyStandsAlone(keys, q, maxKeys, startAfter) {
      EmptyKeyIsNotTheListing(keys, q);
    } else {
      FirstRequestIsCutting(keys, q, maxKeys, startAfter);
      CuttingIsTheListing(
        q, Matching(keys, q, startAfter), maxKeys, |keys| + 1, Follow(keys, q, maxKeys, "", startAfter));
    }
  }

  lemma FirstRequestIsCutting(keys: seq<string>, q: Query, maxKeys: int, startAfter: string)
    requires NoDuplicates(keys) && maxKeys >= 1
    requires !EmptyKeyStandsAlone(keys, q, maxKeys, startAfter)
    ensures Ascending(Matching(keys, q, startAfter)) && |Matching(keys, q, startAfter)| <= |keys|
    ensures Follow(keys, q, maxKeys, "", startAfter) == Pages(q, Matching(keys, q, startAfter), maxKeys)
  {
    MatchingAscends(keys, q, startAfter);
    FirstPageable(keys, q, maxKeys, startAfter);
    FollowingIsCutting(keys, q, maxKeys, "", startAfter);
  }

  lemma FirstPageable(keys: seq<string>, q: Query, maxKeys: int, startAfter: string)
    requires NoDuplicates(keys) && maxKeys >= 1
    requires !EmptyKeyStandsAlone(keys, q, maxKeys, startAfter)
    ensures Pageable(Matching(keys, q, startAfter), maxKeys)
  {
    MatchingAscends(keys, q, startAfter);
    SortKeysAscends(keys);
    FilterKeepsOrder(SortKeys(keys), q.prefix, startAfter);
    var ks := Matching(keys, q, startAfter);
    if ks != [] {
      HeadIsMember(ks);
      if startAfter != "" { NothingIsLessThanEmpty(startAfter); }
    }
  }

  lemma NothingIsLessThanEmpty(a: string)
    ensures !KeyLess(a, "")
  {}

  lemma {:induction false} CountIsBounded(q: Query, keys: seq<string>, i: nat)
    requires i <= |keys|
    ensures Count(q, keys[..i]) <= i
  {
    CountGrowsByOne(q, keys, i);
    if i > 0 { CountIsBounded(q, keys, i - 1); }
  }

  lemma {:induction false} CutAtEnd(q: Query, keys: seq<string>, maxKeys: int, i: nat)
    requires i <= |keys| < maxKeys
    ensures CutFrom(q, keys, maxKeys, i) == |keys|
    decreases |keys| - i
  {
    CountIsBounded(q, keys, i);
    if i < |keys| { CutAtEnd(q, keys, maxKeys, i + 1); }
  }

  lemma WholePage(q: Query, ks: seq<string>, maxKeys: int)
    requires Ascending(ks) && |ks| < maxKeys
    ensures PageOf(q, ks, maxKeys) == Page(Ungrouped(q, ks), Collapse(Labels(q, ks)), None)
  {
    CutAtEnd(q, ks, maxKeys, 0);
    PageIsItsPrefix(q, ks, maxKeys);
    assert ks[..|ks|] == ks;
  }

  /** A page of size 1 that starts with the empty key ends the listing. */
  lemma EmptyKeyEndsTheListing(q: Query, ks: seq<string>)
    requires |ks| > 0 && ks[0] == "" && q.prefix == ""
    ensures PageOf(q, ks, 1) == Page([""], [], None)
  {
    assert CommonPrefix(q, "").None?;
    assert ks[..0] == [] && ks[..1] == [""] && [""][..0] == [];
    assert Count(q, ks[..0]) == 0 && Ungrouped(q, ks[..1]) == [""] && Labels(q, ks[..1]) == [];
    assert CutFrom(q, ks, 1, 1) == 1;
    assert CutFrom(q, ks, 1, 0) == CutFrom(q, ks, 1, 1);
  }

  /** In the one excluded case - page size 1 and an empty key first - the client never sees the other keys. */
  lemma EmptyKeyHidesTheRest(keys: seq<string>, q: Query)
    requires NoDuplicates(keys) && q.prefix == "" && "" in keys && |keys| > 1
    ensures Follow(keys, q, 1, "", "") == [Page([""], [], None)]
  {
    SortKeysAscends(keys);
    FilterKeepsOrder(SortKeys(keys), "", "");
    var ks := Matching(keys, q, "");
    EmptyKeyIsFirst(ks);
    EmptyKeyEndsTheListing(q, ks);
  }

  lemma {:induction false} EverythingMatches(keys: seq<string>)
    ensures Filter(keys, "", "") == keys
  {
    if keys != [] { EverythingMatches(keys[1..]); }
  }

  lemma {:induction false} EveryKeyIsListed(q: Query, keys: seq<string>)
    ensures |Ungrouped(q, keys)| + |Labels(q, keys)| == |keys|
  {
    if keys != [] { EveryKeyIsListed(q, keys[..|keys| - 1]); }
  }

  lemma TwoKeysTwoEntries(q: Query, ks: seq<string>)
    requires |ks| > 1
    ensures |Ungrouped(q, ks)| > 1 || Collapse(Labels(q, ks)) != []
  {
    EveryKeyIsListed(q, ks);
    if Labels(q, ks) != [] { CollapseKeepsHead(Labels(q, ks)); }
  }

  /** The one-page listing has another entry. */
  lemma EmptyKeyIsNotTheListing(keys: seq<string>, q: Query)
    requires NoDuplicates(keys) && q.prefix == "" && "" in keys && |keys| > 1
    ensures !IsListing(q, Matching(keys, q, ""), |keys| + 1, 1, Follow(keys, q, 1, "", ""))
  {
    var ks := Matching(keys, q, "");
    EmptyKeyHidesTheRest(keys, q);
    EntriesOfOnePage(Page([""], [], None));
    MatchingAscends(keys, q, "");
    EverythingMatches(SortKeys(keys));
    SortKeysAscends(keys);
    WholePage(q, ks, |keys| + 1);
    TwoKeysTwoEntries(q, ks);
  }

  lemma EmptyKeyIsFirst(ks: seq<string>)
    requires Ascending(ks) && "" in ks
    ensures ks[0] == ""
  {
    var i :| 0 <= i < |ks| && ks[i] == "";
    assert i == 0 || KeyLess(ks[0], ks[i]);
  }
}
