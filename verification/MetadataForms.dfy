/** Which form the metadata encoder chooses, and when what it stores is printable ASCII. */
module MetadataForms {
  import opened Bytes
  import opened Wrappers
  import opened Sorting
  import opened MetadataEncoding
  import Base64
  import Dictionary
  import DictionaryCodes
  import KeyOrder
  import PercentEncoding
  import Utf8

  // ---------------------------------------------------------------- the parts are printable

  lemma AsciiConcat(a: string, b: string)
    ensures IsAsciiOnly(a + b) <==> IsAsciiOnly(a) && IsAsciiOnly(b)
  {
    if IsAsciiOnly(a + b) {
      forall i | 0 <= i < |a| ensures 0x20 <= a[i] as int <= 0x7E { assert (a + b)[i] == a[i]; }
      forall i | 0 <= i < |b| ensures 0x20 <= b[i] as int <= 0x7E { assert (a + b)[|a| + i] == b[i]; }
    }
  }

  lemma {:induction false} TripletsAreAscii(b: Bytes)
    ensures IsAsciiOnly(PercentEncoding.Triplets(b))
  {
    if b != [] {
      TripletsAreAscii(b[1..]);
      AsciiConcat(PercentEncoding.Triplet(b[0]), PercentEncoding.Triplets(b[1..]));
    }
  }

  lemma {:induction false} PercentIsAscii(s: string)
    ensures IsAsciiOnly(PercentEncoding.Encode(s))
  {
    if s != "" {
      PercentIsAscii(s[1..]);
      TripletsAreAscii(Utf8.EncodeChar(s[0]));
      var first := if PercentEncoding.IsUnreserved(s[0]) then [s[0]]
                   else PercentEncoding.Triplets(Utf8.EncodeChar(s[0]));
      AsciiConcat(first, PercentEncoding.Encode(s[1..]));
    }
  }

  lemma Base64IsAscii(s: string)
    ensures IsAsciiOnly(InBase64(s).encoded)
  {
    Base64.EncodeHasNoSpace(Utf8.Encode(s));
    AsciiConcat("b:", Base64.Encode(Utf8.Encode(s)));
  }

  // ---------------------------------------------------------------- the dictionary

  ghost predicate PlainValue(v: Option<string>) {
    && v.Some? && |v.value| > 3 && IsAsciiOnly(v.value)
    && v.value[0] !in {'/', 'h', 'z'} && v.value[1] != ':'
  }

  ghost predicate PlainPrefix(p: Option<string>) {
    p.Some? && |p.value| >= 4 && IsAsciiOnly(p.value) && (p.value[0] == '/' || (p.value[0] == 'h' && p.value[1] == 't'))
  }

  lemma Status1(code: char)
    requires code in {'p', 'c', 's', 'f', 'x'}
    ensures PlainValue(Dictionary.StatusOf(code))
  {}

  lemma Status2(code: char)
    requires code in {'t', 'r', 'a', 'K', 'R'}
    ensures PlainValue(Dictionary.StatusOf(code))
  {}

  lemma Status3(code: char)
    requires code in {'d', 'h', 'D', 'e', 'i'}
    ensures PlainValue(Dictionary.StatusOf(code))
  {}

  lemma Status4(code: char)
    requires code in {'n', 'm'}
    ensures PlainValue(Dictionary.StatusOf(code))
  {}

  lemma StatusIsPlain(code: char)
    requires Dictionary.StatusOf(code).Some?
    ensures PlainValue(Dictionary.StatusOf(code))
  {
    if code in {'p', 'c', 's', 'f', 'x'} {
      Status1(code);
    } else if code in {'t', 'r', 'a', 'K', 'R'} {
      Status2(code);
    } else if code in {'d', 'h', 'D', 'e', 'i'} {
      Status3(code);
    } else {
      Status4(code);
    }
  }

  lemma ContentType1(code: char)
    requires code in {'j', 'X', 'J', 'H'}
    ensures PlainValue(Dictionary.ContentTypeOf(code))
  {}

  lemma ContentType2(code: char)
    requires code in {'T', 'C', 'V', 'v'}
    ensures PlainValue(Dictionary.ContentTypeOf(code))
  {}

  lemma ContentType3(code: char)
    requires code in {'P', 'I', 'G', 'S'}
    ensures PlainValue(Dictionary.ContentTypeOf(code))
  {}

  lemma ContentType4(code: char)
    requires code in {'W', 'Q', 'z'}
    ensures PlainValue(Dictionary.ContentTypeOf(code))
  {}

  lemma ContentType5(code: char)
    requires code in {'o', 'u'}
    ensures PlainValue(Dictionary.ContentTypeOf(code))
  {}

  lemma ContentType6(code: char)
    requires code in {'F', 'w', 'f'}
    ensures PlainValue(Dictionary.ContentTypeOf(code))
  {}

  lemma ContentTypeIsPlain(code: char)
    requires Dictionary.ContentTypeOf(code).Some?
    ensures PlainValue(Dictionary.ContentTypeOf(code))
  {
    if code in {'j', 'X', 'J', 'H'} {
      ContentType1(code);
    } else if code in {'T', 'C', 'V', 'v'} {
      ContentType2(code);
    } else if code in {'P', 'I', 'G', 'S'} {
      ContentType3(code);
    } else if code in {'W', 'Q', 'z'} {
      ContentType4(code);
    } else if code in {'o', 'u'} {
      ContentType5(code);
    } else {
      ContentType6(code);
    }
  }

  lemma UrlPrefix1(code: char)
    requires code in {'1', '2', '3', 'a'}
    ensures PlainPrefix(Dictionary.PrefixOf(code))
  {}

  lemma UrlPrefix2(code: char)
    requires code in {'A', 'H', 'W', 'h'}
    ensures PlainPrefix(Dictionary.PrefixOf(code))
  {}

  lemma UrlPrefix3(code: char)
    requires code in {'t', 's', 'S', 'L'}
    ensures PlainPrefix(Dictionary.PrefixOf(code))
  {}

  lemma UrlPrefix4(code: char)
    requires code in {'l', 'v', 'u', 'p'}
    ensures PlainPrefix(Dictionary.PrefixOf(code))
  {}

  lemma UrlPrefixIsPlain(code: char)
    requires Dictionary.PrefixOf(code).Some?
    ensures PlainPrefix(Dictionary.PrefixOf(code))
  {
    if code in {'1', '2', '3', 'a'} {
      UrlPrefix1(code);
    } else if code in {'A', 'H', 'W', 'h'} {
      UrlPrefix2(code);
    } else if code in {'t', 's', 'S', 'L'} {
      UrlPrefix3(code);
    } else {
      UrlPrefix4(code);
    }
  }

  lemma KnownIsPlain(s: string)
    requires Dictionary.ExactCode(s).Some?
    ensures PlainValue(Some(s))
  {
    if Dictionary.StatusCode(s).Some? {
      StatusIsPlain(Dictionary.StatusCode(s).value);
    } else {
      ContentTypeIsPlain(Dictionary.ContentTypeCode(s).value);
    }
  }

  lemma CodeIsLetter(code: char)
    requires Dictionary.ExactValue(code).Some? || Dictionary.PrefixOf(code).Some?
    ensures '0' <= code <= 'z'
  {}

  // ---------------------------------------------------------------- the URL prefixes

  /** The value begins with this entry of the dictionary. */
  predicate Begins(value: string, i: nat) { i < 16 && Dictionary.PrefixAt(i).prefix <= value }

  lemma {:induction false} FirstMatchIsFirst(entries: seq<Dictionary.PrefixEntry>, value: string, k: nat)
    requires k < |entries| && entries[k].prefix <= value
    ensures Dictionary.FirstMatch(entries, value).Some?
    ensures exists j :: 0 <= j <= k && entries[j] == Dictionary.FirstMatch(entries, value).value
  {
    if !(entries[0].prefix <= value) {
      FirstMatchIsFirst(entries[1..], value, k - 1);
      var j :| 0 <= j <= k - 1 && entries[1..][j] == Dictionary.FirstMatch(entries[1..], value).value;
      assert entries[j + 1] == Dictionary.FirstMatch(entries, value).value;
    }
  }

  lemma InSorted(i: nat, entries: seq<Dictionary.PrefixEntry>, sorted: seq<Dictionary.PrefixEntry>) returns (k: nat)
    requires i < |entries| && forall e :: e in sorted <==> e in entries
    ensures k < |sorted| && sorted[k] == entries[i]
  {
    assert entries[i] in sorted;
    k :| 0 <= k < |sorted| && sorted[k] == entries[i];
  }

  /** Main result for prefixes: the entry that is used begins the value, and no longer one does. */
  lemma LookUpIsLongest(value: string, i: nat)
    requires Begins(value, i)
    ensures Dictionary.LookUp(value).Some?
    ensures |Dictionary.PrefixAt(i).prefix| <= |Dictionary.LookUp(value).value.prefix|
  {
    var entries := seq(16, k requires 0 <= k < 16 => Dictionary.PrefixAt(k));
    var leq := (a: Dictionary.PrefixEntry, b: Dictionary.PrefixEntry) => Dictionary.LongerFirst(a, b);
    var sorted := Sort(leq, entries);
    SortPermutes(leq, entries);
    assert TotalPreorder(leq);
    SortSorts(leq, entries);
    var k := InSorted(i, entries, sorted);
    FirstMatchIsFirst(sorted, value, k);
    var j :| 0 <= j <= k && sorted[j] == Dictionary.FirstMatch(sorted, value).value;
    if j < k { assert leq(sorted[j], sorted[k]); }
  }

  lemma LookUpIsAnEntry(value: string) returns (i: nat)
    requires Dictionary.LookUp(value).Some?
    ensures Begins(value, i) && Dictionary.PrefixAt(i) == Dictionary.LookUp(value).value
  {
    var entries := seq(16, k requires 0 <= k < 16 => Dictionary.PrefixAt(k));
    var leq := (a: Dictionary.PrefixEntry, b: Dictionary.PrefixEntry) => Dictionary.LongerFirst(a, b);
    SortPermutes(leq, entries);
    var e := Dictionary.LookUp(value).value;
    assert e in entries;
    i :| 0 <= i < 16 && entries[i] == e;
  }

  // ---------------------------------------------------------------- the forms

  lemma InheritedIsPlain(s: string)
    requires Dictionary.IsInherited(s)
    ensures |s| > 4 && s[0] !in {'/', 'z'} && s[1] !in {':', 't'} && !HasMarker(s)
  {}

  /** Some entry of the dictionary begins the text and is longer than its code. */
  ghost predicate UsesPrefix(s: string) { exists i :: Begins(s, i) && |Dictionary.PrefixAt(i).prefix| > 4 }

  lemma PrefixedIsNotKnown(s: string)
    requires UsesPrefix(s)
    ensures Dictionary.ExactCode(s).None? && !Dictionary.IsInherited(s) && !HasMarker(s)
  {
    var i :| Begins(s, i) && |Dictionary.PrefixAt(i).prefix| > 4;
    var e := Dictionary.PrefixAt(i);
    assert Dictionary.PrefixOf(e.code) == Some(e.prefix);
    UrlPrefixIsPlain(e.code);
    assert e.prefix[0] == s[0] && e.prefix[1] == s[1];
    if Dictionary.ExactCode(s).Some? { KnownIsPlain(s); }
    if Dictionary.IsInherited(s) { InheritedIsPlain(s); }
  }

  lemma NotUsedIsShort(s: string)
    requires !UsesPrefix(s) && Dictionary.LookUp(s).Some?
    ensures |Dictionary.LookUp(s).value.prefix| <= 4
  {
    var i := LookUpIsAnEntry(s);
  }

  /** A URL is stored as the code of the longest prefix that begins it, and its rest as it is. */
  lemma PrefixedForm(s: string) returns (i: nat)
    requires UsesPrefix(s)
    ensures Begins(s, i)
    ensures forall j :: Begins(s, j) ==> |Dictionary.PrefixAt(j).prefix| <= |Dictionary.PrefixAt(i).prefix|
    ensures var e := Dictionary.PrefixAt(i);
      Encode(Text(s)) == Encoded(['d', ':', '@', e.code] + s[|e.prefix|..], DictionaryEncoding)
  {
    var k :| Begins(s, k) && |Dictionary.PrefixAt(k).prefix| > 4;
    LookUpIsLongest(s, k);
    PrefixedIsNotKnown(s);
    i := LookUpIsAnEntry(s);
    forall j | Begins(s, j) ensures |Dictionary.PrefixAt(j).prefix| <= |Dictionary.PrefixAt(i).prefix| {
      LookUpIsLongest(s, j);
    }
  }

  /** A text that is not marked, not inherited and not in the dictionary. */
  ghost predicate IsOther(s: string) {
    !HasMarker(s) && !Dictionary.IsInherited(s) && Dictionary.ExactCode(s).None? && !UsesPrefix(s)
  }

  lemma OtherIsNotShortened(s: string)
    requires IsOther(s)
    ensures Dictionary.Encode(s).None? || Dictionary.Encode(s).value.1 <= 0
  {
    if s != "" && Dictionary.LookUp(s).Some? { NotUsedIsShort(s); }
  }

  lemma OtherForm(s: string)
    requires !HasMarker(s) && s != "__proto__"
    requires Dictionary.Encode(s).None? || Dictionary.Encode(s).value.1 <= 0
    ensures IsCommon(s) ==> Encode(Text(s)).Encoded? && Encode(Text(s)).encoded == s
    ensures !IsCommon(s) ==> Encode(Text(s)) == ByKind(s, Classify(s).kind)
  {}

  // ---------------------------------------------------------------- what is stored is printable

  lemma StatesAreAscii(s: string)
    requires s in COMMON_STATES
    ensures IsAsciiOnly(s)
  {}

  lemma HttpAreAscii(s: string)
    requires s in COMMON_HTTP
    ensures IsAsciiOnly(s)
  {}

  lemma PaymentsAreAscii(s: string)
    requires s in COMMON_PAYMENTS
    ensures IsAsciiOnly(s)
  {}

  lemma ShippingAreAscii(s: string)
    requires s in COMMON_SHIPPING
    ensures IsAsciiOnly(s)
  {}

  lemma RolesAreAscii(s: string)
    requires s in COMMON_ROLES
    ensures IsAsciiOnly(s)
  {}

  lemma OperationsAreAscii(s: string)
    requires s in COMMON_OPERATIONS
    ensures IsAsciiOnly(s)
  {}

  lemma FlagsAreAscii(s: string)
    requires s in COMMON_FLAGS
    ensures IsAsciiOnly(s)
  {}

  lemma CommonIsAscii(s: string)
    requires IsCommon(s)
    ensures IsAsciiOnly(s)
  {
    var t :| 0 <= t < 7 && s in CommonTable(t);
    if t == 0 { StatesAreAscii(s); }
    else if t == 1 { HttpAreAscii(s); }
    else if t == 2 { PaymentsAreAscii(s); }
    else if t == 3 { ShippingAreAscii(s); }
    else if t == 4 { RolesAreAscii(s); }
    else if t == 5 { OperationsAreAscii(s); }
    else { FlagsAreAscii(s); }
  }

  lemma FirstInheritedAreAscii(k: nat)
    requires k < 3
    ensures IsAsciiOnly(Dictionary.InheritedAt(k))
  {}

  lemma NextInheritedAreAscii(k: nat)
    requires 3 <= k < 7
    ensures IsAsciiOnly(Dictionary.InheritedAt(k))
  {}

  lemma LastInheritedAreAscii(k: nat)
    requires 7 <= k < 11
    ensures IsAsciiOnly(Dictionary.InheritedAt(k))
  {}

  lemma InheritedIsAscii(s: string)
    requires Dictionary.IsInheritedFunction(s)
    ensures IsAsciiOnly(s)
  {
    var k :| 0 <= k < 11 && s == Dictionary.InheritedAt(k);
    if k < 3 { FirstInheritedAreAscii(k); }
    else if k < 7 { NextInheritedAreAscii(k); }
    else { LastInheritedAreAscii(k); }
  }

  lemma WrappedIsAscii(name: string)
    requires IsAsciiOnly(name)
    ensures IsAsciiOnly("d:" + ("function " + name + "() { [native code] }"))
  {
    AsciiConcat("function ", name);
    AsciiConcat("function " + name, "() { [native code] }");
    AsciiConcat("d:", "function " + name + "() { [native code] }");
  }

  lemma FunctionTextIsAscii(s: string)
    requires Dictionary.IsInheritedFunction(s)
    ensures IsAsciiOnly("d:" + Dictionary.FunctionText(s))
  {
    InheritedIsAscii(s);
    WrappedIsAscii(if s == "constructor" then "Object" else s);
  }

  lemma KnownForm(s: string)
    requires Dictionary.ExactCode(s).Some? && !Dictionary.IsInherited(s)
    ensures Encode(Text(s)) == Encoded(['d', ':', Dictionary.ExactCode(s).value], DictionaryEncoding)
    ensures IsAsciiOnly(Encode(Text(s)).encoded)
  {
    KnownIsPlain(s);
    CodeIsLetter(Dictionary.ExactCode(s).value);
  }

  /** Each status and each content type of the dictionary is stored as its code. */
  lemma DictionaryForm(code: char, value: string)
    requires Dictionary.StatusOf(code) == Some(value) || Dictionary.ContentTypeOf(code) == Some(value)
    ensures Encode(Text(value)) == Encoded(['d', ':', code], DictionaryEncoding)
  {
    DictionaryCodes.ValuesHaveTheirCodes(code, value);
    KnownForm(value);
  }

  lemma {:induction false} AsciiByCounts(s: string)
    ensures IsAsciiOnly(s) <==> Counts(s).latin1 == 0 && Counts(s).multibyte == 0
  {
    if s != "" {
      var n := |s| - 1;
      AsciiByCounts(s[..n]);
      AsciiConcat(s[..n], [s[n]]);
      assert s == s[..n] + [s[n]];
    }
  }

  lemma ByKindIsAscii(s: string)
    ensures IsAsciiOnly(ByKind(s, Classify(s).kind).encoded)
  {
    AsciiByCounts(s);
    Base64IsAscii(s);
    PercentIsAscii(s);
    AsciiConcat("u:", PercentEncoding.Encode(s));
  }

  lemma OnlyTheRestMatters(s: string, i: nat, stored: string)
    requires Begins(s, i)
    requires var e := Dictionary.PrefixAt(i); stored == ['d', ':', '@', e.code] + s[|e.prefix|..]
    ensures IsAsciiOnly(stored) <==> IsAsciiOnly(s)
  {
    var e := Dictionary.PrefixAt(i);
    var rest := s[|e.prefix|..];
    UrlPrefixIsPlain(e.code);
    CodeIsLetter(e.code);
    AsciiConcat(e.prefix, rest);
    AsciiConcat(['d', ':', '@', e.code], rest);
    assert s == e.prefix + rest;
  }

  lemma PrefixedIsAsciiIff(s: string)
    requires UsesPrefix(s)
    ensures Encode(Text(s)).Encoded? && (IsAsciiOnly(Encode(Text(s)).encoded) <==> IsAsciiOnly(s))
  {
    var i := PrefixedForm(s);
    OnlyTheRestMatters(s, i, Encode(Text(s)).encoded);
  }

  lemma InheritedTextIsAscii(s: string)
    requires Dictionary.IsInheritedFunction(s)
    ensures Encode(Text(s)).Encoded? && IsAsciiOnly(s) && IsAsciiOnly(Encode(Text(s)).encoded)
  {
    InheritedIsPlain(s);
    InheritedIsAscii(s);
    FunctionTextIsAscii(s);
  }

  lemma OtherIsAscii(s: string)
    requires IsOther(s)
    ensures Encode(Text(s)).Encoded? && IsAsciiOnly(Encode(Text(s)).encoded)
  {
    OtherIsNotShortened(s);
    OtherForm(s);
    if IsCommon(s) { CommonIsAscii(s); } else { ByKindIsAscii(s); }
  }

  /** Main result: what is stored is printable ASCII, whatever the value, except that the rest of a text behind
      a URL prefix of the dictionary is copied as it is. */
  lemma EncodedIsAsciiIff(v: Value)
    requires v != Text("__proto__")
    ensures IsAsciiOnly(Encode(v).encoded) <==> !(v.Text? && UsesPrefix(v.text) && !IsAsciiOnly(v.text))
  {
    if v.Text? {
      var s := v.text;
      if UsesPrefix(s) {
        PrefixedIsAsciiIff(s);
      } else if HasMarker(s) {
        Base64IsAscii(s);
      } else if Dictionary.IsInherited(s) {
        InheritedTextIsAscii(s);
      } else if Dictionary.ExactCode(s).Some? {
        KnownForm(s);
      } else {
        OtherIsAscii(s);
      }
    }
  }

  /** For example behind "https://". */
  lemma RestOfUrlIsCopied(rest: string)
    requires !IsAsciiOnly(rest)
    ensures Encode(Text("https://" + rest)).Encoded? && !IsAsciiOnly(Encode(Text("https://" + rest)).encoded)
  {
    var s := "https://" + rest;
    assert Dictionary.PrefixAt(7).prefix == "https://" && Begins(s, 7);
    AsciiConcat("https://", rest);
    PrefixedIsAsciiIff(s);
  }

  // ---------------------------------------------------------------- the choice by counts

  /** A UTF-16 code unit that is a control or beyond Latin-1. */
  predicate IsWide(u: int) { u < 0x20 || u == 0x7F || u > 0xFF }

  predicate IsLatin(u: int) { 0x80 <= u <= 0xFF }

  function Positions(units: seq<int>, p: int -> bool): set<int> { set i | 0 <= i < |units| && p(units[i]) }

  lemma PositionsAppend(units: seq<int>, u: int, p: int -> bool)
    ensures |Positions(units + [u], p)| == |Positions(units, p)| + if p(u) then 1 else 0
  {
    var here := if p(u) then {|units|} else {};
    assert Positions(units + [u], p) == Positions(units, p) + here;
  }

  lemma {:induction false} UnitsOfAppend(s: string, c: char)
    ensures KeyOrder.UnitsOf(s + [c]) == KeyOrder.UnitsOf(s) + KeyOrder.Units(c)
  {
    if s == "" {
      assert (s + [c])[1..] == "";
    } else {
      UnitsOfAppend(s[1..], c);
      assert (s + [c])[1..] == s[1..] + [c];
    }
  }

  lemma UnitsOfChar(units: seq<int>, c: char, p: int -> bool)
    ensures var u := KeyOrder.Units(c);
      |Positions(units + u, p)| ==
      |Positions(units, p)| + (if p(u[0]) then 1 else 0) + if |u| == 2 && p(u[1]) then 1 else 0
  {
    var u := KeyOrder.Units(c);
    PositionsAppend(units, u[0], p);
    if |u| == 2 {
      PositionsAppend(units + [u[0]], u[1], p);
      assert units + u == units + [u[0]] + [u[1]];
    } else {
      assert units + u == units + [u[0]];
    }
  }

  lemma StatsOfUnits(c: char)
    ensures var u, st := KeyOrder.Units(c), CharStats(c);
      && Length(st) == |u|
      && st.multibyte == (if IsWide(u[0]) then 1 else 0) + (if |u| == 2 && IsWide(u[1]) then 1 else 0)
      && st.latin1 == (if IsLatin(u[0]) then 1 else 0) + (if |u| == 2 && IsLatin(u[1]) then 1 else 0)
  {}

  ghost predicate Counted(units: seq<int>, st: Stats) {
    && Length(st) == |units|
    && st.multibyte == |Positions(units, IsWide)| && st.latin1 == |Positions(units, IsLatin)|
  }

  lemma CountedNext(units: seq<int>, st: Stats, c: char)
    requires Counted(units, st)
    ensures Counted(units + KeyOrder.Units(c), Plus(st, CharStats(c)))
  {
    UnitsOfChar(units, c, IsWide);
    UnitsOfChar(units, c, IsLatin);
    StatsOfUnits(c);
  }

  lemma {:induction false} CountsAreUnits(s: string)
    ensures Counted(KeyOrder.UnitsOf(s), Counts(s))
  {
    if s == "" {
      assert Positions([], IsWide) == {} && Positions([], IsLatin) == {};
    } else {
      var before, c := s[..|s| - 1], s[|s| - 1];
      assert before + [c] == s;
      CountsAreUnits(before);
      UnitsOfAppend(before, c);
      CountedNext(KeyOrder.UnitsOf(before), Counts(before), c);
    }
  }

  lemma ProtoIsAscii()
    ensures IsAsciiOnly("__proto__")
  {}

  lemma NotAsciiIsOther(s: string)
    requires !IsAsciiOnly(s) && !HasMarker(s) && !UsesPrefix(s)
    ensures IsOther(s) && !IsCommon(s)
  {
    ProtoIsAscii();
    if Dictionary.IsInheritedFunction(s) { InheritedIsAscii(s); }
    if Dictionary.ExactCode(s).Some? { KnownIsPlain(s); }
    if IsCommon(s) { CommonIsAscii(s); }
  }

  lemma KindByCounts(s: string)
    requires !IsAsciiOnly(s)
    ensures var st := Counts(s);
      Classify(s).kind ==
      if (if st.multibyte > 0 then 10 * st.multibyte > 3 * Length(st) else 2 * st.latin1 > Length(st))
      then Base64Kind else Url
  {
    AsciiByCounts(s);
  }

  /** More than 30 percent of the code units are wide or, if none is, more than 50 percent are Latin-1. */
  ghost predicate IsFarFromAscii(s: string) {
    var units := KeyOrder.UnitsOf(s);
    var wide, latin := |Positions(units, IsWide)|, |Positions(units, IsLatin)|;
    if wide > 0 then 10 * wide > 3 * |units| else 2 * latin > |units|
  }

  lemma KindByUnits(s: string)
    requires !IsAsciiOnly(s)
    ensures Classify(s).kind == if IsFarFromAscii(s) then Base64Kind else Url
  {
    KindByCounts(s);
    CountsAreUnits(s);
  }

  lemma NotAsciiIsByKind(s: string)
    requires !IsAsciiOnly(s) && !HasMarker(s) && !UsesPrefix(s)
    ensures Encode(Text(s)) == ByKind(s, Classify(s).kind)
  {
    NotAsciiIsOther(s);
    OtherIsNotShortened(s);
    OtherForm(s);
  }

  lemma FormOfKind(s: string, far: bool)
    ensures ByKind(s, if far then Base64Kind else Url) ==
            if far then Encoded("b:" + Base64.Encode(Utf8.Encode(s)), Base64Encoding)
            else Encoded("u:" + PercentEncoding.Encode(s), UrlEncoding)
  {}

  /** Main result: any other text that is not ASCII is stored in base64 when it is far from ASCII, and
      percent-encoded otherwise. */
  lemma FormOfOtherText(s: string)
    requires !IsAsciiOnly(s) && !HasMarker(s) && !UsesPrefix(s)
    ensures Encode(Text(s)) == if IsFarFromAscii(s) then Encoded("b:" + Base64.Encode(Utf8.Encode(s)), Base64Encoding)
                               else Encoded("u:" + PercentEncoding.Encode(s), UrlEncoding)
  {
    NotAsciiIsByKind(s);
    KindByUnits(s);
    FormOfKind(s, IsFarFromAscii(s));
  }
}
