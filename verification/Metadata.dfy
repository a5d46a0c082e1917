/** Self-describing metadata values (metadata-encoding.ts). */
module MetadataEncoding {
  import opened Wrappers
  import Utf8
  import Base64
  import PercentEncoding
  import Dictionary
  import TextCompression

  // ---------------------------------------------------------------- analysis

  datatype Kind = Empty | Ascii | Url | Base64Kind

  datatype Stats = Stats(ascii: nat, latin1: nat, multibyte: nat)

  datatype Analysis = Analysis(kind: Kind, safe: bool, stats: Stats)

  /** Counts per UTF-16 code unit; a scalar above U+FFFF is two surrogate units. */
  function CharStats(c: char): Stats {
    var code := c as int;
    if 0x20 <= code <= 0x7E then Stats(1, 0, 0)
    else if code < 0x20 || code == 0x7F then Stats(0, 0, 1)
    else if code <= 0xFF then Stats(0, 1, 0)
    else if code <= 0xFFFF then Stats(0, 0, 1)
    else Stats(0, 0, 2)
  }

  function Plus(a: Stats, b: Stats): Stats {
    Stats(a.ascii + b.ascii, a.latin1 + b.latin1, a.multibyte + b.multibyte)
  }

  function Counts(s: string): Stats {
    if s == "" then Stats(0, 0, 0) else Plus(Counts(s[..|s| - 1]), CharStats(s[|s| - 1]))
  }

  function Length(st: Stats): nat { st.ascii + st.latin1 + st.multibyte }

  /** The uncached classification: more than 30% multibyte or more than 50% Latin-1 goes to base64. */
  function Classify(s: string): Analysis {
    var st := Counts(s);
    if s == "" then Analysis(Empty, true, st)
    else if st.latin1 == 0 && st.multibyte == 0 then Analysis(Ascii, true, st)
    else if st.multibyte > 0 then Analysis(if 10 * st.multibyte > 3 * Length(st) then Base64Kind else Url, false, st)
    else Analysis(if 2 * st.latin1 > Length(st) then Base64Kind else Url, false, st)
  }

  predicate IsAsciiOnly(s: string) {
    forall i :: 0 <= i < |s| ==> 0x20 <= s[i] as int <= 0x7E
  }

  lemma {:induction false} AsciiCounts(s: string)
    requires IsAsciiOnly(s)
    ensures Counts(s) == Stats(|s|, 0, 0)
  {
    if s != "" { AsciiCounts(s[..|s| - 1]); }
  }

  datatype CacheEntry = CacheEntry(text: string, analysis: Analysis)

  const MAX_CACHE_SIZE: nat := 500

  /** The module-level analysis cache: an insertion-ordered map with first-in first-out eviction. */
  class Analyzer {
    var cache: seq<CacheEntry>

    /** At most 500 entries, all of them correct, no text twice. */
    ghost predicate Valid()
      reads this
    {
      && |cache| <= MAX_CACHE_SIZE
      && (forall i :: 0 <= i < |cache| ==> cache[i].text != "" && cache[i].analysis == Classify(cache[i].text))
      && (forall i, j :: 0 <= i < j < |cache| ==> cache[i].text != cache[j].text)
    }

    constructor ()
      ensures Valid() && cache == []
    {
      cache := [];
    }

    method Lookup(text: string) returns (analysis: Option<Analysis>)
      requires Valid()
      ensures analysis.Some? ==> analysis.value == Classify(text) && text != ""
      ensures analysis.None? <==> forall i :: 0 <= i < |cache| ==> cache[i].text != text
    {
      for i := 0 to |cache|
        invariant forall j :: 0 <= j < i ==> cache[j].text != text
      {
        if cache[i].text == text { return Some(cache[i].analysis); }
      }
      analysis := None;
    }

    method Remember(text: string, analysis: Analysis)
      requires Valid() && text != "" && analysis == Classify(text)
      requires forall i :: 0 <= i < |cache| ==> cache[i].text != text
      modifies this
      ensures Valid()
      ensures cache ==
          (if |old(cache)| >= MAX_CACHE_SIZE then old(cache)[1..] else old(cache)) + [CacheEntry(text, analysis)]
    {
      if |cache| >= MAX_CACHE_SIZE {
        cache := cache[1..];
      }
      cache := cache + [CacheEntry(text, analysis)];
    }

    /** analyzeString: whatever the cache holds, the answer is the uncached classification. */
    method Analyze(str: string) returns (analysis: Analysis)
      requires Valid()
      modifies this
      ensures Valid() && analysis == Classify(str)
    {
      if str == "" { return Analysis(Empty, true, Stats(0, 0, 0)); }
      var cached := Lookup(str);
      if cached.Some? { return cached.value; }
      if IsAsciiOnly(str) {
        AsciiCounts(str);
        analysis := Analysis(Ascii, true, Stats(|str|, 0, 0));
      } else {
        analysis := Count(str);
      }
      Remember(str, analysis);
    }

    static method Count(str: string) returns (analysis: Analysis)
      requires str != ""
      ensures analysis == Classify(str)
    {
      var ascii, latin1, multibyte := 0, 0, 0;
      for i := 0 to |str|
        invariant Counts(str[..i]) == Stats(ascii, latin1, multibyte)
      {
        assert str[..i + 1][..i] == str[..i];
        var code := str[i] as int;
        if 0x20 <= code <= 0x7E { ascii := ascii + 1; }
        else if code < 0x20 || code == 0x7F { multibyte := multibyte + 1; }
        else if code <= 0xFF { latin1 := latin1 + 1; }
        else { multibyte := multibyte + (if code <= 0xFFFF then 1 else 2); }
      }
      assert str[..|str|] == str;
      var stats, length := Stats(ascii, latin1, multibyte), ascii + latin1 + multibyte;
      if latin1 == 0 && multibyte == 0 {
        analysis := Analysis(Ascii, true, stats);
      } else if multibyte > 0 {
        analysis := Analysis(if 10 * multibyte > 3 * length then Base64Kind else Url, false, stats);
      } else {
        analysis := Analysis(if 2 * latin1 > length then Base64Kind else Url, false, stats);
      }
    }
  }

  // ---------------------------------------------------------------- encoding

  // Values that are stored as they are without an analysis.

  const COMMON_STATES: set<string> := {
    "active", "inactive", "pending", "completed", "failed", "success", "error", "processing", "queued", "cancelled",
    "enabled", "disabled", "archived", "draft", "published", "scheduled", "expired", "locked"
  }

  const COMMON_HTTP: set<string> := {
    "GET", "POST", "PUT", "DELETE", "PATCH", "HEAD", "OPTIONS", "200", "201", "204", "301", "302", "304", "400", "401",
    "403", "404", "405", "409", "422", "429", "500", "502", "503", "504", "OK", "Created"
  }

  const COMMON_PAYMENTS: set<string> := {
    "paid", "unpaid", "refunded", "pending_payment", "authorized", "captured", "declined", "voided", "chargeback",
    "disputed", "settled", "reversed"
  }

  const COMMON_SHIPPING: set<string> := {
    "shipped", "delivered", "returned", "in_transit", "out_for_delivery", "ready_to_ship", "backordered", "pre_order",
    "on_hold", "awaiting_pickup"
  }

  const COMMON_ROLES: set<string> := {
    "admin", "moderator", "owner", "editor", "viewer", "contributor", "guest", "member", "low", "medium", "high",
    "urgent", "critical"
  }

  const COMMON_OPERATIONS: set<string> := {
    "trace", "debug", "info", "warn", "fatal", "emergency", "dev", "development", "staging", "production", "test",
    "qa", "uat", "create", "read", "update", "delete", "list", "search", "count"
  }

  const COMMON_FLAGS: set<string> := {
    "true", "false", "yes", "no", "on", "off", "1", "0", "null", "undefined", "none", "N/A"
  }

  function CommonTable(t: nat): set<string> {
    if t == 0 then COMMON_STATES
    else if t == 1 then COMMON_HTTP
    else if t == 2 then COMMON_PAYMENTS
    else if t == 3 then COMMON_SHIPPING
    else if t == 4 then COMMON_ROLES
    else if t == 5 then COMMON_OPERATIONS
    else COMMON_FLAGS
  }

  predicate IsCommon(s: string) { exists t :: 0 <= t < 7 && s in CommonTable(t) }

  datatype Value = Null | Undefined | Text(text: string)

  datatype Encoding = None_ | Special | UrlEncoding | Base64Encoding | DictionaryEncoding

  /** Absent is a result without an encoded text: the object prototype, which the table of common values inherits
      under the name "__proto__". */
  datatype Encoded = Encoded(encoded: string, encoding: Encoding) | Absent

  predicate HasMarker(s: string) {
    |s| >= 2 && ((s[1] == ':' && s[0] in {'d', 'u', 'b', 'z'}) || "z85:" <= s)
  }

  function InBase64(s: string): (e: Encoded)
    ensures e.Encoded?
  {
    Encoded("b:" + Base64.Encode(Utf8.Encode(s)), Base64Encoding)
  }

  function ByKind(s: string, kind: Kind): (e: Encoded)
    ensures e.Encoded?
  {
    match kind
    case Empty => Encoded(s, None_)
    case Ascii => Encoded(s, None_)
    case Url => Encoded("u:" + PercentEncoding.Encode(s), UrlEncoding)
    case Base64Kind => InBase64(s)
  }

  function EncodeText(s: string): (e: Encoded)
    ensures e.Encoded? <==> s != "__proto__"
  {
    if HasMarker(s) then InBase64(s)
    else
      var d := Dictionary.Encode(s);
      if d.Some? && d.value.1 > 0 then Encoded(d.value.0, DictionaryEncoding)
      else if s == "__proto__" then Absent
      else if IsCommon(s) then Encoded(s, if s == "null" || s == "undefined" then Special else None_)
      else ByKind(s, Classify(s).kind)
  }

  function Encode(v: Value): (e: Encoded)
    ensures e.Encoded? <==> v != Text("__proto__")
  {
    match v
    case Null => Encoded("null", Special)
    case Undefined => Encoded("undefined", Special)
    case Text(s) => EncodeText(s)
  }

  method MetadataEncode(analyzer: Analyzer, v: Value) returns (result: Encoded)
    requires analyzer.Valid()
    modifies analyzer
    ensures analyzer.Valid() && result == Encode(v)
  {
    if v.Null? { return Encoded("null", Special); }
    if v.Undefined? { return Encoded("undefined", Special); }
    if HasMarker(v.text) { return InBase64(v.text); }
    var d := Dictionary.Encode(v.text);
    if d.Some? && d.value.1 > 0 { return Encoded(d.value.0, DictionaryEncoding); }
    if v.text == "__proto__" { return Absent; }
    if IsCommon(v.text) {
      return Encoded(v.text, if v.text == "null" || v.text == "undefined" then Special else None_);
    }
    var analysis := analyzer.Analyze(v.text);
    result := ByKind(v.text, analysis.kind);
  }

  function OrRaw(s: string, decoded: Option<string>): Value {
    Text(if decoded.Some? then decoded.value else s)
  }

  function DecodeBase64(s: string): Option<string> {
    var octets := Base64.Decode(s);
    if octets.None? then None else Utf8.Decode(octets.value)
  }

  function Decode(z: TextCompression.Zlib, s: string): Value {
    if s == "null" then Null
    else if s == "undefined" then Undefined
    else if "d:" <= s && Dictionary.Decode(s).Some? then Text(Dictionary.Decode(s).value)
    else if "z85:" <= s then (if |s| <= 4 then Text(s) else OrRaw(s, TextCompression.DecompressText(z, s)))
    else if "z:" <= s then (if |s| <= 2 then Text(s) else OrRaw(s, TextCompression.DecompressText(z, s)))
    else if |s| > 2 && s[1] == ':' && s[0] == 'u' then OrRaw(s, PercentEncoding.Decode(s[2..]))
    else if |s| > 2 && s[1] == ':' && s[0] == 'b' then OrRaw(s, DecodeBase64(s[2..]))
    else Text(s)
  }

  // ---------------------------------------------------------------- the forms are unambiguous

  /** An unmarked text is read as it stands. */
  lemma RawRoundTrip(z: TextCompression.Zlib, s: string)
    requires !HasMarker(s)
    ensures Decode(z, s) == if s == "null" then Null else if s == "undefined" then Undefined else Text(s)
  {}

  lemma Base64Form(z: TextCompression.Zlib, payload: string)
    requires payload != ""
    ensures Decode(z, "b:" + payload) == OrRaw("b:" + payload, DecodeBase64(payload))
  {
    var s := "b:" + payload;
    assert s[2..] == payload && s[0] == 'b' && s[1] == ':';
  }

  lemma Base64RoundTrip(z: TextCompression.Zlib, s: string)
    requires s != ""
    ensures Decode(z, InBase64(s).encoded) == Text(s)
  {
    var octets := Utf8.Encode(s);
    Utf8.RoundTrip(s);
    Base64.RoundTrip(octets);
    Base64.EncodeNotEmpty(octets);
    Base64Form(z, Base64.Encode(octets));
  }

  lemma UrlRoundTrip(z: TextCompression.Zlib, s: string)
    requires s != ""
    ensures Decode(z, "u:" + PercentEncoding.Encode(s)) == Text(s)
  {
    var payload := PercentEncoding.Encode(s);
    PercentEncoding.RoundTrip(s);
    assert payload != "";
    assert ("u:" + payload)[2..] == payload && ("u:" + payload)[0] == 'u' && ("u:" + payload)[1] == ':';
  }

  lemma DictionaryRoundTrip(z: TextCompression.Zlib, s: string)
    requires Dictionary.Encode(s).Some? && !Dictionary.IsInherited(s)
    ensures Decode(z, Dictionary.Encode(s).value.0) == Text(if s == "font/woff2" then "failed" else s)
  {
    Dictionary.RoundTrip(s);
    var e := Dictionary.Encode(s).value.0;
    assert e[0] == 'd' && e[1] == ':' && "d:" <= e;
  }

  lemma FontIsInDictionary()
    ensures Dictionary.Encode("font/woff2").Some? && Dictionary.Encode("font/woff2").value.1 > 0
  {
    assert Dictionary.ContentTypeCode("font/woff2").Some?;
  }

  lemma MarkedTextRoundTrip(z: TextCompression.Zlib, s: string)
    requires HasMarker(s)
    ensures Decode(z, EncodeText(s).encoded) == Text(s)
  {
    Base64RoundTrip(z, s);
  }

  lemma DictionaryTextRoundTrip(z: TextCompression.Zlib, s: string)
    requires !HasMarker(s) && !Dictionary.IsInherited(s)
    requires Dictionary.Encode(s).Some? && Dictionary.Encode(s).value.1 > 0
    ensures Decode(z, EncodeText(s).encoded) == Text(if s == "font/woff2" then "failed" else s)
  {
    DictionaryRoundTrip(z, s);
  }

  lemma ByKindRoundTrip(z: TextCompression.Zlib, s: string, kind: Kind)
    requires !HasMarker(s) && s != "null" && s != "undefined" && (s == "" ==> kind == Empty)
    ensures Decode(z, ByKind(s, kind).encoded) == Text(s)
  {
    if kind.Url? {
      UrlRoundTrip(z, s);
    } else if kind.Base64Kind? {
      Base64RoundTrip(z, s);
    } else {
      RawRoundTrip(z, s);
    }
  }

  lemma OtherTextRoundTrip(z: TextCompression.Zlib, s: string)
    requires !HasMarker(s) && !Dictionary.IsInherited(s) && s != "null" && s != "undefined"
    requires !(Dictionary.Encode(s).Some? && Dictionary.Encode(s).value.1 > 0)
    ensures Decode(z, EncodeText(s).encoded) == Text(s)
  {
    RawRoundTrip(z, s);
    ByKindRoundTrip(z, s, Classify(s).kind);
  }

  lemma OrdinaryTextRoundTrip(z: TextCompression.Zlib, s: string)
    requires s != "null" && s != "undefined" && s != "font/woff2" && !Dictionary.IsInherited(s)
    ensures Decode(z, EncodeText(s).encoded) == Text(s)
  {
    if HasMarker(s) {
      MarkedTextRoundTrip(z, s);
    } else if Dictionary.Encode(s).Some? && Dictionary.Encode(s).value.1 > 0 {
      DictionaryTextRoundTrip(z, s);
    } else {
      OtherTextRoundTrip(z, s);
    }
  }

  lemma CommonForm(s: string)
    requires !HasMarker(s) && s != "__proto__" && Dictionary.Encode(s).None? && IsCommon(s)
    ensures EncodeText(s) == Encoded(s, if s == "null" || s == "undefined" then Special else None_)
  {}

  lemma SpecialText(s: string)
    requires s == "null" || s == "undefined"
    ensures EncodeText(s) == Encoded(s, Special)
  {
    assert s[0] in {'n', 'u'} && s[1] != ':' && |s| > 3;
    Dictionary.OtherLettersAreNotEncoded(s);
    assert s in CommonTable(6);
    CommonForm(s);
  }

  /** Its code is shared with the status "failed". */
  lemma FontBecomesFailed(z: TextCompression.Zlib)
    ensures Decode(z, EncodeText("font/woff2").encoded) == Text("failed")
  {
    FontIsInDictionary();
    DictionaryTextRoundTrip(z, "font/woff2");
  }

  /** The name of an inherited function is stored as the text of the function, which is not decoded. */
  lemma InheritedNameIsLost(z: TextCompression.Zlib, s: string)
    requires Dictionary.IsInheritedFunction(s)
    ensures EncodeText(s) == Encoded("d:" + Dictionary.FunctionText(s), DictionaryEncoding)
    ensures Decode(z, EncodeText(s).encoded) == Text("d:" + Dictionary.FunctionText(s))
    ensures Decode(z, EncodeText(s).encoded) != Text(s)
  {
    Dictionary.InheritedIsNotDecoded(s);
    var e := "d:" + Dictionary.FunctionText(s);
    assert e[0] == 'd' && e[1] == ':';
    assert s[1] != ':' && s[0] != 'z';
  }

  /** The texts that do not survive: three clashes, and the names that every JavaScript object inherits. */
  predicate IsLost(s: string) { s in {"null", "undefined", "font/woff2"} || Dictionary.IsInherited(s) }

  /** Main result: decoding undoes encoding for every text but exactly these. */
  lemma RoundTrip(z: TextCompression.Zlib, s: string)
    ensures Encode(Text(s)).Encoded? && Decode(z, Encode(Text(s)).encoded) == Text(s) <==> !IsLost(s)
  {
    if s == "null" || s == "undefined" {
      SpecialText(s);
      RawRoundTrip(z, s);
    } else if s == "font/woff2" {
      FontBecomesFailed(z);
    } else if Dictionary.IsInheritedFunction(s) {
      InheritedNameIsLost(z, s);
    } else if s != "__proto__" {
      OrdinaryTextRoundTrip(z, s);
    }
  }

  lemma NullAndUndefinedRoundTrip(z: TextCompression.Zlib)
    ensures Decode(z, Encode(Null).encoded) == Null && Decode(z, Encode(Undefined).encoded) == Undefined
  {}
}
