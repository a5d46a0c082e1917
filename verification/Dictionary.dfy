/** Dictionary codes for common metadata values (dictionary-encoding.ts). */
module Dictionary {
  import opened Wrappers
  import opened Sorting

  function ContentTypeOf(code: char): (value: Option<string>)
    ensures value.Some? ==> value.value != "" && value.value[0] !in {'n', 'u'}
  {
    if code == 'j' then Some("application/json")
    else if code == 'X' then Some("application/xml")
    else if code == 'J' then Some("application/ld+json")
    else if code == 'H' then Some("text/html")
    else if code == 'T' then Some("text/plain")
    else if code == 'C' then Some("text/css")
    else if code == 'V' then Some("text/javascript")
    else if code == 'v' then Some("text/csv")
    else if code == 'P' then Some("image/png")
    else if code == 'I' then Some("image/jpeg")
    else if code == 'G' then Some("image/gif")
    else if code == 'S' then Some("image/svg+xml")
    else if code == 'W' then Some("image/webp")
    else if code == 'Q' then Some("application/pdf")
    else if code == 'z' then Some("application/zip")
    else if code == 'o' then Some("application/octet-stream")
    else if code == 'u' then Some("application/x-www-form-urlencoded")
    else if code == 'F' then Some("multipart/form-data")
    else if code == 'w' then Some("font/woff")
    else if code == 'f' then Some("font/woff2")
    else None
  }

  function ContentTypeCode(value: string): (code: Option<char>)
    ensures code.Some? ==> ContentTypeOf(code.value) == Some(value)
    ensures code == Some('f') <==> value == "font/woff2"
  {
    var code := TextTypeCode(value);
    if code.Some? then code else BinaryTypeCode(value)
  }

  /** The entries up to the images. */
  function TextTypeCode(value: string): (code: Option<char>)
    ensures code.Some? ==> ContentTypeOf(code.value) == Some(value) && code != Some('f') && value != "font/woff2"
  {
    if value == "application/json" then Some('j')
    else if value == "application/xml" then Some('X')
    else if value == "application/ld+json" then Some('J')
    else if value == "text/html" then Some('H')
    else if value == "text/plain" then Some('T')
    else if value == "text/css" then Some('C')
    else if value == "text/javascript" then Some('V')
    else if value == "text/csv" then Some('v')
    else None
  }

  function BinaryTypeCode(value: string): (code: Option<char>)
    ensures code.Some? ==> ContentTypeOf(code.value) == Some(value)
    ensures code == Some('f') <==> value == "font/woff2"
  {
    if value == "image/png" then Some('P')
    else if value == "image/jpeg" then Some('I')
    else if value == "image/gif" then Some('G')
    else if value == "image/svg+xml" then Some('S')
    else if value == "image/webp" then Some('W')
    else if value == "application/pdf" then Some('Q')
    else if value == "application/zip" then Some('z')
    else if value == "application/octet-stream" then Some('o')
    else if value == "application/x-www-form-urlencoded" then Some('u')
    else if value == "multipart/form-data" then Some('F')
    else if value == "font/woff" then Some('w')
    else if value == "font/woff2" then Some('f')
    else None
  }

  function StatusOf(code: char): (value: Option<string>)
    ensures value.Some? ==> value.value != "" && value.value[0] !in {'n', 'u'}
  {
    if code == 'p' then Some("processing")
    else if code == 'c' then Some("completed")
    else if code == 's' then Some("succeeded")
    else if code == 'f' then Some("failed")
    else if code == 'x' then Some("cancelled")
    else if code == 't' then Some("timeout")
    else if code == 'r' then Some("retrying")
    else if code == 'a' then Some("authorized")
    else if code == 'K' then Some("captured")
    else if code == 'R' then Some("refunded")
    else if code == 'd' then Some("declined")
    else if code == 'h' then Some("shipped")
    else if code == 'D' then Some("delivered")
    else if code == 'e' then Some("returned")
    else if code == 'i' then Some("in_transit")
    else if code == 'n' then Some("initialized")
    else if code == 'm' then Some("terminated")
    else None
  }

  function StatusCode(value: string): (code: Option<char>)
    ensures code.Some? ==> StatusOf(code.value) == Some(value) && value != "font/woff2"
  {
    if value == "processing" then Some('p')
    else if value == "completed" then Some('c')
    else if value == "succeeded" then Some('s')
    else if value == "failed" then Some('f')
    else if value == "cancelled" then Some('x')
    else if value == "timeout" then Some('t')
    else if value == "retrying" then Some('r')
    else if value == "authorized" then Some('a')
    else if value == "captured" then Some('K')
    else if value == "refunded" then Some('R')
    else if value == "declined" then Some('d')
    else if value == "shipped" then Some('h')
    else if value == "delivered" then Some('D')
    else if value == "returned" then Some('e')
    else if value == "in_transit" then Some('i')
    else if value == "initialized" then Some('n')
    else if value == "terminated" then Some('m')
    else None
  }

  /** The two dictionaries share one code. */
  lemma OnlyFClashes(code: char)
    requires ContentTypeOf(code).Some? && StatusOf(code).Some?
    ensures code == 'f'
  {}

  lemma ContentCodeReads(code: char, value: string)
    requires ContentTypeOf(code) == Some(value)
    ensures ExactValue(code) == Some(if code == 'f' then "failed" else value)
  {
    if StatusOf(code).Some? { OnlyFClashes(code); }
  }

  /** The combined dictionaries: on both sides the status entries are spread last and win. */
  function ExactCode(value: string): (code: Option<char>)
    ensures code.Some? ==> ExactValue(code.value) == Some(if value == "font/woff2" then "failed" else value)
  {
    var status := StatusCode(value);
    if status.Some? then status
    else
      var content := ContentTypeCode(value);
      if content.Some? then ContentCodeReads(content.value, value); content
      else None
  }

  function ExactValue(code: char): Option<string> {
    if StatusOf(code).Some? then StatusOf(code) else ContentTypeOf(code)
  }

  /** A URL prefix and the character after '@' in its code. */
  datatype PrefixEntry = PrefixEntry(prefix: string, code: char)

  function PrefixOf(code: char): (prefix: Option<string>)
    ensures prefix.Some? ==> prefix.value != "" && prefix.value[0] in {'/', 'h'}
  {
    if code == '1' then Some("/api/v1/")
    else if code == '2' then Some("/api/v2/")
    else if code == '3' then Some("/api/v3/")
    else if code == 'a' then Some("/api/")
    else if code == 'A' then Some("https://api.example.com/")
    else if code == 'H' then Some("https://api.")
    else if code == 'W' then Some("https://www.")
    else if code == 'h' then Some("https://")
    else if code == 't' then Some("http://")
    else if code == 's' then Some("https://s3.amazonaws.com/")
    else if code == 'S' then Some("https://s3-")
    else if code == 'L' then Some("http://localhost:")
    else if code == 'l' then Some("http://localhost")
    else if code == 'v' then Some("/v1/")
    else if code == 'u' then Some("/users/")
    else if code == 'p' then Some("/products/")
    else None
  }

  /** The entries in the order in which the source lists them. */
  function PrefixAt(i: nat): (e: PrefixEntry)
    requires i < 16
    ensures PrefixOf(e.code) == Some(e.prefix)
  {
    if i == 0 then PrefixEntry("/api/v1/", '1')
    else if i == 1 then PrefixEntry("/api/v2/", '2')
    else if i == 2 then PrefixEntry("/api/v3/", '3')
    else if i == 3 then PrefixEntry("/api/", 'a')
    else if i == 4 then PrefixEntry("https://api.example.com/", 'A')
    else if i == 5 then PrefixEntry("https://api.", 'H')
    else if i == 6 then PrefixEntry("https://www.", 'W')
    else if i == 7 then PrefixEntry("https://", 'h')
    else if i == 8 then PrefixEntry("http://", 't')
    else if i == 9 then PrefixEntry("https://s3.amazonaws.com/", 's')
    else if i == 10 then PrefixEntry("https://s3-", 'S')
    else if i == 11 then PrefixEntry("http://localhost:", 'L')
    else if i == 12 then PrefixEntry("http://localhost", 'l')
    else if i == 13 then PrefixEntry("/v1/", 'v')
    else if i == 14 then PrefixEntry("/users/", 'u')
    else PrefixEntry("/products/", 'p')
  }

  predicate LongerFirst(a: PrefixEntry, b: PrefixEntry) { |b.prefix| <= |a.prefix| }

  function FirstMatch(entries: seq<PrefixEntry>, value: string): (e: Option<PrefixEntry>)
    ensures e.Some? ==> e.value in entries && e.value.prefix <= value
  {
    if entries == [] then None
    else if entries[0].prefix <= value then Some(entries[0])
    else FirstMatch(entries[1..], value)
  }

  /** The longest URL prefix of the value. */
  function LookUp(value: string): (e: Option<PrefixEntry>)
    ensures e.Some? ==> e.value.prefix <= value && PrefixOf(e.value.code) == Some(e.value.prefix)
  {
    var entries := seq(16, i requires 0 <= i < 16 => PrefixAt(i));
    var leq := (a: PrefixEntry, b: PrefixEntry) => LongerFirst(a, b);
    SortPermutes(leq, entries);
    FirstMatch(Sort(leq, entries), value)
  }

  /** The functions that every object inherits, so that the dictionary object seems to have them as entries. */
  function InheritedAt(k: nat): (name: string)
    requires k < 11
    ensures |name| >= 7 && name[0] in {'c', 'h', 'i', 'p', 't', 'v', '_'} && name[1] in {'o', 'a', 's', 'r', '_'}
  {
    if k == 0 then "constructor"
    else if k == 1 then "hasOwnProperty"
    else if k == 2 then "isPrototypeOf"
    else if k == 3 then "propertyIsEnumerable"
    else if k == 4 then "toLocaleString"
    else if k == 5 then "toString"
    else if k == 6 then "valueOf"
    else if k == 7 then "__defineGetter__"
    else if k == 8 then "__defineSetter__"
    else if k == 9 then "__lookupGetter__"
    else "__lookupSetter__"
  }

  predicate IsInheritedFunction(value: string) { exists k :: 0 <= k < 11 && value == InheritedAt(k) }

  /** What such an entry turns into when it is appended to a text; the constructor is the function Object. */
  function FunctionText(value: string): string {
    "function " + (if value == "constructor" then "Object" else value) + "() { [native code] }"
  }

  /** The number of its parameters, which the savings are computed from. */
  function Arity(value: string): (n: nat)
    ensures n <= 2
  {
    if value == "toLocaleString" || value == "toString" || value == "valueOf" then 0
    else if value == "__defineGetter__" || value == "__defineSetter__" then 2
    else 1
  }

  /** The code with its savings in characters; None if no entry applies.  For the inherited "__proto__" the
      savings are not-a-number, written as 0. */
  function Encode(value: string): Option<(string, int)> {
    if value == "" then None
    else if IsInheritedFunction(value) then Some(("d:" + FunctionText(value), |value| - 2 - Arity(value)))
    else if value == "__proto__" then Some(("d:[object Object]", 0))
    else if ExactCode(value).Some? then Some((['d', ':', ExactCode(value).value], |value| - 3))
    else
      var entry := LookUp(value);
      if entry.None? then None
      else
        var encoded := ['d', ':', '@', entry.value.code] + value[|entry.value.prefix|..];
        Some((encoded, |value| - |encoded|))
  }

  function Decode(encoded: string): Option<string> {
    if |encoded| <= 2 || encoded[0] != 'd' || encoded[1] != ':' then None
    else if |encoded| == 3 && ExactValue(encoded[2]).Some? then ExactValue(encoded[2])
    else if encoded[2] == '@' && |encoded| >= 4 && PrefixOf(encoded[3]).Some? then
      Some(PrefixOf(encoded[3]).value + encoded[4..])
    else None
  }

  lemma OtherLettersAreNotEncoded(value: string)
    requires value != "" && value[0] in {'n', 'u'}
    ensures Encode(value).None?
  {
    assert ExactCode(value).None?;
    assert LookUp(value).None?;
  }

  lemma OtherCodeIsNotDecoded(text: string)
    requires |text| > 2 && text[0] != '@'
    ensures var e := "d:" + text; |e| > 4 && e[..2] == ['d', ':'] && e[2] != '@' && Decode(e).None?
  {}

  lemma FunctionTextStart(value: string)
    ensures |FunctionText(value)| > 2 && FunctionText(value)[0] == 'f'
  {
    var name := if value == "constructor" then "Object" else value;
    assert FunctionText(value) == "function " + (name + "() { [native code] }");
  }

  lemma InheritedIsNotDecoded(value: string)
    requires IsInherited(value)
    ensures Encode(value).Some?
    ensures var e := Encode(value).value.0; |e| > 4 && e[..2] == ['d', ':'] && e[2] != '@' && Decode(e).None?
  {
    if IsInheritedFunction(value) {
      FunctionTextStart(value);
      OtherCodeIsNotDecoded(FunctionText(value));
    } else {
      OtherCodeIsNotDecoded("[object Object]");
      assert "d:" + "[object Object]" == "d:[object Object]";
    }
  }

  predicate IsInherited(value: string) { IsInheritedFunction(value) || value == "__proto__" }

  /** Decoding gives the value back, except for the one clash, the code of "font/woff2" that is read as "failed",
      and for the inherited names, which are not decoded. */
  lemma RoundTrip(value: string)
    requires Encode(value).Some?
    ensures |Encode(value).value.0| >= 3 && Encode(value).value.0[..2] == ['d', ':']
    ensures Decode(Encode(value).value.0) ==
      if IsInherited(value) then None else Some(if value == "font/woff2" then "failed" else value)
  {
    if IsInherited(value) {
      InheritedIsNotDecoded(value);
    } else if ExactCode(value).None? {
      var e := LookUp(value).value;
      var rest := value[|e.prefix|..];
      assert (['d', ':', '@', e.code] + rest)[4..] == rest;
      assert value == e.prefix + rest;
    }
  }
}
