/** The escaped array printer and parser. */
module ArrayField {
  import opened TextLists

  /** s.replace(/\\/g, '\\\\') */
  function DoubleBackslashes(s: string): string {
    if s == "" then "" else (if s[0] == '\\' then ['\\', '\\'] else [s[0]]) + DoubleBackslashes(s[1..])
  }

  function EscapeSeparators(s: string, separator: char): string {
    if s == "" then ""
        else (if s[0] == separator then ['\\', separator] else [s[0]]) + EscapeSeparators(s[1..], separator)
  }

  function Escape(item: string, separator: char): string { EscapeSeparators(DoubleBackslashes(item), separator) }

  function EscapeAll(items: seq<string>, separator: char): (escaped: seq<string>)
    ensures |escaped| == |items|
  {
    if items == [] then [] else [Escape(items[0], separator)] + EscapeAll(items[1..], separator)
  }

  function FromArray(items: seq<string>, separator: char): string {
    if items == [] then "" else Join(EscapeAll(items, separator), [separator])
  }

  /** The parser compares single UTF-16 units; a character of two units is never equal to one. */
  predicate IsUnit(c: char) { c as int <= 0xFFFF }

  /** The items of the rest of a text, when `current` is what was read of the first one. */
  function Scan(s: string, separator: char, current: string): (items: seq<string>)
    ensures items != []
  {
    if s == "" then [current]
    else if s[0] == '\\' && |s| > 1 then Scan(s[2..], separator, current + [s[1]])
    else if s[0] == separator && IsUnit(separator) then [current] + Scan(s[1..], separator, "")
    else Scan(s[1..], separator, current + [s[0]])
  }

  function ToArray(s: string, separator: char): seq<string> {
    if s == "" then [] else Scan(s, separator, "")
  }

  method ToArrayLoop(str: string, separator: char) returns (items: seq<string>)
    ensures items == ToArray(str, separator)
  {
    items := [];
    if str == "" { return; }
    var current := "";
    var i := 0;
    assert str[0..] == str;
    while i < |str|
      invariant i <= |str|
      invariant items + Scan(str[i..], separator, current) == Scan(str, separator, "")
    {
      var rest := str[i..];
      if str[i] == '\\' && i + 1 < |str| {
        assert rest[2..] == str[i + 2..] && rest[1] == str[i + 1];
        current := current + [str[i + 1]];
        i := i + 2;
      } else if str[i] == separator && IsUnit(separator) {
        assert rest[1..] == str[i + 1..];
        assert Scan(rest, separator, current) == [current] + Scan(str[i + 1..], separator, "");
        items := items + [current];
        current := "";
        i := i + 1;
      } else {
        assert rest[1..] == str[i + 1..];
        current := current + [str[i]];
        i := i + 1;
      }
    }
    items := items + [current];
  }

  // ---------------------------------------------------------------- round trip

  function EscapeChar(c: char, separator: char): string {
    if c == '\\' || c == separator then ['\\', c] else [c]
  }

  /** The two replacement passes escape character by character. */
  lemma EscapeStep(item: string, separator: char)
    requires item != "" && separator != '\\'
    ensures Escape(item, separator) == EscapeChar(item[0], separator) + Escape(item[1..], separator)
  {
    var rest := DoubleBackslashes(item[1..]);
    var doubled := DoubleBackslashes(item);
    if item[0] == '\\' {
      assert doubled[0] == '\\' && doubled[1..] == ['\\'] + rest;
      assert (['\\'] + rest)[1..] == rest;
      assert EscapeSeparators(['\\'] + rest, separator) == ['\\'] + EscapeSeparators(rest, separator);
      assert ['\\'] + (['\\'] + EscapeSeparators(rest, separator)) == ['\\', '\\'] + EscapeSeparators(rest, separator);
    } else {
      assert doubled[0] == item[0] && doubled[1..] == rest;
    }
  }

  lemma ScanChar(c: char, separator: char, tail: string, current: string)
    requires separator != '\\'
    ensures Scan(EscapeChar(c, separator) + tail, separator, current) == Scan(tail, separator, current + [c])
  {
    var s := EscapeChar(c, separator) + tail;
    if c == '\\' || c == separator { assert s[2..] == tail; } else { assert s[1..] == tail; }
  }

  lemma ScanFirst(item: string, separator: char, tail: string, current: string)
    requires separator != '\\' && item != ""
    ensures Scan(Escape(item, separator) + tail, separator, current) ==
            Scan(Escape(item[1..], separator) + tail, separator, current + [item[0]])
  {
    EscapeStep(item, separator);
    var rest := Escape(item[1..], separator) + tail;
    assert Escape(item, separator) + tail == EscapeChar(item[0], separator) + rest;
    ScanChar(item[0], separator, rest, current);
  }

  lemma {:induction false} ScanItem(item: string, separator: char, tail: string, current: string)
    requires separator != '\\'
    ensures Scan(Escape(item, separator) + tail, separator, current) == Scan(tail, separator, current + item)
    decreases |item|
  {
    if item == "" {
      assert Escape(item, separator) + tail == tail && current + item == current;
    } else {
      ScanFirst(item, separator, tail, current);
      ScanItem(item[1..], separator, tail, current + [item[0]]);
      assert current + [item[0]] + item[1..] == current + item;
    }
  }

  lemma {:induction false} ScanJoined(items: seq<string>, separator: char)
    requires items != [] && separator != '\\' && (IsUnit(separator) || |items| == 1)
    ensures Scan(Join(EscapeAll(items, separator), [separator]), separator, "") == items
  {
    var escaped := EscapeAll(items, separator);
    if |items| == 1 {
      assert EscapeAll(items[1..], separator) == [];
      ScanItem(items[0], separator, "", "");
      assert escaped[0] + "" == escaped[0] && "" + items[0] == items[0];
    } else {
      var tail := Join(escaped[1..], [separator]);
      assert escaped[1..] == EscapeAll(items[1..], separator);
      assert |escaped| > 1;
      ScanItem(items[0], separator, [separator] + tail, "");
      assert escaped[0] + [separator] + tail == escaped[0] + ([separator] + tail);
      assert ([separator] + tail)[1..] == tail && "" + items[0] == items[0];
      ScanJoined(items[1..], separator);
      assert items == [items[0]] + items[1..];
    }
  }

  lemma PrintedIsEmptyIff(items: seq<string>, separator: char)
    requires separator != '\\'
    ensures FromArray(items, separator) == "" <==> items == [] || items == [""]
  {
    if items != [] {
      var escaped := EscapeAll(items, separator);
      if items[0] != "" { EscapeStep(items[0], separator); }
      assert items[0] == "" && |items| == 1 ==> items == [""];
    }
  }

  lemma {:induction false} ScanNeverSplits(s: string, separator: char, current: string)
    requires !IsUnit(separator)
    ensures |Scan(s, separator, current)| == 1
    decreases |s|
  {
    if |s| > 1 && s[0] == '\\' {
      ScanNeverSplits(s[2..], separator, current + [s[1]]);
    } else if s != "" {
      ScanNeverSplits(s[1..], separator, current + [s[0]]);
    }
  }

  /** Items without separators and backslashes are printed as they are. */
  lemma {:induction false} PlainIsNotEscaped(item: string, separator: char)
    requires separator != '\\' && separator !in item && '\\' !in item
    ensures Escape(item, separator) == item
  {
    if item != "" {
      assert item[0] != separator && item[0] != '\\';
      EscapeStep(item, separator);
      PlainIsNotEscaped(item[1..], separator);
    }
  }

  lemma {:induction false} PlainItemsAreJoined(items: seq<string>, separator: char)
    requires separator != '\\' && FreeOf(items, separator) && FreeOf(items, '\\')
    ensures FromArray(items, separator) == Join(items, [separator])
  {
    if items != [] {
      PlainIsNotEscaped(items[0], separator);
      PlainItemsAreJoined(items[1..], separator);
      var escaped := EscapeAll(items, separator);
      assert escaped[1..] == EscapeAll(items[1..], separator);
    }
  }

  /** In general each of these characters gets one backslash in front of it. */
  lemma {:induction false} EscapedLength(item: string, separator: char)
    requires separator != '\\'
    ensures |Escape(item, separator)| == |item| + multiset(item)[separator] + multiset(item)['\\']
  {
    if item != "" {
      EscapeStep(item, separator);
      EscapedLength(item[1..], separator);
      assert item == [item[0]] + item[1..];
    }
  }

  /** Main result: parsing undoes printing, for items with any separators and backslashes, for every array
      but the one that holds just an empty string; a separator of two UTF-16 units is never split at. */
  lemma ArrayRoundTrip(items: seq<string>, separator: char)
    requires separator != '\\'
    ensures ToArray(FromArray(items, separator), separator) == items <==>
            items != [""] && (IsUnit(separator) || |items| <= 1)
  {
    PrintedIsEmptyIff(items, separator);
    if items != [] && (IsUnit(separator) || |items| == 1) {
      ScanJoined(items, separator);
    } else if items != [] {
      ScanNeverSplits(FromArray(items, separator), separator, "");
    }
  }
}
