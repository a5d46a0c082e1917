/** String.trim, toLowerCase for ASCII, and String.split and Array.join with a one-character separator. */
module TextLists {

  /** The white space that String.trim removes. */
  predicate IsSpace(c: char) {
    var code := c as int;
    || 0x09 <= code <= 0x0D || code in {0x20, 0xA0, 0x1680} || 0x2000 <= code <= 0x200A
    || code in {0x2028, 0x2029, 0x202F, 0x205F, 0x3000, 0xFEFF}
  }

  function TrimStart(s: string): string {
    if s != "" && IsSpace(s[0]) then TrimStart(s[1..]) else s
  }

  function TrimEnd(s: string): string {
    if s != "" && IsSpace(s[|s| - 1]) then TrimEnd(s[..|s| - 1]) else s
  }

  function Trim(s: string): string { TrimEnd(TrimStart(s)) }

  function LowerChar(c: char): char { if 'A' <= c <= 'Z' then (c as int + 32) as char else c }

  function ToLower(s: string): (r: string)
    ensures |r| == |s| && forall i :: 0 <= i < |s| ==> r[i] == LowerChar(s[i])
  {
    seq(|s|, i requires 0 <= i < |s| => LowerChar(s[i]))
  }

  function Join(parts: seq<string>, separator: string): string {
    if parts == [] then ""
    else if |parts| == 1 then parts[0]
    else parts[0] + separator + Join(parts[1..], separator)
  }

  /** The parts between the separators; always at least one. */
  function Split(s: string, separator: char): (parts: seq<string>)
    ensures parts != []
  {
    if s == "" then [""]
    else
      var rest := Split(s[1..], separator);
      if s[0] == separator then [""] + rest else [[s[0]] + rest[0]] + rest[1..]
  }

  lemma {:induction false} SplitAtSeparator(part: string, separator: char, tail: string)
    requires separator !in part
    ensures Split(part + [separator] + tail, separator) == [part] + Split(tail, separator)
  {
    var s := part + [separator] + tail;
    if part == "" {
      assert s[1..] == tail;
    } else {
      SplitAtSeparator(part[1..], separator, tail);
      assert s[1..] == part[1..] + [separator] + tail;
      assert s[0] == part[0] && s[0] != separator;
      assert [part[0]] + part[1..] == part;
    }
  }

  lemma {:induction false} SplitWithoutSeparator(s: string, separator: char)
    requires separator !in s
    ensures Split(s, separator) == [s]
  {
    if s != "" {
      SplitWithoutSeparator(s[1..], separator);
      assert s[0] != separator;
      assert [s[0]] + s[1..] == s;
    }
  }

  predicate FreeOf(parts: seq<string>, separator: char) {
    parts == [] || (separator !in parts[0] && FreeOf(parts[1..], separator))
  }

  /** Splitting undoes joining for any non-empty list of parts free of the separator. */
  lemma {:induction false} SplitJoin(parts: seq<string>, separator: char)
    requires parts != [] && FreeOf(parts, separator)
    ensures Split(Join(parts, [separator]), separator) == parts
  {
    if |parts| == 1 {
      SplitWithoutSeparator(parts[0], separator);
    } else {
      SplitJoin(parts[1..], separator);
      SplitAtSeparator(parts[0], separator, Join(parts[1..], [separator]));
      assert [parts[0]] + parts[1..] == parts;
    }
  }
}
