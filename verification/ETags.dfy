/** Entity tags in conditional headers (normalizeEtagHeader in runtime.ts). */
module ETags {
  import opened TextLists

  function StripWeak(s: string): string {
    if |s| >= 2 && s[0] in {'W', 'w'} && s[1] == '/' then s[2..] else s
  }

  predicate IsQuote(c: char) { c == '\'' || c == '"' }

  function StripQuotes(s: string): string {
    var t := if s != "" && IsQuote(s[0]) then s[1..] else s;
    if t != "" && IsQuote(t[|t| - 1]) then t[..|t| - 1] else t
  }

  function NormalizeParts(parts: seq<string>): seq<string> {
    if parts == [] then []
    else
      var value := Trim(parts[0]);
      if value == "" then NormalizeParts(parts[1..])
      else [StripQuotes(StripWeak(value))] + NormalizeParts(parts[1..])
  }

  /** The entity tags that a header value lists, unquoted and without the weakness mark. */
  function Normalize(header: string): seq<string> { NormalizeParts(Split(header, ',')) }

  /** _formatEtag */
  function Format(etag: string): string { ['"'] + etag + ['"'] }

  datatype Listed = Strong(etag: string) | Weak(etag: string)

  function Print(l: Listed): string {
    match l
    case Strong(etag) => Format(etag)
    case Weak(etag) => "W/" + Format(etag)
  }

  /** A list header as section 13.1.1 of RFC 9110 writes it, with a comma and a space between the tags. */
  function PrintTail(l: seq<Listed>): seq<string> {
    if l == [] then [] else [" " + Print(l[0])] + PrintTail(l[1..])
  }

  function PrintList(l: seq<Listed>): string
    requires l != []
  {
    Join([Print(l[0])] + PrintTail(l[1..]), ",")
  }

  function Tags(l: seq<Listed>): seq<string> {
    if l == [] then [] else [l[0].etag] + Tags(l[1..])
  }

  predicate Plain(etag: string) { ',' !in etag }

  predicate AllPlain(l: seq<Listed>) {
    l == [] || (Plain(l[0].etag) && AllPlain(l[1..]))
  }

  lemma PrintedIsNotTrimmed(l: Listed)
    ensures Trim(Print(l)) == Print(l) && Trim(" " + Print(l)) == Print(l)
  {
    var s := Print(l);
    assert s[0] in {'"', 'W'} && s[|s| - 1] == '"';
    assert (" " + s)[1..] == s;
  }

  lemma PrintedIsStripped(l: Listed)
    ensures StripQuotes(StripWeak(Print(l))) == l.etag
  {
    var quoted := Format(l.etag);
    assert StripWeak(Print(l)) == quoted by {
      if l.Weak? { assert ("W/" + quoted)[2..] == quoted; }
    }
    assert quoted[1..] == l.etag + ['"'];
  }

  lemma {:induction false} TailNormalizes(l: seq<Listed>)
    ensures NormalizeParts(PrintTail(l)) == Tags(l)
  {
    if l != [] {
      PrintedIsNotTrimmed(l[0]);
      PrintedIsStripped(l[0]);
      TailNormalizes(l[1..]);
      assert PrintTail(l)[1..] == PrintTail(l[1..]);
    }
  }

  lemma {:induction false} TailHasNoComma(l: seq<Listed>)
    requires AllPlain(l)
    ensures FreeOf(PrintTail(l), ',')
  {
    if l != [] {
      TailHasNoComma(l[1..]);
      assert PrintTail(l)[1..] == PrintTail(l[1..]);
    }
  }

  /** Normalizing undoes printing, for strong and weak tags without commas. */
  lemma NormalizePrinted(l: seq<Listed>)
    requires l != [] && AllPlain(l)
    ensures Normalize(PrintList(l)) == Tags(l)
  {
    var first, tail := Print(l[0]), PrintTail(l[1..]);
    TailHasNoComma(l[1..]);
    assert ',' !in first;
    SplitJoin([first] + tail, ',');
    PrintedIsNotTrimmed(l[0]);
    PrintedIsStripped(l[0]);
    TailNormalizes(l[1..]);
    assert ([first] + tail)[1..] == tail;
  }

  lemma PrintedListIsNoStar(l: seq<Listed>)
    requires l != []
    ensures PrintList(l) != "*"
  {
    assert PrintList(l)[0] == Print(l[0])[0];
  }

  lemma NormalizeFormatted(etag: string)
    requires Plain(etag)
    ensures Normalize(Format(etag)) == [etag]
  {
    var l := [Strong(etag)];
    NormalizePrinted(l);
    assert PrintList(l) == Format(etag);
    assert Tags(l) == [etag];
  }
}
