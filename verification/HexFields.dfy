/** uuid, mac and color values: hexadecimal text stored as fixed-width base-62 numbers (Schema.mapper and unmapper). */
module HexFields {
  import opened Wrappers
  import opened Numerals

  // ---------------------------------------------------------------- hexadecimal text

  /** Lower case for the hexadecimal letters. */
  function LowerChar(c: char): char {
    if c == 'A' then 'a' else if c == 'B' then 'b' else if c == 'C' then 'c'
    else if c == 'D' then 'd' else if c == 'E' then 'e' else if c == 'F' then 'f' else c
  }

  function Lower(s: string): (r: string)
    ensures |r| == |s| && forall i :: 0 <= i < |s| ==> r[i] == LowerChar(s[i])
  {
    seq(|s|, i requires 0 <= i < |s| => LowerChar(s[i]))
  }

  predicate IsHexChar(c: char) { IsDigit(16, LowerChar(c)) }

  /** Hexadecimal digits of either case. */
  predicate IsHex(s: string) { forall i :: 0 <= i < |s| ==> IsHexChar(s[i]) }

  function HexPrefix(s: string): (n: nat)
    ensures n <= |s| && IsHex(s[..n])
  {
    if s == "" || !IsHexChar(s[0]) then 0
    else
      var n := HexPrefix(s[1..]);
      assert s[..n + 1] == [s[0]] + s[1..][..n];
      n + 1
  }

  /** parseInt(s, 16): the longest prefix of digits, None for not-a-number. */
  function ParseHex(s: string): Option<nat> {
    if HexPrefix(s) == 0 then None else Decode(16, Lower(s[..HexPrefix(s)]))
  }

  function ToBase62(n: Option<nat>): string {
    if n.None? then "undefined" else Encode(62, n.value)
  }

  function ToHex(n: Option<nat>): string {
    if n.None? then "NaN" else Encode(16, n.value)
  }

  function Packed(hex: string, width: nat): string { PadStart(ToBase62(ParseHex(hex)), width, '0') }

  function Unpacked(packed: string, width: nat): (hex: string)
    ensures |hex| >= width
  {
    PadStart(ToHex(Decode(62, packed)), width, '0')
  }

  lemma {:induction false} WholeHexPrefix(s: string)
    requires IsHex(s)
    ensures HexPrefix(s) == |s|
  {
    if s != "" { WholeHexPrefix(s[1..]); }
  }

  lemma LowerIsNumeral(s: string)
    requires IsHex(s)
    ensures IsNumeral(16, Lower(s))
  {
    forall i | 0 <= i < |s| ensures IsDigit(16, Lower(s)[i]) { assert IsHexChar(s[i]); }
  }

  /** The width suffices: as many hexadecimal digits as fit, packed and unpacked, come back in lower case. */
  lemma PackRoundTrip(hex: string, width: nat)
    requires hex != "" && IsHex(hex) && width >= 1 && Pow(16, |hex|) <= Pow(62, width)
    ensures |Packed(hex, width)| == width && IsNumeral(62, Packed(hex, width))
    ensures Unpacked(Packed(hex, width), |hex|) == Lower(hex)
    ensures Decode(62, Packed(hex, width)) == Decode(16, Lower(hex))
  {
    WholeHexPrefix(hex);
    LowerIsNumeral(hex);
    assert hex[..|hex|] == hex;
    var n := Decode(16, Lower(hex)).value;
    DecodeBound(16, Lower(hex));
    FixedRoundTrip(62, n, width);
    FixedOfDecode(16, Lower(hex));
  }

  lemma PowValues()
    ensures Pow(16, 6) == 0x100_0000 && Pow(16, 8) == 0x1_0000_0000 && Pow(16, 12) == 0x1_0000_0000_0000
    ensures Pow(62, 5) == 916132832 && Pow(62, 6) == 56800235584 && Pow(62, 9) == 13537086546263552
  {
    assert Pow(16, 4) == 65536;
    assert Pow(16, 6) == 256 * Pow(16, 4);
    assert Pow(16, 8) == 256 * Pow(16, 6);
    assert Pow(16, 10) == 256 * Pow(16, 8);
    assert Pow(16, 12) == 256 * Pow(16, 10);
    assert Pow(62, 3) == 238328;
    assert Pow(62, 5) == 3844 * Pow(62, 3);
    assert Pow(62, 6) == 62 * Pow(62, 5);
    assert Pow(62, 8) == 3844 * Pow(62, 6);
    assert Pow(62, 9) == 62 * Pow(62, 8);
  }

  function RemoveAll(s: string, c: char): string {
    if s == "" then "" else if s[0] == c then RemoveAll(s[1..], c) else [s[0]] + RemoveAll(s[1..], c)
  }

  lemma {:induction false} RemoveAllOfConcat(a: string, b: string, c: char)
    ensures RemoveAll(a + b, c) == RemoveAll(a, c) + RemoveAll(b, c)
  {
    if a == "" {
      assert a + b == b;
    } else {
      RemoveAllOfConcat(a[1..], b, c);
      assert (a + b)[0] == a[0] && (a + b)[1..] == a[1..] + b;
      if a[0] != c {
        assert [a[0]] + (RemoveAll(a[1..], c) + RemoveAll(b, c)) ==
               ([a[0]] + RemoveAll(a[1..], c)) + RemoveAll(b, c);
      }
    }
  }

  lemma {:induction false} RemoveNone(s: string, c: char)
    requires c !in s
    ensures RemoveAll(s, c) == s
  {
    if s != "" {
      assert s[0] != c;
      RemoveNone(s[1..], c);
    }
  }

  /** A group of digits and the separator after it. */
  lemma RemoveAfterGroup(group: string, c: char, tail: string)
    requires IsHex(group) && !IsHexChar(c)
    ensures RemoveAll(group + [c] + tail, c) == group + RemoveAll(tail, c)
  {
    HexHasNo(group, c);
    RemoveNone(group, c);
    RemoveAllOfConcat(group, [c] + tail, c);
    assert group + [c] + tail == group + ([c] + tail);
    assert ([c] + tail)[1..] == tail;
  }

  lemma HexHasNo(s: string, c: char)
    requires IsHex(s) && !IsHexChar(c)
    ensures c !in s
  {}

  lemma NumeralHasNo(base: Base, s: string, c: char)
    requires IsNumeral(base, s) && DigitValue(c).None?
    ensures c !in s
  {}

  // ---------------------------------------------------------------- color

  function MapColor(value: string): string {
    if value != "" && value[0] == '#' && |value[1..]| == 6 then Packed(value[1..], 5) else value
  }

  function UnmapColor(stored: string): string {
    if |stored| == 5 && stored[0] != '#' then "#" + Unpacked(stored, 6) else stored
  }

  lemma ColorRoundTrip(hex: string)
    requires |hex| == 6 && IsHex(hex)
    ensures Decode(62, MapColor("#" + hex)) == Decode(16, Lower(hex))
    ensures |MapColor("#" + hex)| == 5 && UnmapColor(MapColor("#" + hex)) == "#" + Lower(hex)
  {
    PowValues();
    PackRoundTrip(hex, 5);
    assert ("#" + hex)[1..] == hex;
    assert DigitValue('#').None? && IsDigit(62, Packed(hex, 5)[0]);
  }

  // ---------------------------------------------------------------- mac

  function MapMac(value: string): string {
    var hex := RemoveAll(value, ':');
    if value != "" && |hex| == 12 then Packed(hex, 9) else value
  }

  /** hex.match(/.{2}/g).join(':') */
  function Pairs(hex: string): string {
    if |hex| < 2 then ""
    else if |hex| < 4 then hex[..2]
    else hex[..2] + ":" + Pairs(hex[2..])
  }

  function UnmapMac(stored: string): string {
    if |stored| == 9 && ':' !in stored then Pairs(Unpacked(stored, 12)) else stored
  }

  lemma {:induction false} RemoveFromPairs(hex: string)
    requires IsHex(hex) && |hex| % 2 == 0
    ensures RemoveAll(Pairs(hex), ':') == hex
  {
    assert !IsHexChar(':');
    if |hex| == 2 {
      assert hex[..2] == hex;
      HexHasNo(hex, ':');
      RemoveNone(hex, ':');
    } else if |hex| > 2 {
      RemoveFromPairs(hex[2..]);
      RemoveAfterGroup(hex[..2], ':', Pairs(hex[2..]));
      assert hex == hex[..2] + hex[2..];
    }
  }

  /** A mac address is six pairs of digits with colons between them. */
  lemma MacRoundTrip(hex: string)
    requires |hex| == 12 && IsHex(hex)
    ensures Decode(62, MapMac(Pairs(hex))) == Decode(16, Lower(hex))
    ensures |MapMac(Pairs(hex))| == 9 && UnmapMac(MapMac(Pairs(hex))) == Pairs(Lower(hex))
  {
    PowValues();
    PackRoundTrip(hex, 9);
    RemoveFromPairs(hex);
    NumeralHasNo(62, Packed(hex, 9), ':');
  }

  // ---------------------------------------------------------------- uuid

  function MapUuid(value: string): string {
    var hex := RemoveAll(value, '-');
    if value != "" && |hex| == 32 then
      Packed(hex[0..8], 6) + Packed(hex[8..16], 6) + Packed(hex[16..24], 6) + Packed(hex[24..32], 6)
    else value
  }

  function Grouped(hex: string): string
    requires |hex| >= 32
  {
    hex[0..8] + "-" + hex[8..12] + "-" + hex[12..16] + "-" + hex[16..20] + "-" + hex[20..32]
  }

  function UnmapUuid(stored: string): string {
    if |stored| == 24 && '-' !in stored then
      Grouped(Unpacked(stored[0..6], 8) + Unpacked(stored[6..12], 8) + Unpacked(stored[12..18], 8)
          + Unpacked(stored[18..24], 8))
    else stored
  }

  lemma RemoveFromGroups(a: string, b: string, c: string, d: string, e: string)
    requires IsHex(a) && IsHex(b) && IsHex(c) && IsHex(d) && IsHex(e)
    ensures RemoveAll(a + "-" + (b + "-" + (c + "-" + (d + "-" + e))), '-') == a + (b + (c + (d + e)))
  {
    assert !IsHexChar('-');
    HexHasNo(e, '-');
    RemoveNone(e, '-');
    RemoveAfterGroup(d, '-', e);
    RemoveAfterGroup(c, '-', d + "-" + e);
    RemoveAfterGroup(b, '-', c + "-" + (d + "-" + e));
    RemoveAfterGroup(a, '-', b + "-" + (c + "-" + (d + "-" + e)));
  }

  lemma GroupedFromRight(hex: string)
    requires |hex| == 32
    ensures Grouped(hex) ==
        hex[0..8] + "-" + (hex[8..12] + "-" + (hex[12..16] + "-" + (hex[16..20] + "-" + hex[20..32])))
  {}

  lemma RemoveFromGrouped(hex: string)
    requires |hex| == 32 && IsHex(hex)
    ensures RemoveAll(Grouped(hex), '-') == hex
  {
    GroupedFromRight(hex);
    RemoveFromGroups(hex[0..8], hex[8..12], hex[12..16], hex[16..20], hex[20..32]);
    assert hex == hex[0..8] + (hex[8..12] + (hex[12..16] + (hex[16..20] + hex[20..32])));
  }

  lemma PackGroup(hex: string, i: nat, j: nat)
    requires |hex| == 32 && IsHex(hex) && j == i + 8 <= 32
    ensures |Packed(hex[i..j], 6)| == 6 && IsNumeral(62, Packed(hex[i..j], 6))
    ensures Unpacked(Packed(hex[i..j], 6), 8) == Lower(hex)[i..j]
    ensures Decode(62, Packed(hex[i..j], 6)) == Decode(16, Lower(hex)[i..j])
  {
    PowValues();
    PackRoundTrip(hex[i..j], 6);
    assert Lower(hex)[i..j] == Lower(hex[i..j]);
  }

  /** Four groups of eight digits become four groups of six. */
  lemma UuidGroups(p: string, q: string, r: string, s: string)
    requires |p| == |q| == |r| == |s| == 6
    requires IsNumeral(62, p) && IsNumeral(62, q) && IsNumeral(62, r) && IsNumeral(62, s)
    ensures var all := p + q + r + s;
      |all| == 24 && '-' !in all && all[0..6] == p && all[6..12] == q && all[12..18] == r && all[18..24] == s
  {
    NumeralHasNo(62, p, '-');
    NumeralHasNo(62, q, '-');
    NumeralHasNo(62, r, '-');
    NumeralHasNo(62, s, '-');
  }

  lemma InFour(hex: string)
    requires |hex| == 32
    ensures hex[0..8] + hex[8..16] + hex[16..24] + hex[24..32] == hex
  {}

  lemma UnmapGroups(p: string, q: string, r: string, s: string, hex: string)
    requires |p| == |q| == |r| == |s| == 6 && |hex| == 32
    requires IsNumeral(62, p) && IsNumeral(62, q) && IsNumeral(62, r) && IsNumeral(62, s)
    requires Unpacked(p, 8) == hex[0..8] && Unpacked(q, 8) == hex[8..16]
    requires Unpacked(r, 8) == hex[16..24] && Unpacked(s, 8) == hex[24..32]
    ensures UnmapUuid(p + q + r + s) == Grouped(hex)
  {
    UuidGroups(p, q, r, s);
    InFour(hex);
  }

  /** The four stored groups of 32 digits. */
  lemma UuidGroupsOf(hex: string) returns (p: string, q: string, r: string, s: string)
    requires |hex| == 32 && IsHex(hex)
    ensures |p| == |q| == |r| == |s| == 6
    ensures IsNumeral(62, p) && IsNumeral(62, q) && IsNumeral(62, r) && IsNumeral(62, s)
    ensures Unpacked(p, 8) == Lower(hex)[0..8] && Unpacked(q, 8) == Lower(hex)[8..16]
    ensures Unpacked(r, 8) == Lower(hex)[16..24] && Unpacked(s, 8) == Lower(hex)[24..32]
    ensures MapUuid(Grouped(hex)) == p + q + r + s
  {
    p, q, r, s := Packed(hex[0..8], 6), Packed(hex[8..16], 6), Packed(hex[16..24], 6), Packed(hex[24..32], 6);
    RemoveFromGrouped(hex);
    PackGroup(hex, 0, 8);
    PackGroup(hex, 8, 16);
    PackGroup(hex, 16, 24);
    PackGroup(hex, 24, 32);
  }

  /** The four groups stand for the four 32-bit numbers, in their order. */
  lemma UuidIsFourNumbers(hex: string)
    requires |hex| == 32 && IsHex(hex)
    ensures var stored := MapUuid(Grouped(hex));
      && |stored| == 24
      && Decode(62, stored[0..6]) == Decode(16, Lower(hex)[0..8])
      && Decode(62, stored[6..12]) == Decode(16, Lower(hex)[8..16])
      && Decode(62, stored[12..18]) == Decode(16, Lower(hex)[16..24])
      && Decode(62, stored[18..24]) == Decode(16, Lower(hex)[24..32])
  {
    RemoveFromGrouped(hex);
    PackGroup(hex, 0, 8);
    PackGroup(hex, 8, 16);
    PackGroup(hex, 16, 24);
    PackGroup(hex, 24, 32);
    UuidGroups(Packed(hex[0..8], 6), Packed(hex[8..16], 6), Packed(hex[16..24], 6), Packed(hex[24..32], 6));
  }

  /** Main result: any 32 digits, of either case, come back in lower case from 24 characters. */
  lemma UuidRoundTrip(hex: string)
    requires |hex| == 32 && IsHex(hex)
    ensures |MapUuid(Grouped(hex))| == 24 && UnmapUuid(MapUuid(Grouped(hex))) == Grouped(Lower(hex))
  {
    var p, q, r, s := UuidGroupsOf(hex);
    UnmapGroups(p, q, r, s, Lower(hex));
  }
}
