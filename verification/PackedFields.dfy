/** cidr, timeonly and semver values: several numbers packed into one base-62 number (Schema.mapper and unmapper). */
module PackedFields {
  import opened Wrappers
  import opened Numerals
  import opened TextLists

  lemma DecimalHasNo(n: nat, c: char)
    requires DigitValue(c).None?
    ensures c !in Decimal(n)
  {}

  lemma Base62HasNo(s: string, c: char)
    requires IsNumeral(62, s) && DigitValue(c).None?
    ensures c !in s
  {}

  // ---------------------------------------------------------------- cidr

  const BYTE1: nat := 0x1_0000
  const BYTE2: nat := 0x100_0000
  const WORD: nat := 0x1_0000_0000

  /** The number of a decimal part; a part that is missing or no number shifts as 0. */
  function PartNumber(parts: seq<string>, i: nat): nat {
    if i < |parts| && Decode(10, parts[i]).Some? then Decode(10, parts[i]).value else 0
  }

  function Ip(parts: seq<string>): nat {
    (PartNumber(parts, 0) * BYTE2 + PartNumber(parts, 1) * BYTE1 + PartNumber(parts, 2) * 256
        + PartNumber(parts, 3)) % WORD
  }

  function ParsePrefix(s: string): string {
    if s != "" && Decode(10, s).Some? then Encode(62, Decode(10, s).value) else "undefined"
  }

  function MapCidr(value: string): string {
    var halves := Split(value, '/');
    if |halves| < 2 then value else Fixed(62, Ip(Split(halves[0], '.')), 6) + ParsePrefix(halves[1])
  }

  function Octets(a: nat, b: nat, c: nat, d: nat): string {
    Join([Decimal(a), Decimal(b), Decimal(c), Decimal(d)], ".")
  }

  function PrintCidr(a: nat, b: nat, c: nat, d: nat, prefix: nat): string {
    Join([Octets(a, b, c, d), Decimal(prefix)], "/")
  }

  function UnmapIp(ip: nat): string { Octets(ip / BYTE2 % 256, ip / BYTE1 % 256, ip / 256 % 256, ip % 256) }

  function UnmapCidr(stored: string): string {
    if |stored| == 7 && '.' !in stored then
      var ip, prefix := Decode(62, stored[..6]), Decode(62, stored[6..]);
      Join([UnmapIp(if ip.Some? then ip.value else 0), if prefix.Some? then Decimal(prefix.value) else "NaN"], "/")
    else stored
  }

  lemma Lane(high: nat, low: nat)
    requires low < 256
    ensures (high * 256 + low) / 256 == high && (high * 256 + low) % 256 == low
  {}

  lemma Quotients(ip: nat)
    ensures ip / BYTE1 == ip / 256 / 256 && ip / BYTE2 == ip / 256 / 256 / 256
  {}

  lemma Lanes(a: nat, b: nat, c: nat, d: nat)
    requires a < 256 && b < 256 && c < 256 && d < 256
    ensures var ip := a * BYTE2 + b * BYTE1 + c * 256 + d;
      ip < WORD && ip / BYTE2 % 256 == a && ip / BYTE1 % 256 == b && ip / 256 % 256 == c && ip % 256 == d
  {
    Lane(a, b);
    Lane(a * 256 + b, c);
    Lane((a * 256 + b) * 256 + c, d);
    Quotients(a * BYTE2 + b * BYTE1 + c * 256 + d);
  }

  lemma {:induction false} NoCharInJoin(parts: seq<string>, separator: char, c: char)
    requires c != separator && FreeOf(parts, c)
    ensures c !in Join(parts, [separator])
  {
    if |parts| > 1 { NoCharInJoin(parts[1..], separator, c); }
  }

  lemma FreeOfCons(part: string, parts: seq<string>, c: char)
    requires c !in part && FreeOf(parts, c)
    ensures FreeOf([part] + parts, c)
  {
    assert ([part] + parts)[1..] == parts;
  }

  lemma ThreeAreFree(a: nat, b: nat, c: nat, ch: char)
    requires DigitValue(ch).None?
    ensures FreeOf([Decimal(a), Decimal(b), Decimal(c)], ch)
  {
    DecimalHasNo(a, ch);
    DecimalHasNo(b, ch);
    DecimalHasNo(c, ch);
    FreeOfCons(Decimal(c), [], ch);
    FreeOfCons(Decimal(b), [Decimal(c)], ch);
    FreeOfCons(Decimal(a), [Decimal(b), Decimal(c)], ch);
    assert [Decimal(b)] + [Decimal(c)] == [Decimal(b), Decimal(c)];
    assert [Decimal(a)] + [Decimal(b), Decimal(c)] == [Decimal(a), Decimal(b), Decimal(c)];
  }

  lemma FourAreFree(a: nat, b: nat, c: nat, d: nat, ch: char)
    requires DigitValue(ch).None?
    ensures FreeOf([Decimal(a), Decimal(b), Decimal(c), Decimal(d)], ch)
  {
    DecimalHasNo(a, ch);
    ThreeAreFree(b, c, d, ch);
    FreeOfCons(Decimal(a), [Decimal(b), Decimal(c), Decimal(d)], ch);
    assert [Decimal(a)] + [Decimal(b), Decimal(c), Decimal(d)] == [Decimal(a), Decimal(b), Decimal(c), Decimal(d)];
  }

  lemma CidrParts(a: nat, b: nat, c: nat, d: nat, prefix: nat)
    ensures Split(PrintCidr(a, b, c, d, prefix), '/') == [Octets(a, b, c, d), Decimal(prefix)]
    ensures Split(Octets(a, b, c, d), '.') == [Decimal(a), Decimal(b), Decimal(c), Decimal(d)]
  {
    FourAreFree(a, b, c, d, '/');
    FourAreFree(a, b, c, d, '.');
    NoCharInJoin([Decimal(a), Decimal(b), Decimal(c), Decimal(d)], '.', '/');
    DecimalHasNo(prefix, '/');
    FreeOfCons(Decimal(prefix), [], '/');
    FreeOfCons(Octets(a, b, c, d), [Decimal(prefix)], '/');
    assert [Octets(a, b, c, d)] + [Decimal(prefix)] == [Octets(a, b, c, d), Decimal(prefix)];
    SplitJoin([Octets(a, b, c, d), Decimal(prefix)], '/');
    SplitJoin([Decimal(a), Decimal(b), Decimal(c), Decimal(d)], '.');
  }

  lemma IpOfDecimals(a: nat, b: nat, c: nat, d: nat)
    requires a < 256 && b < 256 && c < 256 && d < 256
    ensures Ip([Decimal(a), Decimal(b), Decimal(c), Decimal(d)]) == a * BYTE2 + b * BYTE1 + c * 256 + d
  {
    DecodeEncode(10, a);
    DecodeEncode(10, b);
    DecodeEncode(10, c);
    DecodeEncode(10, d);
    var parts := [Decimal(a), Decimal(b), Decimal(c), Decimal(d)];
    assert PartNumber(parts, 0) == a && PartNumber(parts, 1) == b && PartNumber(parts, 2) == c
        && PartNumber(parts, 3) == d;
  }

  lemma MapOfPrinted(a: nat, b: nat, c: nat, d: nat, prefix: nat)
    requires a < 256 && b < 256 && c < 256 && d < 256
    ensures MapCidr(PrintCidr(a, b, c, d, prefix)) ==
            Fixed(62, a * BYTE2 + b * BYTE1 + c * 256 + d, 6) + Encode(62, prefix)
  {
    CidrParts(a, b, c, d, prefix);
    IpOfDecimals(a, b, c, d);
    DecodeEncode(10, prefix);
  }

  lemma PowSix()
    ensures Pow(62, 6) == 56800235584 && Pow(62, 1) == 62
  {
    assert Pow(62, 3) == 238328;
    assert Pow(62, 6) == 238328 * Pow(62, 3);
  }

  lemma UnmapOfFixed(ip: nat, prefix: nat)
    requires ip < WORD
    ensures var stored := Fixed(62, ip, 6) + Encode(62, prefix);
      && (|stored| == 7 <==> prefix < 62)
      && '.' !in stored && '/' !in stored
      && (prefix < 62 ==> UnmapCidr(stored) == Join([UnmapIp(ip), Decimal(prefix)], "/"))
      && (prefix >= 62 ==> UnmapCidr(stored) == stored)
  {
    PowSix();
    FixedRoundTrip(62, ip, 6);
    EncodeLength(62, prefix, 1);
    DecodeEncode(62, prefix);
    var stored := Fixed(62, ip, 6) + Encode(62, prefix);
    assert stored[..6] == Fixed(62, ip, 6) && stored[6..] == Encode(62, prefix);
    Base62HasNo(Fixed(62, ip, 6), '.');
    Base62HasNo(Encode(62, prefix), '.');
    Base62HasNo(Fixed(62, ip, 6), '/');
    Base62HasNo(Encode(62, prefix), '/');
  }

  lemma PrintedHasSlash(a: nat, b: nat, c: nat, d: nat, prefix: nat)
    ensures '/' in PrintCidr(a, b, c, d, prefix)
  {
    var halves := [Octets(a, b, c, d), Decimal(prefix)];
    assert PrintCidr(a, b, c, d, prefix)[|halves[0]|] == '/' by { assert Join(halves[1..], "/") == Decimal(prefix); }
  }

  lemma UnmapIpOfOctets(a: nat, b: nat, c: nat, d: nat)
    requires a < 256 && b < 256 && c < 256 && d < 256
    ensures a * BYTE2 + b * BYTE1 + c * 256 + d < WORD
    ensures UnmapIp(a * BYTE2 + b * BYTE1 + c * 256 + d) == Octets(a, b, c, d)
  {
    Lanes(a, b, c, d);
  }

  lemma CidrComesBack(a: nat, b: nat, c: nat, d: nat, prefix: nat)
    requires a < 256 && b < 256 && c < 256 && d < 256 && prefix < 62
    ensures UnmapCidr(MapCidr(PrintCidr(a, b, c, d, prefix))) == PrintCidr(a, b, c, d, prefix)
  {
    MapOfPrinted(a, b, c, d, prefix);
    UnmapIpOfOctets(a, b, c, d);
    UnmapOfFixed(a * BYTE2 + b * BYTE1 + c * 256 + d, prefix);
  }

  lemma CidrIsLost(a: nat, b: nat, c: nat, d: nat, prefix: nat)
    requires a < 256 && b < 256 && c < 256 && d < 256 && prefix >= 62
    ensures '/' !in UnmapCidr(MapCidr(PrintCidr(a, b, c, d, prefix)))
  {
    MapOfPrinted(a, b, c, d, prefix);
    UnmapIpOfOctets(a, b, c, d);
    UnmapOfFixed(a * BYTE2 + b * BYTE1 + c * 256 + d, prefix);
  }

  /** Main result: the seven characters give the address back exactly when the prefix is one base-62 digit,
      as every validated prefix (at most 32) is. */
  lemma CidrRoundTrip(a: nat, b: nat, c: nat, d: nat, prefix: nat)
    requires a < 256 && b < 256 && c < 256 && d < 256
    ensures var value := PrintCidr(a, b, c, d, prefix);
      UnmapCidr(MapCidr(value)) == value <==> prefix < 62
  {
    if prefix < 62 {
      CidrComesBack(a, b, c, d, prefix);
    } else {
      CidrIsLost(a, b, c, d, prefix);
      PrintedHasSlash(a, b, c, d, prefix);
    }
  }

  /** What is stored: the address as one number in six digits, then the prefix. */
  lemma CidrIsTwoNumbers(a: nat, b: nat, c: nat, d: nat, prefix: nat)
    requires a < 256 && b < 256 && c < 256 && d < 256
    ensures var stored := MapCidr(PrintCidr(a, b, c, d, prefix));
      && |stored| > 6 && Decode(62, stored[..6]) == Some(((a * 256 + b) * 256 + c) * 256 + d)
      && Decode(62, stored[6..]) == Some(prefix)
  {
    MapOfPrinted(a, b, c, d, prefix);
    UnmapIpOfOctets(a, b, c, d);
    var ip := a * BYTE2 + b * BYTE1 + c * 256 + d;
    PowSix();
    FixedRoundTrip(62, ip, 6);
    DecodeEncode(62, prefix);
    var stored := Fixed(62, ip, 6) + Encode(62, prefix);
    assert stored[..6] == Fixed(62, ip, 6) && stored[6..] == Encode(62, prefix);
  }

  // ---------------------------------------------------------------- semver

  predicate IsDigits(s: string) { s != "" && IsNumeral(10, s) }

  function MapSemver(value: string): string {
    var parts := Split(value, '.');
    if |parts| == 3 && IsDigits(parts[0]) && IsDigits(parts[1]) && IsDigits(parts[2]) then
      Encode(62, PackVersion(Decode(10, parts[0]).value, Decode(10, parts[1]).value, Decode(10, parts[2]).value))
    else value
  }

  function PackVersion(major: nat, minor: nat, patch: nat): nat { major * 1_000_000 + minor * 1000 + patch }

  function PrintSemver(major: nat, minor: nat, patch: nat): string {
    Join([Decimal(major), Decimal(minor), Decimal(patch)], ".")
  }

  function UnmapSemver(stored: string): string {
    if stored == "" || '.' in stored then stored
    else
      var packed := Decode(62, stored);
      if packed.None? then "NaN.NaN.NaN"
      else PrintSemver(packed.value / 1_000_000, packed.value % 1_000_000 / 1000, packed.value % 1000)
  }

  lemma SemverParts(major: nat, minor: nat, patch: nat)
    ensures Split(PrintSemver(major, minor, patch), '.') == [Decimal(major), Decimal(minor), Decimal(patch)]
  {
    ThreeAreFree(major, minor, patch, '.');
    SplitJoin([Decimal(major), Decimal(minor), Decimal(patch)], '.');
  }

  lemma MapThenUnmapSemver(major: nat, minor: nat, patch: nat)
    ensures var packed := PackVersion(major, minor, patch);
      UnmapSemver(MapSemver(PrintSemver(major, minor, patch))) ==
      PrintSemver(packed / 1_000_000, packed % 1_000_000 / 1000, packed % 1000)
  {
    SemverParts(major, minor, patch);
    DecodeEncode(10, major);
    DecodeEncode(10, minor);
    DecodeEncode(10, patch);
    var packed := PackVersion(major, minor, patch);
    DecodeEncode(62, packed);
    Base62HasNo(Encode(62, packed), '.');
  }

  /** What is stored: major, minor and patch as one number in thousands. */
  lemma SemverIsOneNumber(major: nat, minor: nat, patch: nat)
    ensures Decode(62, MapSemver(PrintSemver(major, minor, patch))) == Some((major * 1000 + minor) * 1000 + patch)
  {
    SemverParts(major, minor, patch);
    DecodeEncode(10, major);
    DecodeEncode(10, minor);
    DecodeEncode(10, patch);
    DecodeEncode(62, PackVersion(major, minor, patch));
  }

  lemma PrintSemverIsInjective(a: nat, b: nat, c: nat, x: nat, y: nat, z: nat)
    requires PrintSemver(a, b, c) == PrintSemver(x, y, z)
    ensures a == x && b == y && c == z
  {
    SemverParts(a, b, c);
    SemverParts(x, y, z);
    var parts, other := [Decimal(a), Decimal(b), Decimal(c)], [Decimal(x), Decimal(y), Decimal(z)];
    assert parts[0] == other[0] && parts[1] == other[1] && parts[2] == other[2];
    EncodeInjective(10, a, x);
    EncodeInjective(10, b, y);
    EncodeInjective(10, c, z);
  }

  lemma Thousands(n: nat)
    ensures n / 1_000_000 == n / 1000 / 1000 && n % 1_000_000 / 1000 == n / 1000 % 1000
  {}

  lemma Unpack(major: nat, minor: nat, patch: nat)
    ensures var packed := PackVersion(major, minor, patch);
      minor < 1000 && patch < 1000 <==>
      packed / 1_000_000 == major && packed % 1_000_000 / 1000 == minor && packed % 1000 == patch
  {
    var packed := PackVersion(major, minor, patch);
    Thousands(packed);
    if minor < 1000 && patch < 1000 {
      assert packed == (major * 1000 + minor) * 1000 + patch;
      assert packed / 1000 == major * 1000 + minor;
    }
  }

  /** Main result: a version survives packing exactly when minor and patch are below 1000. */
  lemma SemverRoundTrip(major: nat, minor: nat, patch: nat)
    ensures var value := PrintSemver(major, minor, patch);
      UnmapSemver(MapSemver(value)) == value <==> minor < 1000 && patch < 1000
  {
    var packed := PackVersion(major, minor, patch);
    MapThenUnmapSemver(major, minor, patch);
    Unpack(major, minor, patch);
    if UnmapSemver(MapSemver(PrintSemver(major, minor, patch))) == PrintSemver(major, minor, patch) {
      PrintSemverIsInjective(packed / 1_000_000, packed % 1_000_000 / 1000, packed % 1000, major, minor, patch);
    }
  }

  // ---------------------------------------------------------------- timeonly

  /** HH:mm, HH:mm:ss or HH:mm:ss with one to three digits of a fraction, in milliseconds. */
  function ParseTime(value: string): Option<nat> {
    if |value| < 5 || value[2] != ':' then None
    else
      var h, m := Decode(10, value[0..2]), Decode(10, value[3..5]);
      if h.None? || m.None? then None
      else if |value| == 5 then Some(Millis(h.value, m.value, 0, 0))
      else if |value| < 8 || value[5] != ':' then None
      else
        var s := Decode(10, value[6..8]);
        if s.None? then None
        else if |value| == 8 then Some(Millis(h.value, m.value, s.value, 0))
        else if |value| < 10 || |value| > 12 || value[8] != '.' then None
        else
          var ms := Decode(10, value[9..] + Repeat('0', 12 - |value|));
          if ms.None? then None else Some(Millis(h.value, m.value, s.value, ms.value))
  }

  function Millis(h: nat, m: nat, s: nat, ms: nat): nat { (h * 3600 + m * 60 + s) * 1000 + ms }

  function MapTime(value: string): string {
    var total := ParseTime(value);
    if total.Some? then Encode(62, total.value) else value
  }

  function PrintTime(h: nat, m: nat, s: nat, ms: nat): string {
    Fixed(10, h, 2) + ":" + Fixed(10, m, 2) + ":" + Fixed(10, s, 2) + "." + Fixed(10, ms, 3)
  }

  function UnmapTime(stored: string): string {
    if stored == "" then stored
    else
      var total := Decode(62, stored);
      if total.None? then "NaN:NaN:NaN.NaN"
      else
        PrintSeconds(total.value / 1000, total.value % 1000)
  }

  function PrintSeconds(seconds: nat, ms: nat): string {
    PrintTime(seconds / 60 / 60, seconds / 60 % 60, seconds % 60, ms)
  }

  lemma PowTen()
    ensures Pow(10, 2) == 100 && Pow(10, 3) == 1000
  {}

  /** dd:dd:dd.ddd, the form to which validation brings every time. */
  predicate IsTimeText(v: string) {
    && |v| == 12 && v[2] == ':' && v[5] == ':' && v[8] == '.'
    && IsNumeral(10, v[0..2]) && IsNumeral(10, v[3..5]) && IsNumeral(10, v[6..8]) && IsNumeral(10, v[9..12])
  }

  function Number(v: string, i: nat, j: nat): nat
    requires i <= j <= |v| && IsNumeral(10, v[i..j])
  {
    Decode(10, v[i..j]).value
  }

  function SecondsOf(v: string): nat
    requires IsTimeText(v)
  {
    Number(v, 0, 2) * 3600 + Number(v, 3, 5) * 60 + Number(v, 6, 8)
  }

  lemma NumberBounds(v: string)
    requires IsTimeText(v)
    ensures Number(v, 0, 2) < 100 && Number(v, 3, 5) < 100 && Number(v, 6, 8) < 100 && Number(v, 9, 12) < 1000
  {
    PowTen();
    DecodeBound(10, v[0..2]);
    DecodeBound(10, v[3..5]);
    DecodeBound(10, v[6..8]);
    DecodeBound(10, v[9..12]);
  }

  lemma ParseOfText(v: string)
    requires IsTimeText(v)
    ensures ParseTime(v) == Some(SecondsOf(v) * 1000 + Number(v, 9, 12))
  {
    assert v[9..] + Repeat('0', 0) == v[9..12];
  }

  lemma TimeParts(h: string, m: string, s: string, ms: string)
    requires |h| == |m| == |s| == 2 && |ms| == 3
    ensures var v := h + ":" + m + ":" + s + "." + ms;
      && |v| == 12 && v[2] == ':' && v[5] == ':' && v[8] == '.'
      && v[0..2] == h && v[3..5] == m && v[6..8] == s && v[9..12] == ms
  {}

  lemma PartsTime(v: string)
    requires IsTimeText(v)
    ensures v == v[0..2] + ":" + v[3..5] + ":" + v[6..8] + "." + v[9..12]
  {}

  /** Printing the numbers of a time text gives the text. */
  lemma PrintNumbers(v: string)
    requires IsTimeText(v)
    ensures PrintTime(Number(v, 0, 2), Number(v, 3, 5), Number(v, 6, 8), Number(v, 9, 12)) == v
  {
    FixedOfDecode(10, v[0..2]);
    FixedOfDecode(10, v[3..5]);
    FixedOfDecode(10, v[6..8]);
    FixedOfDecode(10, v[9..12]);
    PartsTime(v);
  }

  /** A printed time of twelve characters holds its numbers. */
  lemma NumbersOfPrinted(h: nat, m: nat, s: nat, ms: nat)
    requires m < 60 && s < 60 && ms < 1000
    ensures var v := PrintTime(h, m, s, ms);
      |v| == 12 ==> Decode(10, v[3..5]) == Some(m) && Decode(10, v[6..8]) == Some(s)
  {
    PowTen();
    FixedRoundTrip(10, h, 2);
    FixedRoundTrip(10, m, 2);
    FixedRoundTrip(10, s, 2);
    FixedRoundTrip(10, ms, 3);
    if |Fixed(10, h, 2)| == 2 {
      TimeParts(Fixed(10, h, 2), Fixed(10, m, 2), Fixed(10, s, 2), Fixed(10, ms, 3));
    }
  }

  lemma NoCarry(h: nat, m: nat, s: nat)
    requires m < 60 && s < 60
    ensures var seconds := h * 3600 + m * 60 + s;
      seconds / 60 / 60 == h && seconds / 60 % 60 == m && seconds % 60 == s
  {}

  lemma PrintSecondsIs(v: string)
    requires IsTimeText(v)
    ensures PrintSeconds(SecondsOf(v), Number(v, 9, 12)) == v <==> Number(v, 3, 5) < 60 && Number(v, 6, 8) < 60
  {
    NumberBounds(v);
    var seconds, ms := SecondsOf(v), Number(v, 9, 12);
    if Number(v, 3, 5) < 60 && Number(v, 6, 8) < 60 {
      NoCarry(Number(v, 0, 2), Number(v, 3, 5), Number(v, 6, 8));
      PrintNumbers(v);
    } else {
      NumbersOfPrinted(seconds / 60 / 60, seconds / 60 % 60, seconds % 60, ms);
    }
  }

  lemma UnmapOfTotal(seconds: nat, ms: nat)
    requires ms < 1000
    ensures UnmapTime(Encode(62, seconds * 1000 + ms)) == PrintSeconds(seconds, ms)
  {
    DecodeEncode(62, seconds * 1000 + ms);
    assert (seconds * 1000 + ms) / 1000 == seconds && (seconds * 1000 + ms) % 1000 == ms;
  }

  lemma MapOfText(v: string)
    requires IsTimeText(v)
    ensures MapTime(v) == Encode(62, SecondsOf(v) * 1000 + Number(v, 9, 12))
  {
    ParseOfText(v);
  }

  lemma UnmapOfMapped(v: string)
    requires IsTimeText(v)
    ensures UnmapTime(MapTime(v)) == PrintSeconds(SecondsOf(v), Number(v, 9, 12))
  {
    MapOfText(v);
    NumberBounds(v);
    UnmapOfTotal(SecondsOf(v), Number(v, 9, 12));
  }

  /** Main result: a time text comes back exactly when its minutes and seconds are below 60. */
  lemma TimeRoundTrip(v: string)
    requires IsTimeText(v)
    ensures UnmapTime(MapTime(v)) == v <==> Number(v, 3, 5) < 60 && Number(v, 6, 8) < 60
  {
    UnmapOfMapped(v);
    PrintSecondsIs(v);
  }

  /** What is stored: the milliseconds since midnight. */
  lemma TimeIsMilliseconds(v: string)
    requires IsTimeText(v)
    ensures Decode(62, MapTime(v)) ==
            Some(((Number(v, 0, 2) * 60 + Number(v, 3, 5)) * 60 + Number(v, 6, 8)) * 1000 + Number(v, 9, 12))
  {
    MapOfText(v);
    DecodeEncode(62, SecondsOf(v) * 1000 + Number(v, 9, 12));
  }

  /** The shorter forms HH:mm, HH:mm:ss and those with one or two digits of a fraction, filled up. */
  function Filled(v: string): string {
    if |v| == 5 then v + ":00.000" else if |v| == 8 then v + ".000"
    else if |v| == 10 || |v| == 11 then v + Repeat('0', 12 - |v|) else v
  }

  /** They are stored like the filled form. */
  lemma ShortTimeIsFilled(v: string)
    requires IsTimeText(Filled(v))
    ensures MapTime(v) == MapTime(Filled(v))
  {
    var w := Filled(v);
    ParseOfText(w);
    assert w[0..2] == v[0..2] && w[3..5] == v[3..5];
    if |v| == 5 {
      assert w[6..8] == "00" && w[9..12] == "000";
      ZerosAreZero();
    } else if |v| == 8 {
      assert w[6..8] == v[6..8] && w[9..12] == "000";
      ZerosAreZero();
    } else {
      assert w[6..8] == v[6..8] && w[9..12] == v[9..] + Repeat('0', 12 - |v|);
    }
  }

  lemma ZerosAreZero()
    ensures Decode(10, "00") == Some(0) && Decode(10, "000") == Some(0)
  {}
}
