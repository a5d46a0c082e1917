/** The base-85 codec of text-compression.ts. */
module Base85 {
  import opened Bytes

  /** The alphabet is printable ASCII without the space, double quote, apostrophe, backslash and backtick. */
  function Letter(i: nat): char
    requires i < 85
  {
    if i == 0 then '!'
    else if i < 5 then ('#' as int + i - 1) as char
    else if i < 57 then ('(' as int + i - 5) as char
    else if i < 60 then (']' as int + i - 57) as char
    else ('a' as int + i - 60) as char
  }

  /** The decode map is zero outside the alphabet; 'z' to '~' stand behind the 85 letters that are used. */
  function LetterValue(c: char): nat {
    if '#' <= c <= '&' then c as int - '#' as int + 1
    else if '(' <= c <= '[' then c as int - '(' as int + 5
    else if ']' <= c <= '_' then c as int - ']' as int + 57
    else if 'a' <= c <= '~' then c as int - 'a' as int + 60
    else 0
  }

  /** The alphabet in the order of the characters: all from '!' to 'y' but these four. */
  lemma LettersAreTheAlphabet(i: nat, c: char)
    requires i < 85
    ensures '!' <= Letter(i) <= 'y' && Letter(i) !in {'"', '\'', '\\', '`'}
    ensures i > 0 ==> Letter(i - 1) < Letter(i)
    ensures '!' <= c <= 'y' && c !in {'"', '\'', '\\', '`'} ==> LetterValue(c) < 85 && Letter(LetterValue(c)) == c
  {}

  lemma LetterRoundTrip(i: nat)
    requires i < 85
    ensures LetterValue(Letter(i)) == i && Letter(i) as int < 128
  {}

  const TWO32: nat := 0x1_0000_0000

  /** ((a << 24) | (b << 16) | (c << 8) | d) >>> 0: the four lanes do not overlap. */
  function Pack(a: int, b: int, c: int, d: int): int {
    a * 0x100_0000 + b * 0x1_0000 + c * 0x100 + d
  }

  /** (v >>> 24) & 0xff, ..., v & 0xff, where >>> first reduces v modulo 2^32. */
  function Unpack(v: nat): (b: Bytes)
    ensures |b| == 4
  {
    Lanes(v % TWO32)
  }

  function Lanes(w: nat): (b: Bytes)
    requires w < TWO32
    ensures |b| == 4
  {
    [w / 0x100_0000, w / 0x1_0000 % 0x100, w / 0x100 % 0x100, w % 0x100]
  }

  lemma NestedLanes(w: nat)
    ensures w / 0x1_0000 == w / 0x100 / 0x100 && w / 0x100_0000 == w / 0x100 / 0x100 / 0x100
  {}

  lemma DivStep(high: nat, low: int)
    requires 0 <= low < 0x100
    ensures (high * 0x100 + low) / 0x100 == high && (high * 0x100 + low) % 0x100 == low
  {}

  lemma LanesOfPack(a: int, b: int, c: int, d: int)
    requires 0 <= a < 256 && 0 <= b < 256 && 0 <= c < 256 && 0 <= d < 256
    ensures
      var v := Pack(a, b, c, d);
      && 0 <= v < TWO32
      && v / 0x100_0000 == a && v / 0x1_0000 % 0x100 == b && v / 0x100 % 0x100 == c && v % 0x100 == d
  {
    var y := a * 0x100 + b;
    var x := y * 0x100 + c;
    var v := Pack(a, b, c, d);
    assert v == x * 0x100 + d;
    DivStep(a, b);
    DivStep(y, c);
    DivStep(x, d);
    NestedLanes(v);
  }

  lemma UnpackPack(a: Byte, b: Byte, c: Byte, d: Byte)
    ensures 0 <= Pack(a, b, c, d) < TWO32
    ensures Unpack(Pack(a, b, c, d)) == [a, b, c, d]
  {
    LanesOfPack(a, b, c, d);
    SmallMod(Pack(a, b, c, d));
  }

  lemma SmallMod(v: nat)
    requires v < TWO32
    ensures v % TWO32 == v
  {}

  /** Numbers that differ only below the first k lanes have the same first k lanes. */
  lemma TopLanes(v: nat, w: nat, k: nat)
    requires 1 <= k <= 4 && w < TWO32 && v <= w
    requires k == 1 ==> v % 0x100_0000 == 0 && w < v + 0x100_0000
    requires k == 2 ==> v % 0x1_0000 == 0 && w < v + 0x1_0000
    requires k == 3 ==> v % 0x100 == 0 && w < v + 0x100
    requires k == 4 ==> v == w
    ensures Unpack(w)[..k] == Unpack(v)[..k]
  {
    NestedLanes(v);
    NestedLanes(w);
    SmallMod(v);
    SmallMod(w);
    if k == 1 { assert w / 0x100_0000 == v / 0x100_0000; }
    else if k == 2 { assert w / 0x1_0000 == v / 0x1_0000; }
    else if k == 3 { assert w / 0x100 == v / 0x100; }
  }

  /** v after n rounds of Math.floor(v / 85). */
  function Quotient(v: nat, n: nat): nat {
    if n == 0 then v else Quotient(v, n - 1) / 85
  }

  lemma QuotientSteps(v: nat)
    ensures Quotient(v, 1) == v / 85 && Quotient(v, 2) == v / 85 / 85
    ensures Quotient(v, 3) == v / 85 / 85 / 85 && Quotient(v, 4) == v / 85 / 85 / 85 / 85
    ensures v / 7225 == v / 85 / 85 && v / 614125 == v / 85 / 85 / 85
    ensures v < TWO32 ==> Quotient(v, 4) < 85
  {
    assert Quotient(v, 0) == v;
    assert Quotient(v, 1) == Quotient(v, 0) / 85;
    assert Quotient(v, 2) == Quotient(v, 1) / 85;
    assert Quotient(v, 3) == Quotient(v, 2) / 85;
    assert Quotient(v, 4) == Quotient(v, 3) / 85;
  }

  function Digits(v: nat): string {
    [Letter(Quotient(v, 4) % 85), Letter(Quotient(v, 3) % 85), Letter(Quotient(v, 2) % 85),
        Letter(Quotient(v, 1) % 85), Letter(v % 85)]
  }

  /** The number a group of up to five characters stands for; a character beyond ASCII makes it NaN, which >>>
      reads as 0. */
  function Value(s: string): nat {
    if exists i :: 0 <= i < |s| && s[i] as int >= 128 then 0 else Sum(s)
  }

  function Sum(s: string): nat {
    if s == "" then 0 else Sum(s[..|s| - 1]) * 85 + LetterValue(s[|s| - 1])
  }

  /** A short last group is filled up with the digit 84, the letter 'y'. */
  function FillUp(s: string): string
    requires |s| <= 5
  {
    s + ("yyyyy")[|s|..]
  }

  function Encode(b: Bytes): string {
    if b == [] then ""
    else if |b| == 1 then Digits(Pack(b[0], 0, 0, 0))[..2]
    else if |b| == 2 then Digits(Pack(b[0], b[1], 0, 0))[..3]
    else if |b| == 3 then Digits(Pack(b[0], b[1], b[2], 0))[..4]
    else Digits(Pack(b[0], b[1], b[2], b[3])) + Encode(b[4..])
  }

  function Decode(s: string): Bytes {
    if s == "" then []
    else if |s| < 5 then Unpack(Value(FillUp(s)))[..|s| - 1]
    else Unpack(Value(s[..5])) + Decode(s[5..])
  }

  // ---------------------------------------------------------------- one group

  lemma SumOfFive(s: string)
    requires |s| == 5
    ensures Sum(s) ==
        LetterValue(s[0]) * 52200625 + LetterValue(s[1]) * 614125 + LetterValue(s[2]) * 7225 + LetterValue(s[3]) * 85
        + LetterValue(s[4])
  {
    assert s[..4][..3] == s[..3] && s[..3][..2] == s[..2] && s[..2][..1] == s[..1] && s[..1][..0] == "";
    assert Sum(s[..1]) == LetterValue(s[0]);
    assert Sum(s[..2]) == LetterValue(s[0]) * 85 + LetterValue(s[1]);
    assert Sum(s[..3]) == LetterValue(s[0]) * 7225 + LetterValue(s[1]) * 85 + LetterValue(s[2]);
    assert Sum(s[..4]) ==
        LetterValue(s[0]) * 614125 + LetterValue(s[1]) * 7225 + LetterValue(s[2]) * 85 + LetterValue(s[3]);
  }

  function LowWeight(k: nat): nat {
    if k == 5 then 1 else if k == 4 then 85 else if k == 3 then 7225 else 614125
  }

  /** Digit j of v, or 84 once the first k digits are used up. */
  function KeptDigit(v: nat, k: nat, j: nat): nat
    requires j < 5
  {
    if j < k then Quotient(v, 4 - j) % 85 else 84
  }

  lemma KeptDigits(v: nat, k: nat, j: nat)
    requires 2 <= k <= 5 && j < 5
    ensures |FillUp(Digits(v)[..k])| == 5 && LetterValue(FillUp(Digits(v)[..k])[j]) == KeptDigit(v, k, j)
  {
    LetterRoundTrip(KeptDigit(v, k, j));
    assert Letter(84) == 'y';
    assert Digits(v)[j] == Letter(Quotient(v, 4 - j) % 85);
  }

  lemma FilledIsAscii(v: nat, k: nat)
    requires 2 <= k <= 5
    ensures forall i :: 0 <= i < 5 ==> FillUp(Digits(v)[..k])[i] as int < 128
  {}

  lemma Recompose(v: nat, k: nat)
    requires v < TWO32 && 2 <= k <= 5
    ensures KeptDigit(v, k, 0) * 52200625 + KeptDigit(v, k, 1) * 614125 + KeptDigit(v, k, 2) * 7225
        + KeptDigit(v, k, 3) * 85 + KeptDigit(v, k, 4)
         == v / LowWeight(k) * LowWeight(k) + (LowWeight(k) - 1)
  {
    QuotientSteps(v);
    var q1, q2, q3, q4 := v / 85, v / 85 / 85, v / 85 / 85 / 85, v / 85 / 85 / 85 / 85;
    assert Quotient(v, 0) == v;
    assert q3 == q4 * 85 + q3 % 85 && q2 == q3 * 85 + q2 % 85 && q1 == q2 * 85 + q1 % 85 && v == q1 * 85 + v % 85;
  }

  /** Keeping the first k of five digits and filling up with 84 rounds up to one below the next multiple. */
  lemma DigitsRoundTrip(v: nat, k: nat)
    requires v < TWO32 && 2 <= k <= 5
    ensures Value(FillUp(Digits(v)[..k])) == v / LowWeight(k) * LowWeight(k) + (LowWeight(k) - 1)
  {
    KeptDigits(v, k, 0);
    KeptDigits(v, k, 1);
    KeptDigits(v, k, 2);
    KeptDigits(v, k, 3);
    KeptDigits(v, k, 4);
    FilledIsAscii(v, k);
    SumOfFive(FillUp(Digits(v)[..k]));
    Recompose(v, k);
  }

  lemma RoundUpBounds(v: nat, p: nat)
    requires p > 0
    ensures v <= v / p * p + (p - 1) < v + p
  {
    assert v == v / p * p + v % p;
  }

  lemma GroupRoundTrip(a: Byte, b: Byte, c: Byte, d: Byte, k: nat)
    requires 1 <= k <= 4 && (k < 4 ==> d == 0) && (k < 3 ==> c == 0) && (k < 2 ==> b == 0)
    ensures 0 <= Pack(a, b, c, d) < TWO32
    ensures Value(FillUp(Digits(Pack(a, b, c, d))[..k + 1])) < TWO32
    ensures Unpack(Value(FillUp(Digits(Pack(a, b, c, d))[..k + 1])))[..k] == [a, b, c, d][..k]
  {
    UnpackPack(a, b, c, d);
    var v := Pack(a, b, c, d);
    DigitsRoundTrip(v, k + 1);
    var w := Value(FillUp(Digits(v)[..k + 1]));
    RoundUpBounds(v, LowWeight(k + 1));
    ZeroLanes(a, b, c, d, k);
    TopLanes(v, w, k);
  }

  lemma ZeroLanes(a: nat, b: nat, c: nat, d: nat, k: nat)
    requires 1 <= k <= 4 && (k < 4 ==> d == 0) && (k < 3 ==> c == 0) && (k < 2 ==> b == 0)
    requires a < 256 && b < 256 && c < 256 && d < 256
    ensures k == 1 ==> Pack(a, b, c, d) % 0x100_0000 == 0 && Pack(a, b, c, d) + 0x100_0000 <= TWO32
    ensures k == 2 ==> Pack(a, b, c, d) % 0x1_0000 == 0 && Pack(a, b, c, d) + 0x1_0000 <= TWO32
    ensures k == 3 ==> Pack(a, b, c, d) % 0x100 == 0 && Pack(a, b, c, d) + 0x100 <= TWO32
  {
    if k == 2 { assert Pack(a, b, c, d) == (a * 0x100 + b) * 0x1_0000; }
    if k == 3 { assert Pack(a, b, c, d) == (a * 0x1_0000 + b * 0x100 + c) * 0x100; }
  }

  // ---------------------------------------------------------------- whole texts

  /** Every group of the text stands for a number below 2^32, so no shift ever drops a bit. */
  predicate GroupsFit(s: string) {
    s == "" || (if |s| < 5 then Value(FillUp(s)) < TWO32 else Value(s[..5]) < TWO32 && GroupsFit(s[5..]))
  }

  /** Main result: decoding gives back every octet string, full groups and 1-, 2- and 3-octet tails alike. */
  lemma {:induction false} RoundTrip(b: Bytes)
    ensures Decode(Encode(b)) == b
    ensures GroupsFit(Encode(b))
    ensures |Encode(b)| == |b| / 4 * 5 + (if |b| % 4 == 0 then 0 else |b| % 4 + 1)
  {
    if 0 < |b| < 4 {
      TailRoundTrip(b);
    } else if |b| >= 4 {
      RoundTrip(b[4..]);
      FullGroupRoundTrip(b);
    }
  }

  lemma TailRoundTrip(b: Bytes)
    requires 0 < |b| < 4
    ensures Decode(Encode(b)) == b && GroupsFit(Encode(b)) && |Encode(b)| == |b| + 1
  {
    var a, c, d := b[0], if |b| > 1 then b[1] else 0, if |b| > 2 then b[2] else 0;
    GroupRoundTrip(a, c, d, 0, |b|);
    assert b == [a, c, d, 0][..|b|];
  }

  /** The first group of digits decodes to the first four octets. */
  lemma FirstGroup(b: Bytes)
    requires |b| >= 4
    ensures 0 <= Pack(b[0], b[1], b[2], b[3])
    ensures var digits := Digits(Pack(b[0], b[1], b[2], b[3]));
      |digits| == 5 && Value(digits) < TWO32 && Unpack(Value(digits)) == b[..4]
  {
    GroupRoundTrip(b[0], b[1], b[2], b[3], 4);
    var digits := Digits(Pack(b[0], b[1], b[2], b[3]));
    assert digits[..5] == digits && FillUp(digits) == digits;
    var u := Unpack(Value(digits));
    assert u[..4] == u && [b[0], b[1], b[2], b[3]][..4] == b[..4];
  }

  lemma FullGroupRoundTrip(b: Bytes)
    requires |b| >= 4 && Decode(Encode(b[4..])) == b[4..] && GroupsFit(Encode(b[4..]))
    ensures Decode(Encode(b)) == b && GroupsFit(Encode(b)) && |Encode(b)| == 5 + |Encode(b[4..])|
  {
    FirstGroup(b);
    var digits, rest := Digits(Pack(b[0], b[1], b[2], b[3])), Encode(b[4..]);
    assert Encode(b) == digits + rest;
    assert (digits + rest)[..5] == digits && (digits + rest)[5..] == rest;
    assert b == b[..4] + b[4..];
  }

  lemma {:induction false} EncodeIsAscii(b: Bytes)
    ensures forall i :: 0 <= i < |Encode(b)| ==> Encode(b)[i] as int < 0x80
  {
    if |b| >= 4 { EncodeIsAscii(b[4..]); }
  }

  // ---------------------------------------------------------------- the loops

  /** The five digits of one group, last digit first. */
  method GroupDigits(v: nat) returns (group: array<char>)
    ensures fresh(group) && group[..] == Digits(v)
  {
    group := new char[5];
    var val, j := v, 4;
    while j >= 0
      invariant -1 <= j <= 4 && val == Quotient(v, 4 - j)
      invariant forall k :: j < k <= 4 ==> group[k] == Letter(Quotient(v, 4 - k) % 85)
    {
      group[j] := Letter(val % 85);
      val := val / 85;
      j := j - 1;
    }
    assert group[..] == [group[0], group[1], group[2], group[3], group[4]];
  }

  /** Writes src at out[at..]. */
  method Write<T>(out: array<T>, at: nat, src: seq<T>)
    requires at + |src| <= out.Length
    modifies out
    ensures out[..at + |src|] == old(out[..at]) + src
  {
    for k := 0 to |src|
      invariant out[..at + k] == old(out[..at]) + src[..k]
    {
      out[at + k] := src[k];
    }
  }

  /** Base-256 value of the tail, shifted to the top of the word. */
  method TailWord(rest: Bytes) returns (v: nat)
    requires 1 <= |rest| <= 3
    ensures v == Pack(rest[0], if |rest| > 1 then rest[1] else 0, if |rest| > 2 then rest[2] else 0, 0)
  {
    v := 0;
    for i := 0 to |rest|
      invariant v == Horner(rest[..i])
    {
      assert rest[..i + 1][..i] == rest[..i];
      v := v * 256 + rest[i];
    }
    assert rest[..|rest|] == rest;
    TailHorner(rest);
    ghost var high := v;
    for i := 0 to 4 - |rest|
      invariant v == Shifted(high, i)
    {
      v := v * 256;
    }
  }

  function Horner(b: Bytes): nat {
    if b == [] then 0 else Horner(b[..|b| - 1]) * 256 + b[|b| - 1]
  }

  function Shifted(v: nat, n: nat): nat { if n == 0 then v else Shifted(v, n - 1) * 256 }

  lemma TailHorner(b: Bytes)
    requires 1 <= |b| <= 3
    ensures Shifted(Horner(b), 4 - |b|) == Pack(b[0], if |b| > 1 then b[1] else 0, if |b| > 2 then b[2] else 0, 0)
  {
    var x, y, z: int := b[0], if |b| > 1 then b[1] else 0, if |b| > 2 then b[2] else 0;
    assert b[..1] == [b[0]] && Horner([b[0]]) == x;
    if |b| == 1 {
      assert b == [b[0]];
      assert Shifted(x, 1) == x * 256 && Shifted(x, 2) == x * 256 * 256;
    } else if |b| == 2 {
      assert Horner(b) == x * 256 + y;
      assert Shifted(x * 256 + y, 1) == (x * 256 + y) * 256;
    } else {
      assert b[..2][..1] == b[..1];
      assert Horner(b[..2]) == x * 256 + y;
      assert Horner(b) == (x * 256 + y) * 256 + z;
    }
  }

  /** The loop over the full groups. */
  method EncodeFullGroups(buf: Bytes, chars: array<char>, fullGroups: nat)
    requires fullGroups * 4 <= |buf| && fullGroups * 5 <= chars.Length
    modifies chars
    ensures chars[..fullGroups * 5] + Encode(buf[fullGroups * 4..]) == Encode(buf)
  {
    assert buf[0..] == buf;
    for g := 0 to fullGroups
      invariant chars[..g * 5] + Encode(buf[g * 4..]) == Encode(buf)
    {
      var i := g * 4;
      EncodeUnfolds(buf, i);
      var v := Pack(buf[i], buf[i + 1], buf[i + 2], buf[i + 3]);
      var group := GroupDigits(v);
      ghost var done := chars[..g * 5];
      Write(chars, g * 5, group[..]);
      assert chars[..(g + 1) * 5] == done + Digits(v);
      Associate(done, Digits(v), Encode(buf[i + 4..]));
    }
  }

  lemma Associate<T>(a: seq<T>, b: seq<T>, c: seq<T>)
    ensures a + (b + c) == a + b + c
  {}

  lemma EncodeUnfolds(buf: Bytes, i: nat)
    requires i + 4 <= |buf|
    ensures 0 <= Pack(buf[i], buf[i + 1], buf[i + 2], buf[i + 3])
    ensures Encode(buf[i..]) == Digits(Pack(buf[i], buf[i + 1], buf[i + 2], buf[i + 3])) + Encode(buf[i + 4..])
  {
    UnpackPack(buf[i], buf[i + 1], buf[i + 2], buf[i + 3]);
    assert buf[i..][4..] == buf[i + 4..];
  }

  method EncodeBase85(buf: Bytes) returns (encoded: string)
    ensures encoded == Encode(buf)
  {
    var len := |buf|;
    if len == 0 { return ""; }
    var fullGroups, remainder := len / 4, len % 4;
    var chars := new char[fullGroups * 5 + (if remainder > 0 then remainder + 1 else 0)];
    EncodeFullGroups(buf, chars, fullGroups);
    if remainder > 0 {
      var v := TailWord(buf[fullGroups * 4..]);
      var group := GroupDigits(v);
      Write(chars, fullGroups * 5, group[..remainder + 1]);
    } else {
      assert buf[fullGroups * 4..] == [];
      assert chars[..fullGroups * 5] == chars[..];
    }
    encoded := chars[..];
  }

  /** One group of characters as a number. */
  method GroupValue(s: string) returns (val: nat)
    ensures val == Value(s)
  {
    val := 0;
    var nan := false;
    for j := 0 to |s|
      invariant val == Sum(s[..j])
      invariant nan <==> exists i :: 0 <= i < j && s[i] as int >= 128
    {
      assert s[..j + 1][..j] == s[..j];
      nan := nan || s[j] as int >= 128;
      val := val * 85 + LetterValue(s[j]);
    }
    assert s[..|s|] == s;
    if nan { val := 0; }
  }

  method DecodeFullGroups(encoded: string, result: array<Byte>, fullGroups: nat)
    requires fullGroups * 5 <= |encoded| && fullGroups * 4 <= result.Length
    modifies result
    ensures result[..fullGroups * 4] + Decode(encoded[fullGroups * 5..]) == Decode(encoded)
  {
    assert encoded[0..] == encoded;
    for g := 0 to fullGroups
      invariant result[..g * 4] + Decode(encoded[g * 5..]) == Decode(encoded)
    {
      var i, ri := g * 5, g * 4;
      var val := GroupValue(encoded[i..i + 5]);
      var lanes := Unpack(val);
      ghost var done := result[..ri];
      Write(result, ri, lanes);
      DecodeUnfolds(encoded, i);
      Associate(done, lanes, Decode(encoded[i + 5..]));
    }
  }

  lemma DecodeUnfolds(s: string, i: nat)
    requires i + 5 <= |s|
    ensures Decode(s[i..]) == Unpack(Value(s[i..i + 5])) + Decode(s[i + 5..])
  {
    assert s[i..][..5] == s[i..i + 5] && s[i..][5..] == s[i + 5..];
  }

  method DecodeBase85(encoded: string) returns (decoded: Bytes)
    ensures decoded == Decode(encoded)
  {
    var len := |encoded|;
    if len == 0 { return []; }
    var fullGroups, remainder := len / 5, len % 5;
    var result := new Byte[fullGroups * 4 + (if remainder > 0 then remainder - 1 else 0)];
    DecodeFullGroups(encoded, result, fullGroups);
    var ri := fullGroups * 4;
    if remainder > 0 {
      var val := GroupValue(FillUp(encoded[fullGroups * 5..]));
      var lanes := Unpack(val);
      Write(result, ri, lanes[..remainder - 1]);
    } else {
      assert encoded[fullGroups * 5..] == "";
    }
    decoded := result[..];
  }
}
