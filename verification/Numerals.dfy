/**
 Positional numerals.  base62 values, base-36 attribute keys, hexadecimal and decimal all use a
 prefix of one digit alphabet: 0-9, then a-z, then A-Z.
*/
module Numerals {
  import opened Wrappers

  function Digit(i: nat): (c: char)
    requires i < 62
  {
    if i < 10 then ('0' as int + i) as char
    else if i < 36 then ('a' as int + i - 10) as char
    else ('A' as int + i - 36) as char
  }

  function DigitValue(c: char): Option<nat> {
    if '0' <= c <= '9' then Some(c as int - '0' as int)
    else if 'a' <= c <= 'z' then Some(c as int - 'a' as int + 10)
    else if 'A' <= c <= 'Z' then Some(c as int - 'A' as int + 36)
    else None
  }

  /** The alphabet: 0 to 9, a to z, A to Z, each run in the order of the characters. */
  lemma DigitsAreTheAlphabet(i: nat)
    requires i < 62
    ensures Digit(0) == '0' && Digit(9) == '9' && Digit(10) == 'a' && Digit(35) == 'z'
    ensures Digit(36) == 'A' && Digit(61) == 'Z'
    ensures i !in {9, 35, 61} ==> Digit(i + 1) as int == Digit(i) as int + 1
  {}

  lemma DigitRoundTrip(i: nat)
    requires i < 62
    ensures DigitValue(Digit(i)) == Some(i)
  {}

  predicate IsDigit(base: nat, c: char) {
    DigitValue(c).Some? && DigitValue(c).value < base
  }

  predicate IsNumeral(base: nat, s: string) {
    forall i :: 0 <= i < |s| ==> IsDigit(base, s[i])
  }

  type Base = b: nat | 2 <= b <= 62 witness 10

  function Encode(base: Base, n: nat): (s: string)
    ensures s != [] && IsNumeral(base, s)
  {
    if n < base then DigitRoundTrip(n); [Digit(n)]
    else
      DivShrinks(n, base);
      DigitRoundTrip(n % base);
      Encode(base, n / base) + [Digit(n % base)]
  }

  /** The empty string reads as 0 and a character that is no digit of the base as not-a-number. */
  function Decode(base: Base, s: string): (n: Option<nat>)
    ensures n.Some? <==> IsNumeral(base, s)
  {
    if s == [] then Some(0)
    else
      var k := |s| - 1;
      assert s == s[..k] + [s[k]];
      var high, low := Decode(base, s[..k]), DigitValue(s[k]);
      if high.None? || low.None? || low.value >= base then None
      else
        assert high.value * base >= 0;
        Some(high.value * base + low.value)
  }

  function Pow(base: nat, e: nat): nat {
    if e == 0 then 1 else base * Pow(base, e - 1)
  }

  function Repeat(c: char, n: nat): (r: string)
    ensures |r| == n && forall i :: 0 <= i < n ==> r[i] == c
  {
    if n == 0 then [] else [c] + Repeat(c, n - 1)
  }

  function PadStart(s: string, width: nat, c: char): string {
    if |s| >= width then s else Repeat(c, width - |s|) + s
  }

  lemma DivShrinks(n: nat, base: nat)
    requires 2 <= base <= n
    ensures 0 < n / base < n && n == (n / base) * base + n % base
  {
    assert n == base * (n / base) + n % base;
  }

  lemma MulLess(a: nat, b: nat, c: nat)
    requires a < b
    ensures a * c + c <= b * c
  {
    assert (a + 1) * c <= b * c;
  }

  lemma DivLess(n: nat, base: nat, p: nat)
    requires base >= 1
    ensures n < base * p <==> n / base < p
  {
    assert n == base * (n / base) + n % base;
    if n / base < p { MulLess(n / base, p, base); }
    if n / base >= p { assert base * (n / base) >= base * p; }
  }

  lemma {:induction false} DecodeEncode(base: Base, n: nat)
    ensures Decode(base, Encode(base, n)) == Some(n)
  {
    if n < base {
      DigitRoundTrip(n);
      assert Encode(base, n)[..0] == [];
    } else {
      DivShrinks(n, base);
      DecodeEncode(base, n / base);
      DigitRoundTrip(n % base);
      var s := Encode(base, n);
      assert s[..|s| - 1] == Encode(base, n / base);
    }
  }

  /** No numeral but that of zero begins with a zero. */
  lemma {:induction false} NoLeadingZero(base: Base, n: nat)
    requires n > 0
    ensures Encode(base, n)[0] != '0'
  {
    if n >= base {
      DivShrinks(n, base);
      NoLeadingZero(base, n / base);
    }
  }

  lemma EncodeInjective(base: Base, m: nat, n: nat)
    ensures Encode(base, m) == Encode(base, n) ==> m == n
  {
    DecodeEncode(base, m);
    DecodeEncode(base, n);
  }

  /** A number has at most w digits exactly when it is below base to the w. */
  lemma {:induction false} EncodeLength(base: Base, n: nat, w: nat)
    requires w >= 1
    ensures |Encode(base, n)| <= w <==> n < Pow(base, w)
  {
    if n < base {
      PowAtLeast(base, w);
    } else {
      DivShrinks(n, base);
      if w == 1 {
        assert Pow(base, 1) == base * Pow(base, 0);
      } else {
        EncodeLength(base, n / base, w - 1);
        DivLess(n, base, Pow(base, w - 1));
      }
    }
  }

  lemma {:induction false} PowAtLeast(base: Base, w: nat)
    requires w >= 1
    ensures Pow(base, w) >= base
  {
    if w == 1 {
      assert Pow(base, 1) == base * Pow(base, 0);
    } else {
      PowAtLeast(base, w - 1);
      assert base * Pow(base, w - 1) >= 1 * Pow(base, w - 1);
    }
  }

  lemma {:induction false} DecodeBound(base: Base, s: string)
    requires IsNumeral(base, s)
    ensures Decode(base, s).value < Pow(base, |s|)
  {
    if s != [] {
      var k := |s| - 1;
      DecodeBound(base, s[..k]);
      MulLess(Decode(base, s[..k]).value, Pow(base, k), base);
    }
  }

  lemma {:induction false} LeadingZero(base: Base, s: string)
    requires IsNumeral(base, s)
    ensures IsNumeral(base, ['0'] + s) && Decode(base, ['0'] + s) == Decode(base, s)
  {
    assert IsNumeral(base, ['0'] + s);
    if s == [] {
      assert (['0'] + s)[..0] == [];
    } else {
      var k := |s| - 1;
      LeadingZero(base, s[..k]);
      assert (['0'] + s)[..k + 1] == ['0'] + s[..k];
    }
  }

  lemma {:induction false} LeadingZeros(base: Base, s: string, k: nat)
    requires IsNumeral(base, s)
    ensures IsNumeral(base, Repeat('0', k) + s) && Decode(base, Repeat('0', k) + s) == Decode(base, s)
  {
    if k == 0 {
      assert Repeat('0', 0) + s == s;
    } else {
      LeadingZeros(base, s, k - 1);
      LeadingZero(base, Repeat('0', k - 1) + s);
      assert Repeat('0', k) + s == ['0'] + (Repeat('0', k - 1) + s);
    }
  }

  /** String(n) */
  function Decimal(n: nat): string { Encode(10, n) }

  function Fixed(base: Base, n: nat, width: nat): string {
    PadStart(Encode(base, n), width, '0')
  }

  /** Fixed-width form of a number that fits the width: that many digits, and it reads back. */
  lemma FixedRoundTrip(base: Base, n: nat, width: nat)
    requires width >= 1
    ensures |Fixed(base, n, width)| == width <==> n < Pow(base, width)
    ensures Decode(base, Fixed(base, n, width)) == Some(n)
    ensures IsNumeral(base, Fixed(base, n, width))
  {
    EncodeLength(base, n, width);
    if |Encode(base, n)| < width { LeadingZeros(base, Encode(base, n), width - |Encode(base, n)|); }
    DecodeEncode(base, n);
  }

  lemma {:induction false} EqualLengthInjective(base: Base, s: string, t: string)
    requires IsNumeral(base, s) && IsNumeral(base, t) && |s| == |t|
    requires Decode(base, s) == Decode(base, t)
    ensures s == t
  {
    if s != [] {
      var k := |s| - 1;
      var a, b := Decode(base, s[..k]).value, Decode(base, t[..k]).value;
      var x, y := DigitValue(s[k]).value, DigitValue(t[k]).value;
      if a < b { MulLess(a, b, base); } else if b < a { MulLess(b, a, base); }
      assert a == b && x == y;
      EqualLengthInjective(base, s[..k], t[..k]);
      assert s == s[..k] + [s[k]] && t == t[..k] + [t[k]];
    }
  }

  /** Reading a digit string and printing it back at its own width gives the string. */
  lemma FixedOfDecode(base: Base, s: string)
    requires s != [] && IsNumeral(base, s)
    ensures Fixed(base, Decode(base, s).value, |s|) == s
  {
    var n := Decode(base, s).value;
    DecodeBound(base, s);
    FixedRoundTrip(base, n, |s|);
    EqualLengthInjective(base, Fixed(base, n, |s|), s);
  }

  // ---------------------------------------------------------------- the loops of base62.ts

  lemma EncodeStep(base: Base, n: nat)
    ensures n >= base ==> 0 < n / base < n && Encode(base, n) == Encode(base, n / base) + [Digit(n % base)]
    ensures n < base ==> n / base == 0 && n % base == n && Encode(base, n) == [Digit(n)]
  {
    if n >= base { DivShrinks(n, base); }
  }

  /** encode and encodeKey: digits are prepended while something is left. */
  method EncodeLoop(base: Base, n: nat) returns (s: string)
    ensures s == Encode(base, n)
  {
    if n == 0 {
      EncodeStep(base, 0);
      return [Digit(0)];
    }
    var m := n;
    s := "";
    while m > 0
      invariant m >= 0
      invariant m > 0 ==> Encode(base, m) + s == Encode(base, n)
      invariant m == 0 ==> s == Encode(base, n)
    {
      EncodeStep(base, m);
      var d := [Digit(m % base)];
      assert m >= base ==> Encode(base, m / base) + (d + s) == (Encode(base, m / base) + d) + s;
      s := d + s;
      m := m / base;
    }
  }

  method DecodeLoop(base: Base, s: string) returns (r: Option<nat>)
    ensures r == Decode(base, s)
  {
    var value := 0;
    for i := 0 to |s|
      invariant Decode(base, s[..i]) == Some(value)
    {
      assert s[..i + 1][..i] == s[..i];
      var d := DigitValue(s[i]);
      if d.None? || d.value >= base {
        assert !IsNumeral(base, s);
        return None;
      }
      assert value * base >= 0;
      value := value * base + d.value;
    }
    assert s[..|s|] == s;
    r := Some(value);
  }
}
