/** Base64 (section 4 of RFC 4648) as Node writes and reads it. */
module Base64 {
  import opened Bytes
  import opened Wrappers

  type Sextet = i: int | 0 <= i < 64

  function Letter(i: Sextet): char {
    if i < 26 then ('A' as int + i) as char
    else if i < 52 then ('a' as int + i - 26) as char
    else if i < 62 then ('0' as int + i - 52) as char
    else if i == 62 then '+' else '/'
  }

  function LetterValue(c: char): Option<Sextet> {
    if 'A' <= c <= 'Z' then Some(c as int - 'A' as int)
    else if 'a' <= c <= 'z' then Some(c as int - 'a' as int + 26)
    else if '0' <= c <= '9' then Some(c as int - '0' as int + 52)
    else if c == '+' then Some(62)
    else if c == '/' then Some(63)
    else None
  }

  /** The alphabet of table 1 of RFC 4648: A to Z, a to z, 0 to 9, plus and slash. */
  lemma LettersAreTheAlphabet(i: Sextet)
    ensures Letter(0) == 'A' && Letter(26) == 'a' && Letter(52) == '0' && Letter(62) == '+' && Letter(63) == '/'
    ensures i !in {25, 51, 61, 62, 63} ==> Letter(i + 1) as int == Letter(i) as int + 1
  {}

  lemma LetterRoundTrip(i: Sextet)
    ensures LetterValue(Letter(i)) == Some(i) && Letter(i) != '='
  {}

  /** Groups of three octets as four sextets; a short last group gives one sextet more than it has octets. */
  function Sextets(b: Bytes): seq<Sextet> {
    if b == [] then []
    else if |b| == 1 then [b[0] / 4, b[0] % 4 * 16]
    else if |b| == 2 then [b[0] / 4, b[0] % 4 * 16 + b[1] / 16, b[1] % 16 * 4]
    else [b[0] / 4, b[0] % 4 * 16 + b[1] / 16, b[1] % 16 * 4 + b[2] / 64, b[2] % 64] + Sextets(b[3..])
  }

  function Octet1(p: int, q: int): int { p * 4 + q / 16 }
  function Octet2(q: int, r: int): int { q % 16 * 16 + r / 4 }
  function Octet3(r: int, t: int): int { r % 4 * 64 + t }

  /** Left-over bits are dropped. */
  function Octets(x: seq<Sextet>): Bytes {
    if |x| < 2 then []
    else if |x| == 2 then [Octet1(x[0], x[1])]
    else if |x| == 3 then [Octet1(x[0], x[1]), Octet2(x[1], x[2])]
    else [Octet1(x[0], x[1]), Octet2(x[1], x[2]), Octet3(x[2], x[3])] + Octets(x[4..])
  }

  function Letters(x: seq<Sextet>): string {
    seq(|x|, i requires 0 <= i < |x| => Letter(x[i]))
  }

  function Values(s: string): Option<seq<Sextet>> {
    if s == "" then Some([])
    else
      var v, rest := LetterValue(s[0]), Values(s[1..]);
      if v.None? || rest.None? then None else Some([v.value] + rest.value)
  }

  function Padding(n: nat): string {
    if n % 3 == 1 then "==" else if n % 3 == 2 then "=" else ""
  }

  function Encode(b: Bytes): string { Letters(Sextets(b)) + Padding(|b|) }

  function StripPadding(s: string): string {
    if s != "" && s[|s| - 1] == '=' then StripPadding(s[..|s| - 1]) else s
  }

  /**
   The lenient decoder, on texts over the alphabet: padding is optional.  What it skips in other
   texts is not modelled; they read as None.
  */
  function Decode(s: string): Option<Bytes> {
    var x := Values(StripPadding(s));
    if x.None? then None else Some(Octets(x.value))
  }

  lemma {:induction false} SextetsRoundTrip(b: Bytes)
    ensures Octets(Sextets(b)) == b
    ensures b != [] ==> Sextets(b) != []
  {
    if |b| == 2 {
      GroupRoundTrip(b[0], b[1], 0);
    } else if |b| >= 3 {
      SextetsRoundTrip(b[3..]);
      GroupRoundTrip(b[0], b[1], b[2]);
      assert Sextets(b)[4..] == Sextets(b[3..]);
      assert b == [b[0], b[1], b[2]] + b[3..];
    }
  }

  lemma GroupRoundTrip(a: Byte, b: Byte, c: Byte)
    ensures Octet1(a / 4, a % 4 * 16 + b / 16) == a
    ensures Octet2(a % 4 * 16 + b / 16, b % 16 * 4 + c / 64) == b
    ensures Octet3(b % 16 * 4 + c / 64, c % 64) == c
  {}

  lemma {:induction false} LettersRoundTrip(x: seq<Sextet>)
    ensures Values(Letters(x)) == Some(x)
  {
    if x != [] {
      LetterRoundTrip(x[0]);
      LettersRoundTrip(x[1..]);
      assert Letters(x)[1..] == Letters(x[1..]) && Letters(x)[0] == Letter(x[0]);
      assert [x[0]] + x[1..] == x;
    }
  }

  lemma StripPaddingOfEncode(b: Bytes)
    ensures StripPadding(Encode(b)) == Letters(Sextets(b))
  {
    var s := Letters(Sextets(b));
    if s != "" { LetterRoundTrip(Sextets(b)[|s| - 1]); }
    assert StripPadding(s) == s;
    assert s + "" == s;
    assert (s + "=")[..|s|] == s;
    assert (s + "==")[..|s| + 1] == s + "=";
  }

  lemma RoundTrip(b: Bytes)
    ensures Decode(Encode(b)) == Some(b)
  {
    StripPaddingOfEncode(b);
    LettersRoundTrip(Sextets(b));
    SextetsRoundTrip(b);
  }

  function Bits(p: int, q: int, r: int, t: int): int { p * 0x4_0000 + q * 0x1000 + r * 0x40 + t }

  /** Three octets are the 24 bits of four letters. */
  lemma GroupIsItsBits(a: Byte, b: Byte, c: Byte)
    ensures var x := Sextets([a, b, c]);
      |x| == 4 && Bits(x[0], x[1], x[2], x[3]) == (a as int) * 0x1_0000 + (b as int) * 0x100 + c
  {
    assert [a, b, c][3..] == [];
  }

  lemma EncodeNotEmpty(b: Bytes)
    ensures b != [] ==> Encode(b) != ""
  {
    SextetsRoundTrip(b);
  }

  lemma EncodeHasNoSpace(b: Bytes)
    ensures forall i :: 0 <= i < |Encode(b)| ==> ' ' < Encode(b)[i] <= 'z'
  {}
}
