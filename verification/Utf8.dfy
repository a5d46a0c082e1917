/** UTF-8 (section 3 of RFC 3629); a string is well-formed text. */
module Utf8 {
  import opened Bytes
  import opened Wrappers

  function EncodeChar(c: char): (b: Bytes)
    ensures 1 <= |b| <= 4
  {
    var n := c as int;
    if n < 0x80 then [n]
    else if n < 0x800 then [0xC0 + n / 0x40, 0x80 + n % 0x40]
    else if n < 0x10000 then [0xE0 + n / 0x1000, 0x80 + n / 0x40 % 0x40, 0x80 + n % 0x40]
    else [0xF0 + n / 0x40000, 0x80 + n / 0x1000 % 0x40, 0x80 + n / 0x40 % 0x40, 0x80 + n % 0x40]
  }

  function Encode(s: string): Bytes {
    if s == "" then [] else EncodeChar(s[0]) + Encode(s[1..])
  }

  /** The number of octets the sequence starting with this octet has; 0 if none starts with it. */
  function SequenceLength(lead: Byte): nat {
    if lead < 0x80 then 1
    else if 0xC2 <= lead < 0xE0 then 2
    else if 0xE0 <= lead < 0xF0 then 3
    else if 0xF0 <= lead < 0xF5 then 4
    else 0
  }

  predicate IsContinuation(b: Byte) { 0x80 <= b < 0xC0 }

  function Scalar(n: int): Option<char> {
    if 0 <= n < 0xD800 || 0xE000 <= n < 0x110000 then Some(n as char) else None
  }

  /** One complete sequence; overlong forms, surrogates and values above U+10FFFF are malformed. */
  function DecodeChar(b: Bytes): Option<char>
    requires b != [] && |b| == SequenceLength(b[0])
  {
    if exists i :: 1 <= i < |b| && !IsContinuation(b[i]) then None
    else if |b| == 1 then Scalar(b[0])
    else if |b| == 2 then Scalar(Value2(b[0], b[1]))
    else if |b| == 3 then
      if Value3(b[0], b[1], b[2]) < 0x800 then None else Scalar(Value3(b[0], b[1], b[2]))
    else
      if Value4(b[0], b[1], b[2], b[3]) < 0x10000 then None else Scalar(Value4(b[0], b[1], b[2], b[3]))
  }

  function Value2(a: int, b: int): int { (a - 0xC0) * 0x40 + (b - 0x80) }
  function Value3(a: int, b: int, c: int): int { (a - 0xE0) * 0x1000 + (b - 0x80) * 0x40 + (c - 0x80) }
  function Value4(a: int, b: int, c: int, d: int): int {
    (a - 0xF0) * 0x40000 + (b - 0x80) * 0x1000 + (c - 0x80) * 0x40 + (d - 0x80)
  }

  function Decode(b: Bytes): Option<string> {
    if b == [] then Some("")
    else
      var n := SequenceLength(b[0]);
      if n == 0 || |b| < n then None
      else
        var c, rest := DecodeChar(b[..n]), Decode(b[n..]);
        if c.None? || rest.None? then None else Some([c.value] + rest.value)
  }

  lemma ValuesRoundTrip(n: nat)
    requires n < 0x110000
    ensures Value2(0xC0 + n / 0x40, 0x80 + n % 0x40) == n
    ensures Value3(0xE0 + n / 0x1000, 0x80 + n / 0x40 % 0x40, 0x80 + n % 0x40) == n
    ensures Value4(0xF0 + n / 0x40000, 0x80 + n / 0x1000 % 0x40, 0x80 + n / 0x40 % 0x40, 0x80 + n % 0x40) == n
  {
    var c := n / 0x40;
    var d := n / 0x1000;
    assert c / 0x40 == d && d / 0x40 == n / 0x40000;
  }

  lemma CharRoundTrip(c: char)
    ensures SequenceLength(EncodeChar(c)[0]) == |EncodeChar(c)|
    ensures DecodeChar(EncodeChar(c)) == Some(c)
  {
    var n := c as int;
    ValuesRoundTrip(n);
    assert Scalar(n) == Some(c);
    if n < 0x80 {
    } else if n < 0x800 {
      assert EncodeChar(c) == [0xC0 + n / 0x40, 0x80 + n % 0x40];
    } else if n < 0x10000 {
      assert EncodeChar(c) == [0xE0 + n / 0x1000, 0x80 + n / 0x40 % 0x40, 0x80 + n % 0x40];
    } else {
      assert EncodeChar(c) == [0xF0 + n / 0x40000, 0x80 + n / 0x1000 % 0x40, 0x80 + n / 0x40 % 0x40, 0x80 + n % 0x40];
    }
  }

  lemma {:induction false} RoundTrip(s: string)
    ensures Decode(Encode(s)) == Some(s)
  {
    if s != "" {
      CharRoundTrip(s[0]);
      RoundTrip(s[1..]);
      var c, rest := EncodeChar(s[0]), Encode(s[1..]);
      assert Encode(s) == c + rest;
      assert (c + rest)[..|c|] == c && (c + rest)[|c|..] == rest && (c + rest)[0] == c[0];
      assert [s[0]] + s[1..] == s;
    }
  }

  /** The examples of section 7 of RFC 3629: A, not identical to, capital alpha, and a scalar above U+FFFF. */
  lemma KnownEncodings()
    ensures EncodeChar(0x41 as char) == [0x41] && EncodeChar(0x391 as char) == [0xCE, 0x91]
    ensures EncodeChar(0x2262 as char) == [0xE2, 0x89, 0xA2]
    ensures EncodeChar(0x233B4 as char) == [0xF0, 0xA3, 0x8E, 0xB4]
  {}
}
