/** Percent-encoded UTF-8 (section 2.1 of RFC 3986). */
module PercentEncoding {
  import opened Bytes
  import opened Wrappers
  import Utf8

  predicate IsUnreserved(c: char) {
    'A' <= c <= 'Z' || 'a' <= c <= 'z' || '0' <= c <= '9' || c in {'-', '_', '.', '!', '~', '*', '\'', '(', ')'}
  }

  function HexDigit(i: nat): char
    requires i < 16
  {
    if i < 10 then ('0' as int + i) as char else ('A' as int + i - 10) as char
  }

  function HexValue(c: char): Option<nat> {
    if '0' <= c <= '9' then Some(c as int - '0' as int)
    else if 'A' <= c <= 'F' then Some(c as int - 'A' as int + 10)
    else if 'a' <= c <= 'f' then Some(c as int - 'a' as int + 10)
    else None
  }

  function Triplet(b: Byte): string {
    ['%', HexDigit(b / 16), HexDigit(b % 16)]
  }

  function Triplets(b: Bytes): string {
    if b == [] then "" else Triplet(b[0]) + Triplets(b[1..])
  }

  function Encode(s: string): string {
    if s == "" then ""
    else (if IsUnreserved(s[0]) then [s[0]] else Triplets(Utf8.EncodeChar(s[0]))) + Encode(s[1..])
  }

  /** The octets of the first n triplets. */
  function ReadOctets(s: string, n: nat): Option<Bytes> {
    if n == 0 then Some([])
    else if |s| < 3 || s[0] != '%' then None
    else
      var high, low, rest := HexValue(s[1]), HexValue(s[2]), ReadOctets(s[3..], n - 1);
      if high.None? || low.None? || rest.None? || high.value >= 16 || low.value >= 16 then None
      else Some([high.value * 16 + low.value] + rest.value)
  }

  lemma {:induction false} ReadOctetsLength(s: string, n: nat)
    ensures ReadOctets(s, n).Some? ==> |ReadOctets(s, n).value| == n && 3 * n <= |s|
  {
    if n > 0 && |s| >= 3 { ReadOctetsLength(s[3..], n - 1); }
  }

  /** None is the URIError. */
  function Decode(s: string): Option<string>
    decreases |s|
  {
    if s == "" then Some("")
    else if s[0] != '%' then
      var rest := Decode(s[1..]);
      if rest.None? then None else Some([s[0]] + rest.value)
    else
      var lead := ReadOctets(s, 1);
      ReadOctetsLength(s, 1);
      if lead.None? || Utf8.SequenceLength(lead.value[0]) == 0 then None
      else
        var n := Utf8.SequenceLength(lead.value[0]);
        var octets := ReadOctets(s, n);
        ReadOctetsLength(s, n);
        if octets.None? || Utf8.SequenceLength(octets.value[0]) != n then None
        else
          var c, rest := Utf8.DecodeChar(octets.value), Decode(s[3 * n..]);
          if c.None? || rest.None? then None else Some([c.value] + rest.value)
  }

  lemma HexRoundTrip(i: nat)
    requires i < 16
    ensures HexValue(HexDigit(i)) == Some(i)
  {}

  lemma ReadTriplet(x: Byte, tail: string, n: nat)
    requires n > 0 && ReadOctets(tail, n - 1).Some?
    ensures ReadOctets(Triplet(x) + tail, n) == Some([x] + ReadOctets(tail, n - 1).value)
  {
    HexRoundTrip(x / 16);
    HexRoundTrip(x % 16);
    assert (Triplet(x) + tail)[3..] == tail;
  }

  lemma {:induction false} TripletsRoundTrip(b: Bytes, rest: string, n: nat)
    requires n <= |b|
    ensures |Triplets(b)| == 3 * |b|
    ensures ReadOctets(Triplets(b) + rest, n) == Some(b[..n])
  {
    if b != [] {
      var tail := Triplets(b[1..]) + rest;
      if n > 0 {
        assert b[..n] == [b[0]] + b[1..][..n - 1];
        assert Triplets(b) + rest == Triplet(b[0]) + tail;
        TripletsRoundTrip(b[1..], rest, n - 1);
        ReadTriplet(b[0], tail, n);
      } else {
        TripletsRoundTrip(b[1..], rest, 0);
      }
    }
  }

  lemma EncodedCharRoundTrip(c: char, rest: string)
    requires Decode(rest).Some?
    ensures Decode(Triplets(Utf8.EncodeChar(c)) + rest) == Some([c] + Decode(rest).value)
  {
    var b := Utf8.EncodeChar(c);
    var s := Triplets(b) + rest;
    Utf8.CharRoundTrip(c);
    TripletsRoundTrip(b, rest, 1);
    TripletsRoundTrip(b, rest, |b|);
    assert b[..|b|] == b && b[..1] == [b[0]];
    assert s[0] == '%';
    assert s[3 * |b|..] == rest;
  }

  lemma {:induction false} RoundTrip(s: string)
    ensures Decode(Encode(s)) == Some(s)
  {
    if s != "" {
      RoundTrip(s[1..]);
      var rest := Encode(s[1..]);
      assert s == [s[0]] + s[1..];
      if IsUnreserved(s[0]) {
        assert ([s[0]] + rest)[1..] == rest;
      } else {
        EncodedCharRoundTrip(s[0], rest);
      }
    }
  }

  /** A text is its own encoding exactly when all its characters are letters, digits or one of these nine marks. */
  lemma {:induction false} KeptIff(s: string)
    ensures |Encode(s)| >= |s|
    ensures Encode(s) == s <==> forall i :: 0 <= i < |s| ==> IsUnreserved(s[i])
  {
    if s != "" {
      KeptIff(s[1..]);
      var octets := Utf8.EncodeChar(s[0]);
      TripletsRoundTrip(octets, "", 0);
      assert s == [s[0]] + s[1..];
      if IsUnreserved(s[0]) {
        assert Encode(s)[1..] == Encode(s[1..]);
      } else {
        assert |Encode(s)| > |s|;
      }
    }
  }

  predicate IsUpperHex(c: char) { '0' <= c <= '9' || 'A' <= c <= 'F' }

  /** A percent sign and two upper-case hexadecimal digits. */
  predicate IsTriplet(t: string, octet: int) {
    && |t| == 3 && t[0] == '%' && IsUpperHex(t[1]) && IsUpperHex(t[2])
    && HexValue(t[1]).value * 16 + HexValue(t[2]).value == octet
  }

  lemma TripletIs(b: Byte)
    ensures IsTriplet(Triplet(b), b)
  {
    HexRoundTrip(b / 16);
    HexRoundTrip(b % 16);
  }

  /** Any other character is written as one triplet for each of its octets. */
  lemma OtherCharacterForm(c: char)
    requires !IsUnreserved(c)
    ensures var octets := Utf8.EncodeChar(c);
      && |Encode([c])| == 3 * |octets|
      && forall i :: 0 <= i < |octets| ==> IsTriplet(Encode([c])[3 * i..3 * i + 3], octets[i])
  {
    var octets := Utf8.EncodeChar(c);
    assert [c][1..] == "" && Encode([c]) == Triplets(octets) + "";
    forall i | 0 <= i < |octets|
      ensures |Encode([c])| == 3 * |octets| && IsTriplet(Encode([c])[3 * i..3 * i + 3], octets[i])
    {
      TripletAt(octets, i);
      TripletIs(octets[i]);
    }
  }

  lemma {:induction false} TripletAt(b: Bytes, i: nat)
    requires i < |b|
    ensures |Triplets(b)| == 3 * |b| && Triplets(b)[3 * i..3 * i + 3] == Triplet(b[i])
  {
    TripletsRoundTrip(b, "", 0);
    if i > 0 {
      TripletAt(b[1..], i - 1);
      assert Triplets(b)[3 * i..3 * i + 3] == Triplets(b[1..])[3 * (i - 1)..3 * (i - 1) + 3];
    }
  }
}
