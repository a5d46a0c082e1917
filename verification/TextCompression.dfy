/** Compressed text behind a marker (compressText, decompressText). */
module TextCompression {
  import opened Bytes
  import opened Wrappers
  import Utf8
  import Base64
  import Base85

  /** inflate gives None where zlib throws. */
  datatype Zlib = Zlib(deflate: (Bytes, int) -> Bytes, inflate: Bytes -> Option<Bytes>)

  ghost predicate Inverse(z: Zlib) {
    && (forall b, level :: z.inflate(z.deflate(b, level)) == Some(b))
    && z.inflate([]).None?
  }

  predicate IsMarked(s: string) { "z:" <= s || "z85:" <= s }

  function Marked(compressed: Bytes, base85: bool): string {
    if base85 then "z85:" + Base85.Encode(compressed) else "z:" + Base64.Encode(compressed)
  }

  /** The guards under which a text is stored without compression. */
  predicate KeptAsIs(z: Zlib, value: string, threshold: int, level: int, base85: bool) {
    var buf := Utf8.Encode(value);
    value == "" || |buf| < threshold || |Marked(z.deflate(buf, level), base85)| >= |buf|
  }

  function CompressText(z: Zlib, value: string, threshold: int, level: int, base85: bool): string {
    var buf := Utf8.Encode(value);
    if value == "" || |buf| < threshold then value
    else
      var encoded := Marked(z.deflate(buf, level), base85);
      if |encoded| >= |buf| then value else encoded
  }

  function Inflated(z: Zlib, compressed: Option<Bytes>): Option<string> {
    if compressed.None? then None
    else
      var octets := z.inflate(compressed.value);
      if octets.None? then None else Utf8.Decode(octets.value)
  }

  /** None stands for an exception (and for payloads no encoder writes). */
  function DecompressText(z: Zlib, s: string): Option<string> {
    if "z85:" <= s then
      if |s| == 4 then Some("") else Inflated(z, Some(Base85.Decode(s[4..])))
    else if "z:" <= s then
      if |s| == 2 then Some("") else Inflated(z, Base64.Decode(s[2..]))
    else Some(s)
  }

  lemma DeflatedIsNotEmpty(z: Zlib, octets: Bytes, level: int)
    requires Inverse(z)
    ensures z.inflate(z.deflate(octets, level)) == Some(octets) && z.deflate(octets, level) != []
  {}

  lemma InflatedRoundTrip(z: Zlib, value: string, compressed: Bytes)
    requires z.inflate(compressed) == Some(Utf8.Encode(value))
    ensures Inflated(z, Some(compressed)) == Some(value)
  {
    Utf8.RoundTrip(value);
  }

  lemma Base85Form(z: Zlib, compressed: Bytes)
    requires compressed != []
    ensures DecompressText(z, "z85:" + Base85.Encode(compressed)) == Inflated(z, Some(compressed))
  {
    Base85.RoundTrip(compressed);
    var payload := Base85.Encode(compressed);
    var s := "z85:" + payload;
    assert payload != "";
    assert s[4..] == payload && "z85:" <= s;
  }

  lemma Base64Form(z: Zlib, compressed: Bytes)
    requires compressed != []
    ensures DecompressText(z, "z:" + Base64.Encode(compressed)) == Inflated(z, Some(compressed))
  {
    Base64.RoundTrip(compressed);
    Base64.EncodeNotEmpty(compressed);
    var payload := Base64.Encode(compressed);
    var s := "z:" + payload;
    assert s[2..] == payload && s[1] == ':' && "z:" <= s;
  }

  lemma MarkedRoundTrip(z: Zlib, value: string, level: int, base85: bool)
    requires Inverse(z)
    ensures DecompressText(z, Marked(z.deflate(Utf8.Encode(value), level), base85)) == Some(value)
  {
    var compressed := z.deflate(Utf8.Encode(value), level);
    DeflatedIsNotEmpty(z, Utf8.Encode(value), level);
    InflatedRoundTrip(z, value, compressed);
    if base85 { Base85Form(z, compressed); } else { Base64Form(z, compressed); }
  }

  /** Main result: decompression undoes compression unless the text is kept as it is and looks marked. */
  lemma CompressionRoundTrip(z: Zlib, value: string, threshold: int, level: int, base85: bool)
    requires Inverse(z)
    requires KeptAsIs(z, value, threshold, level, base85) ==> !IsMarked(value)
    ensures DecompressText(z, CompressText(z, value, threshold, level, base85)) == Some(value)
  {
    MarkedRoundTrip(z, value, level, base85);
  }

  lemma {:induction false} Utf8IsNotShorter(s: string)
    ensures |Utf8.Encode(s)| >= |s|
    ensures (forall i :: 0 <= i < |s| ==> s[i] as int < 0x80) ==> |Utf8.Encode(s)| == |s|
  {
    if s != "" { Utf8IsNotShorter(s[1..]); }
  }

  lemma MarkedIsAscii(compressed: Bytes, base85: bool)
    ensures forall i :: 0 <= i < |Marked(compressed, base85)| ==> Marked(compressed, base85)[i] as int < 0x80
  {
    Base64.EncodeHasNoSpace(compressed);
    Base85.EncodeIsAscii(compressed);
  }

  /** The compressed form is stored exactly when the text is not empty, at least as long as the threshold, and
      longer than that form in octets; what is stored is never longer. */
  lemma CompressionNeverGrows(z: Zlib, value: string, threshold: int, level: int, base85: bool)
    ensures var r := CompressText(z, value, threshold, level, base85);
      var octets, marked := Utf8.Encode(value), Marked(z.deflate(Utf8.Encode(value), level), base85);
      && |Utf8.Encode(r)| <= |octets|
      && (r == value || r == marked)
      && (r != value <==> value != "" && |octets| >= threshold && |marked| < |octets|)
  {
    var marked := Marked(z.deflate(Utf8.Encode(value), level), base85);
    MarkedIsAscii(z.deflate(Utf8.Encode(value), level), base85);
    Utf8IsNotShorter(marked);
  }

  /** The guard is needed: a bare marker is read as the empty text, whatever zlib does. */
  lemma BareMarkerIsLost(z: Zlib, level: int, base85: bool)
    ensures CompressText(z, "z:", 100, level, base85) == "z:" && DecompressText(z, "z:") == Some("")
  {
    assert |Utf8.Encode("z:")| == 2 by {
      assert Utf8.Encode(":") == Utf8.EncodeChar(':') + Utf8.Encode("");
      assert Utf8.Encode("z:") == Utf8.EncodeChar('z') + Utf8.Encode(":");
    }
  }
}
