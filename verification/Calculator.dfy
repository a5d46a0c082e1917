/** Byte counts of field values (calculator.ts). */
module Calculator {
  import Utf8

  function CharBytes(c: char): nat {
    var code := c as int;
    if code <= 0x7F then 1 else if code <= 0x7FF then 2 else if code <= 0xFFFF then 3 else 4
  }

  /** calculateUTF8Bytes, without its memory of earlier results. */
  function ByteCount(s: string): nat {
    if s == "" then 0 else CharBytes(s[0]) + ByteCount(s[1..])
  }

  /** The count is the length of the UTF-8 encoding. */
  lemma {:induction false} ByteCountIsEncodedLength(s: string)
    ensures ByteCount(s) == |Utf8.Encode(s)|
  {
    if s != "" { ByteCountIsEncodedLength(s[1..]); }
  }
}
