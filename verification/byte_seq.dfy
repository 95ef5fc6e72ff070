/** Go's `[]byte`, and the conversions between it and strings for the
    ASCII text this model handles. */
module ByteSeq {

  newtype byte = x: int | 0 <= x < 256

  type Bytes = seq<byte>

  predicate IsAscii(s: string)
  {
    forall i :: 0 <= i < |s| ==> s[i] as int < 128
  }

  /** `[]byte(s)` for ASCII text: one byte per character. */
  function AsciiBytes(s: string): (b: Bytes)
    requires IsAscii(s)
    ensures |b| == |s|
    ensures forall i :: 0 <= i < |s| ==> b[i] as int == s[i] as int
  {
    seq(|s|, i requires 0 <= i < |s| => s[i] as int as byte)
  }

  /** `string(b)` read one byte per character, which agrees with Go's
      UTF-8 decoding on ASCII bytes. */
  function Text(b: Bytes): (s: string)
    ensures |s| == |b|
    ensures forall i :: 0 <= i < |b| ==> s[i] as int == b[i] as int
  {
    seq(|b|, i requires 0 <= i < |b| => b[i] as int as char)
  }

  /** Reading back ASCII bytes gives the text they came from. */
  lemma TextOfAscii(s: string)
    requires IsAscii(s)
    ensures Text(AsciiBytes(s)) == s
  {
  }
}
