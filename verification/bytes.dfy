/** Octets and the UTF-8 encoding of text (`str.encode("utf8")`). */
module Bytes {

  type byte = x: int | 0 <= x < 256

  /** A character that UTF-8 encodes as one octet. */
  predicate IsAscii(c: char) {
    c as int < 0x80
  }

  /** The UTF-8 octets of one Unicode scalar value (RFC 3629 section 3). */
  function EncodeChar(c: char): (r: seq<byte>)
    ensures 1 <= |r| <= 4
    ensures |r| == 1 <==> IsAscii(c)
    ensures IsAscii(c) ==> r == [c as int]
    ensures r[0] < 0x80 || r[0] >= 0xC0
    ensures forall k :: 1 <= k < |r| ==> 0x80 <= r[k] < 0xC0
  {
    var v := c as int;
    if v < 0x80 then [v]
    else if v < 0x800 then [0xC0 + v / 64, 0x80 + v % 64]
    else if v < 0x10000 then [0xE0 + v / 4096, 0x80 + (v / 64) % 64, 0x80 + v % 64]
    else [0xF0 + v / 262144, 0x80 + (v / 4096) % 64, 0x80 + (v / 64) % 64, 0x80 + v % 64]
  }

  /** `s.encode("utf8")`. */
  function Utf8(s: string): (r: seq<byte>)
    ensures |r| >= |s|
  {
    if s == [] then [] else EncodeChar(s[0]) + Utf8(s[1..])
  }

  /** Encoding a concatenation concatenates the encodings. */
  lemma {:induction false} Utf8Append(a: string, b: string)
    ensures Utf8(a + b) == Utf8(a) + Utf8(b)
  {
    if a != [] {
      assert (a + b)[1..] == a[1..] + b;
      Utf8Append(a[1..], b);
    } else {
      assert a + b == b;
    }
  }

  /** ASCII text encodes to one octet per character, holding the character's code. */
  lemma {:induction false} Utf8Ascii(s: string)
    requires forall i :: 0 <= i < |s| ==> IsAscii(s[i])
    ensures |Utf8(s)| == |s|
    ensures forall i :: 0 <= i < |s| ==> Utf8(s)[i] == s[i] as int
  {
    if s != [] {
      Utf8Ascii(s[1..]);
    }
  }
}
