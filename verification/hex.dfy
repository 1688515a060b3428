/** Hexadecimal text and octets: `"{0:x}".format`, the even-length padding of
    the public exponent, `binascii.unhexlify`, and the separator removal that
    turns `openssl rsa -text` modulus output into plain hex. */
module Hex {
  import opened Bytes
  import opened Outcomes

  /** A digit `binascii.unhexlify` accepts (either case). */
  predicate IsHexDigit(c: char) {
    '0' <= c <= '9' || 'a' <= c <= 'f' || 'A' <= c <= 'F'
  }

  predicate AllHex(s: string) {
    forall i :: 0 <= i < |s| ==> IsHexDigit(s[i])
  }

  function DigitValue(c: char): (d: int)
    requires IsHexDigit(c)
    ensures 0 <= d < 16
  {
    if '0' <= c <= '9' then c as int - '0' as int
    else if 'a' <= c <= 'f' then c as int - 'a' as int + 10
    else c as int - 'A' as int + 10
  }

  /** The lower-case digit `format` writes for `d`. */
  function HexDigit(d: int): (c: char)
    requires 0 <= d < 16
    ensures IsHexDigit(c) && DigitValue(c) == d
    ensures c == '0' <==> d == 0
  {
    if d < 10 then ('0' as int + d) as char else ('a' as int + (d - 10)) as char
  }

  function Pow16(n: nat): (r: nat)
    ensures r >= 1
  {
    if n == 0 then 1 else 16 * Pow16(n - 1)
  }

  /** The number a hex text stands for, most significant digit first. */
  function HexValue(s: string): (v: nat)
    requires AllHex(s)
    ensures v < Pow16(|s|)
  {
    if s == [] then 0 else HexValue(s[..|s| - 1]) * 16 + DigitValue(s[|s| - 1])
  }

  /** `"{0:x}".format(n)`: lower-case hex without leading zeros (`"0"` for zero). */
  function ToHex(n: nat): (r: string)
    ensures |r| >= 1 && AllHex(r)
    ensures |r| > 1 ==> r[0] != '0'
    ensures HexValue(r) == n
    decreases n
  {
    if n < 16 then [HexDigit(n)]
    else
      var h := ToHex(n / 16) + [HexDigit(n % 16)];
      assert h[..|h| - 1] == ToHex(n / 16);
      h
  }

  /** A leading zero digit does not change the value. */
  lemma {:induction false} LeadingZero(s: string)
    requires AllHex(s)
    ensures AllHex("0" + s) && HexValue("0" + s) == HexValue(s)
    decreases |s|
  {
    if s != [] {
      var t := "0" + s;
      assert t[..|t| - 1] == "0" + s[..|s| - 1];
      LeadingZero(s[..|s| - 1]);
    }
  }

  /** Lines 198-199: the exponent's hex, with one `0` prepended when its length is odd. */
  function EvenHex(n: nat): (r: string)
    ensures |r| % 2 == 0 && |r| >= 2 && AllHex(r)
    ensures HexValue(r) == n
    ensures |r| > 2 ==> !(r[0] == '0' && r[1] == '0')
  {
    var h := ToHex(n);
    if |h| % 2 == 1 then LeadingZero(h); "0" + h else h
  }

  /** The octets of an even-length hex text, taken two digits at a time. */
  function Pairs(s: string): (r: seq<byte>)
    requires AllHex(s) && |s| % 2 == 0
    ensures |r| == |s| / 2
  {
    if s == [] then []
    else Pairs(s[..|s| - 2]) + [DigitValue(s[|s| - 2]) * 16 + DigitValue(s[|s| - 1])]
  }

  /** `binascii.unhexlify(s)`; `None` where it raises (odd length or a non-hex digit). */
  function Unhexlify(s: string): (r: Option<seq<byte>>)
    ensures r.Some? <==> AllHex(s) && |s| % 2 == 0
  {
    if AllHex(s) && |s| % 2 == 0 then Some(Pairs(s)) else None
  }

  /** The unsigned big-endian value of an octet string. */
  function BigEndian(b: seq<byte>): nat {
    if b == [] then 0 else BigEndian(b[..|b| - 1]) * 256 + b[|b| - 1]
  }

  /** Pairing digits into octets keeps the value. */
  lemma {:induction false} PairsValue(s: string)
    requires AllHex(s) && |s| % 2 == 0
    ensures BigEndian(Pairs(s)) == HexValue(s)
    decreases |s|
  {
    if s != [] {
      var t := s[..|s| - 2];
      PairsValue(t);
      var p := Pairs(s);
      assert p[..|p| - 1] == Pairs(t);
      assert s[..|s| - 1][..|s| - 2] == t;
    }
  }

  /** The first octet is made of the first two digits. */
  lemma {:induction false} PairsFirst(s: string)
    requires AllHex(s) && |s| % 2 == 0 && |s| >= 2
    ensures Pairs(s)[0] == DigitValue(s[0]) * 16 + DigitValue(s[1])
    decreases |s|
  {
    if |s| > 2 {
      PairsFirst(s[..|s| - 2]);
    }
  }

  /** The exponent octets that go into the JWK `e` member: the big-endian value is the exponent,
      and there is no leading zero octet unless the exponent is zero (RFC 7518 section 6.3.1.2). */
  function ExponentOctets(n: nat): (b: seq<byte>)
    ensures |b| >= 1 && BigEndian(b) == n
    ensures |b| > 1 ==> b[0] != 0
    ensures Unhexlify(EvenHex(n)) == Some(b)
  {
    var h := EvenHex(n);
    PairsValue(h);
    PairsFirst(h);
    Pairs(h)
  }

  /** White space as `\s` matches it in a `str` pattern, which is what `str.isspace` accepts:
      tab to carriage return, the four information separators U+001C-U+001F, the space,
      NEL, no-break space, the Ogham space mark, the spaces U+2000-U+200A, the line and
      paragraph separators, the narrow no-break and medium mathematical spaces, and the
      ideographic space. */
  predicate IsWhiteSpace(c: char) {
    || '\t' <= c <= '\r' || '\U{1C}' <= c <= ' ' || c == '\U{85}' || c == '\U{A0}' || c == '\U{1680}'
    || '\U{2000}' <= c <= '\U{200A}' || c == '\U{2028}' || c == '\U{2029}' || c == '\U{202F}'
    || c == '\U{205F}' || c == '\U{3000}'
  }

  /** A character `re.sub(r"(\s|:)", "", ...)` removes: white space or a colon. */
  predicate IsSeparator(c: char) {
    c == ':' || IsWhiteSpace(c)
  }

  /** Line 206: the modulus text of `openssl rsa -text` with its colons and line breaks removed. */
  function StripSeparators(s: string): (r: string)
    ensures |r| <= |s|
    ensures forall i :: 0 <= i < |r| ==> !IsSeparator(r[i])
    ensures (forall i :: 0 <= i < |s| ==> !IsSeparator(s[i])) ==> r == s
  {
    if s == [] then []
    else if IsSeparator(s[0]) then StripSeparators(s[1..])
    else [s[0]] + StripSeparators(s[1..])
  }

  /** Separators are removed wherever they stand: stripping distributes over concatenation. */
  lemma {:induction false} StripAppend(a: string, b: string)
    ensures StripSeparators(a + b) == StripSeparators(a) + StripSeparators(b)
    decreases |a|
  {
    if a == [] {
      assert a + b == b;
    } else {
      assert (a + b)[0] == a[0] && (a + b)[1..] == a[1..] + b;
      StripAppend(a[1..], b);
      if !IsSeparator(a[0]) {
        assert StripSeparators(a + b) == [a[0]] + (StripSeparators(a[1..]) + StripSeparators(b));
      }
    }
  }

  /** A no-break space between octets goes like a colon: `00:` U+00A0 `ab` becomes `00ab`. */
  lemma StripNoBreakSpace()
    ensures StripSeparators("00:\U{A0}ab") == "00ab"
  {
    assert "00:\U{A0}ab"[1..] == "0:\U{A0}ab";
  }

  /** The common RSA exponent 65537 is written `010001`, three octets. */
  lemma Exponent65537()
    ensures ExponentOctets(65537) == [1, 0, 1]
  {
    assert ToHex(1) == "1";
    assert ToHex(16) == "10";
    assert ToHex(256) == "100";
    assert ToHex(4096) == "1000";
    assert ToHex(65537 / 16) == "1000";
    assert ToHex(65537) == "10001";
    assert EvenHex(65537) == "010001";
    var s := "010001";
    assert s[..4] == "0100" && s[..4][..2] == "01";
    assert Pairs("01") == [1];
    assert Pairs("0100") == [1, 0];
  }
}
