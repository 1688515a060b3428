/** The `_base64` helper of the ACME client: URL-safe base64 with the padding
    stripped (RFC 4648 section 5, as RFC 8555 section 6.1 requires). */
module Base64Url {
  import opened Bytes
  import opened Outcomes

  /** The character of the URL-safe alphabet for a 6-bit value. */
  function Sextet(v: int): (c: char)
    requires 0 <= v < 64
    ensures IsUrlSafe(c) && SextetValue(c) == v
  {
    if v < 26 then ('A' as int + v) as char
    else if v < 52 then ('a' as int + (v - 26)) as char
    else if v < 62 then ('0' as int + (v - 52)) as char
    else if v == 62 then '-'
    else '_'
  }

  /** Membership in the URL-safe alphabet `A-Z a-z 0-9 - _`. */
  predicate IsUrlSafe(c: char) {
    || 'A' <= c <= 'Z'
    || 'a' <= c <= 'z'
    || '0' <= c <= '9'
    || c == '-'
    || c == '_'
  }

  predicate AllUrlSafe(s: string) {
    forall i :: 0 <= i < |s| ==> IsUrlSafe(s[i])
  }

  /** The 6-bit value of a URL-safe character. */
  function SextetValue(c: char): (v: int)
    requires IsUrlSafe(c)
    ensures 0 <= v < 64
  {
    if 'A' <= c <= 'Z' then c as int - 'A' as int
    else if 'a' <= c <= 'z' then c as int - 'a' as int + 26
    else if '0' <= c <= '9' then c as int - '0' as int + 52
    else if c == '-' then 62
    else 63
  }

  /** The encoding of whole 3-octet groups and the final partial group, without `=`. */
  function Groups(b: seq<byte>): string
    decreases |b|
  {
    if |b| == 0 then ""
    else if |b| == 1 then [Sextet(b[0] / 4), Sextet((b[0] % 4) * 16)]
    else if |b| == 2 then [Sextet(b[0] / 4), Sextet((b[0] % 4) * 16 + b[1] / 16), Sextet((b[1] % 16) * 4)]
    else Quad(b[0], b[1], b[2]) + Groups(b[3..])
  }

  /** The four characters of one full 3-octet group. */
  function Quad(b0: byte, b1: byte, b2: byte): (q: string)
    ensures |q| == 4 && AllUrlSafe(q)
  {
    [Sextet(b0 / 4), Sextet((b0 % 4) * 16 + b1 / 16), Sextet((b1 % 16) * 4 + b2 / 64), Sextet(b2 % 64)]
  }

  /** The `=` characters that complete the final quantum to four characters. */
  function Padding(n: nat): string {
    if n % 3 == 1 then "==" else if n % 3 == 2 then "=" else ""
  }

  /** `base64.urlsafe_b64encode`: groups, then padding (RFC 4648 sections 4 and 5). */
  function EncodePadded(b: seq<byte>): string {
    Groups(b) + Padding(|b|)
  }

  /** `s.rstrip(c)`. */
  function RStrip(s: string, c: char): (r: string)
    ensures |r| <= |s| && r == s[..|r|]
    ensures |r| > 0 ==> r[|r| - 1] != c
    ensures forall i :: |r| <= i < |s| ==> s[i] == c
  {
    if |s| > 0 && s[|s| - 1] == c then RStrip(s[..|s| - 1], c) else s
  }

  /** `_base64(b)`: URL-safe base64 with trailing `=` removed. */
  function Encode(b: seq<byte>): (r: string)
    ensures |r| <= |EncodePadded(b)| && r == EncodePadded(b)[..|r|]
    ensures |r| > 0 ==> r[|r| - 1] != '='
    ensures forall i :: |r| <= i < |EncodePadded(b)| ==> EncodePadded(b)[i] == '='
  {
    RStrip(EncodePadded(b), '=')
  }

  /** The octets a padding-free URL-safe base64 text stands for; `None` for text no encoding produces. */
  function Decode(s: string): (r: Option<seq<byte>>)
    ensures r.Some? <==> AllUrlSafe(s) && |s| % 4 != 1
    ensures r.Some? ==> |r.value| == 3 * |s| / 4
  {
    if AllUrlSafe(s) then DecodeSafe(s) else None
  }

  /** Every length but one more than a multiple of four decodes, to three octets per four characters. */
  function DecodeSafe(s: string): (r: Option<seq<byte>>)
    requires AllUrlSafe(s)
    ensures r.Some? <==> |s| % 4 != 1
    ensures r.Some? ==> |r.value| == 3 * |s| / 4
    decreases |s|
  {
    if |s| == 0 then Some([])
    else if |s| == 1 then None
    else if |s| == 2 then Some(Single(s[0], s[1]))
    else if |s| == 3 then Some(Pair(s[0], s[1], s[2]))
    else
      match DecodeSafe(s[4..])
      case None => None
      case Some(rest) => Some(Triple(s[0], s[1], s[2], s[3]) + rest)
  }

  /** The octet held by a final group of two characters. */
  function Single(c0: char, c1: char): seq<byte>
    requires IsUrlSafe(c0) && IsUrlSafe(c1)
  {
    var v0, v1 := SextetValue(c0), SextetValue(c1);
    [v0 * 4 + v1 / 16]
  }

  /** The two octets held by a final group of three characters. */
  function Pair(c0: char, c1: char, c2: char): seq<byte>
    requires IsUrlSafe(c0) && IsUrlSafe(c1) && IsUrlSafe(c2)
  {
    var v0, v1, v2 := SextetValue(c0), SextetValue(c1), SextetValue(c2);
    [v0 * 4 + v1 / 16, (v1 % 16) * 16 + v2 / 4]
  }

  /** The three octets held by a full group of four characters. */
  function Triple(c0: char, c1: char, c2: char, c3: char): seq<byte>
    requires IsUrlSafe(c0) && IsUrlSafe(c1) && IsUrlSafe(c2) && IsUrlSafe(c3)
  {
    var v0, v1, v2, v3 := SextetValue(c0), SextetValue(c1), SextetValue(c2), SextetValue(c3);
    [v0 * 4 + v1 / 16, (v1 % 16) * 16 + v2 / 4, (v2 % 4) * 64 + v3]
  }

  /** Encoding text length: four characters per full group, two or three for a partial one. */
  function EncodedLength(n: nat): nat {
    (4 * n + 2) / 3
  }

  lemma {:induction false} GroupsShape(b: seq<byte>)
    ensures |Groups(b)| == EncodedLength(|b|)
    ensures AllUrlSafe(Groups(b))
    decreases |b|
  {
    if |b| >= 3 {
      GroupsShape(b[3..]);
    }
  }

  /** `rstrip` removes a tail made only of `c`, and nothing before a last character other than `c`. */
  lemma {:induction false} RStripTail(g: string, p: string, c: char)
    requires forall i :: 0 <= i < |p| ==> p[i] == c
    requires |g| > 0 ==> g[|g| - 1] != c
    ensures RStrip(g + p, c) == g
    decreases |p|
  {
    if |p| > 0 {
      assert (g + p)[..|g + p| - 1] == g + p[..|p| - 1];
      RStripTail(g, p[..|p| - 1], c);
    } else {
      assert g + p == g;
    }
  }

  /** Removing trailing `=` from the padded encoding removes exactly the padding. */
  lemma StripRemovesPadding(b: seq<byte>)
    ensures Encode(b) == Groups(b)
  {
    GroupsShape(b);
    var g := Groups(b);
    if |g| > 0 {
      assert IsUrlSafe(g[|g| - 1]);
    }
    RStripTail(g, Padding(|b|), '=');
  }

  /** `_base64` output is padding-free, URL-safe, and `ceil(4n/3)` long. */
  lemma EncodeShape(b: seq<byte>)
    ensures |Encode(b)| == EncodedLength(|b|)
    ensures AllUrlSafe(Encode(b))
    ensures forall i :: 0 <= i < |Encode(b)| ==> Encode(b)[i] != '='
  {
    StripRemovesPadding(b);
    GroupsShape(b);
  }

  lemma GroupOfThree(b0: byte, b1: byte, b2: byte)
    ensures (b0 / 4) * 4 + ((b0 % 4) * 16 + b1 / 16) / 16 == b0
    ensures (((b0 % 4) * 16 + b1 / 16) % 16) * 16 + ((b1 % 16) * 4 + b2 / 64) / 4 == b1
    ensures (((b1 % 16) * 4 + b2 / 64) % 4) * 64 + b2 % 64 == b2
  {
  }

  lemma GroupOfTwo(b0: byte, b1: byte)
    ensures (b0 / 4) * 4 + ((b0 % 4) * 16 + b1 / 16) / 16 == b0
    ensures (((b0 % 4) * 16 + b1 / 16) % 16) * 16 + ((b1 % 16) * 4) / 4 == b1
  {
  }

  lemma GroupOfOne(b0: byte)
    ensures (b0 / 4) * 4 + ((b0 % 4) * 16) / 16 == b0
  {
  }

  lemma RoundTripOne(b: seq<byte>)
    requires |b| == 1
    ensures AllUrlSafe(Groups(b)) && DecodeSafe(Groups(b)) == Some(b)
  {
    var v0, v1 := b[0] / 4, (b[0] % 4) * 16;
    var s := Groups(b);
    assert s == [Sextet(v0), Sextet(v1)];
    GroupOfOne(b[0]);
    assert Single(s[0], s[1]) == b;
  }

  lemma RoundTripTwo(b: seq<byte>)
    requires |b| == 2
    ensures AllUrlSafe(Groups(b)) && DecodeSafe(Groups(b)) == Some(b)
  {
    var v0, v1, v2 := b[0] / 4, (b[0] % 4) * 16 + b[1] / 16, (b[1] % 16) * 4;
    var s := Groups(b);
    assert s == [Sextet(v0), Sextet(v1), Sextet(v2)];
    GroupOfTwo(b[0], b[1]);
    assert Pair(s[0], s[1], s[2]) == b;
  }

  /** The four characters of a group give back its three octets. */
  lemma GroupDecodes(b0: byte, b1: byte, b2: byte)
    ensures var q := Quad(b0, b1, b2); Triple(q[0], q[1], q[2], q[3]) == [b0, b1, b2]
  {
    var v0, v1 := b0 / 4, (b0 % 4) * 16 + b1 / 16;
    var v2, v3 := (b1 % 16) * 4 + b2 / 64, b2 % 64;
    var q := Quad(b0, b1, b2);
    assert SextetValue(q[0]) == v0 && SextetValue(q[1]) == v1;
    assert SextetValue(q[2]) == v2 && SextetValue(q[3]) == v3;
    GroupOfThree(b0, b1, b2);
    assert Triple(q[0], q[1], q[2], q[3]) == [v0 * 4 + v1 / 16, (v1 % 16) * 16 + v2 / 4, (v2 % 4) * 64 + v3];
  }

  /** A group of four characters in front of a decodable rest. */
  lemma DecodeStep(q: string, t: string)
    requires |q| == 4 && AllUrlSafe(q) && AllUrlSafe(t)
    requires DecodeSafe(t).Some?
    ensures AllUrlSafe(q + t)
    ensures DecodeSafe(q + t) == Some(Triple(q[0], q[1], q[2], q[3]) + DecodeSafe(t).value)
  {
    var s := q + t;
    assert s[4..] == t;
    assert s[0] == q[0] && s[1] == q[1] && s[2] == q[2] && s[3] == q[3];
  }

  /** One full group decodes to its three octets, in front of whatever the rest decodes to. */
  lemma GroupsStep(b: seq<byte>)
    requires |b| >= 3
    ensures Groups(b) == Quad(b[0], b[1], b[2]) + Groups(b[3..])
  {
  }

  lemma FirstThree(b: seq<byte>)
    requires |b| >= 3
    ensures b == [b[0], b[1], b[2]] + b[3..]
  {
    assert b == b[..3] + b[3..];
  }

  lemma RoundTripStep(b: seq<byte>)
    requires |b| >= 3
    requires AllUrlSafe(Groups(b[3..])) && DecodeSafe(Groups(b[3..])) == Some(b[3..])
    ensures AllUrlSafe(Groups(b)) && DecodeSafe(Groups(b)) == Some(b)
  {
    var q, t := Quad(b[0], b[1], b[2]), Groups(b[3..]);
    GroupsStep(b);
    DecodeStep(q, t);
    GroupDecodes(b[0], b[1], b[2]);
    FirstThree(b);
  }

  lemma {:induction false} GroupsRoundTrip(b: seq<byte>)
    ensures AllUrlSafe(Groups(b)) && DecodeSafe(Groups(b)) == Some(b)
    decreases |b|
  {
    if |b| == 1 {
      RoundTripOne(b);
    } else if |b| == 2 {
      RoundTripTwo(b);
    } else if |b| >= 3 {
      GroupsRoundTrip(b[3..]);
      RoundTripStep(b);
    }
  }

  /** Decoding the output of `_base64` gives back the octets. */
  lemma RoundTrip(b: seq<byte>)
    ensures Decode(Encode(b)) == Some(b)
  {
    StripRemovesPadding(b);
    GroupsRoundTrip(b);
  }

  /** Different octet strings never share an encoding. */
  lemma Injective(a: seq<byte>, b: seq<byte>)
    requires Encode(a) == Encode(b)
    ensures a == b
  {
    RoundTrip(a);
    RoundTrip(b);
  }

  /** A 32-octet digest (SHA-256) encodes to 43 characters. */
  lemma DigestLength(b: seq<byte>)
    requires |b| == 32
    ensures |Encode(b)| == 43
  {
    EncodeShape(b);
  }
}
