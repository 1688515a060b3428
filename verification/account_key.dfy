/** The account key as the CA sees it: the RSA public JWK, its RFC 7638
    thumbprint, and the DNS-01 key authorization and TXT value derived from it
    (RFC 8555 sections 8.1 and 8.4). SHA-256 is a parameter of the model. */
module AccountKey {
  import opened Outcomes
  import opened Bytes
  import opened Json
  import Base64Url
  import Hex

  /** The public part of the account key: base64url `e` and `n`. */
  datatype Jwk = Jwk(e: string, n: string)

  predicate WellFormed(k: Jwk) {
    Base64Url.AllUrlSafe(k.e) && Base64Url.AllUrlSafe(k.n)
  }

  /** Lines 198-207: the JWK built from the decimal exponent and the hex modulus text.
      A modulus text that is not whole hex octets makes `unhexlify` raise. */
  function FromPublicKey(exponent: nat, modulusText: string): (r: Result<Jwk>)
    ensures r.Ok? <==> Hex.Unhexlify(Hex.StripSeparators(modulusText)).Some?
    ensures r.Raised? ==> r.fault == ValueError
    ensures r.Ok? ==> WellFormed(r.value)
    ensures r.Ok? ==> Base64Url.Decode(r.value.e) == Some(Hex.ExponentOctets(exponent))
    ensures r.Ok? ==> Base64Url.Decode(r.value.n) == Hex.Unhexlify(Hex.StripSeparators(modulusText))
  {
    match Hex.Unhexlify(Hex.StripSeparators(modulusText))
    case None => Raised(ValueError)
    case Some(modulus) =>
      var octets := Hex.ExponentOctets(exponent);
      Base64Url.EncodeShape(octets);
      Base64Url.EncodeShape(modulus);
      Base64Url.RoundTrip(octets);
      Base64Url.RoundTrip(modulus);
      Ok(Jwk(Base64Url.Encode(octets), Base64Url.Encode(modulus)))
  }

  /** The `jwk` member of the protected header (lines 203-207). */
  function JwkObject(k: Jwk): (j: Json)
    ensures j.JObj? && j.fields.Keys == {"e", "kty", "n"}
    ensures j.fields["e"] == JStr(k.e) && j.fields["kty"] == JStr("RSA") && j.fields["n"] == JStr(k.n)
  {
    JObj(map["e" := JStr(k.e), "kty" := JStr("RSA"), "n" := JStr(k.n)])
  }

  const Quote: string := "\""
  const Colon: string := "\":\""

  /** One member, `"name":"value"`. */
  function MemberText(m: (string, string)): string {
    Quote + m.0 + Colon + m.1 + Quote
  }

  /** The canonical JWK text around `e` and `n`: `{"e":"`, `","kty":"RSA","n":"` and `"}`. */
  const JwkPrefix: string := "{" + Quote + "e" + Colon
  const JwkMiddle: string := Quote + "," + MemberText(("kty", "RSA")) + "," + Quote + "n" + Colon
  const JwkSuffix: string := Quote + "}"

  /** The white space of JSON text (RFC 8259 section 2). */
  predicate JsonSpace(c: char) {
    c == ' ' || c == '\t' || c == '\n' || c == '\r'
  }

  /** Text without JSON white space. */
  predicate SpaceFree(s: string) {
    forall i :: 0 <= i < |s| ==> !JsonSpace(s[i])
  }

  lemma SpaceFreeConcat(a: string, b: string)
    ensures SpaceFree(a) && SpaceFree(b) ==> SpaceFree(a + b)
  {
    if SpaceFree(a) && SpaceFree(b) {
      forall i | 0 <= i < |a + b|
        ensures !JsonSpace((a + b)[i])
      {
        if i >= |a| {
          assert (a + b)[i] == b[i - |a|];
        }
      }
    }
  }

  /** A JSON object written as a list of members whose names and values are strings. */
  type Members = seq<(string, string)>

  /** Python's `<` on `str`: code point by code point, and a proper prefix first. */
  predicate NameLess(a: string, b: string)
    decreases |a|
  {
    |b| > 0 && (|a| == 0 || a[0] < b[0] || (a[0] == b[0] && NameLess(a[1..], b[1..])))
  }

  lemma {:induction false} NameLessIrreflexive(a: string)
    ensures !NameLess(a, a)
    decreases |a|
  {
    if |a| > 0 {
      NameLessIrreflexive(a[1..]);
    }
  }

  /** The names strictly increase, the order `sort_keys=True` writes them in. */
  predicate StrictlySorted(ms: Members) {
    forall i, j :: 0 <= i < j < |ms| ==> NameLess(ms[i].0, ms[j].0)
  }

  /** The object the members denote; a later member of the same name wins, as in a `dict`. */
  function MemberMap(ms: Members): (m: map<string, Json>)
    ensures forall name :: name in m <==> exists i :: 0 <= i < |ms| && ms[i].0 == name
  {
    if ms == [] then map[]
    else
      var init := ms[..|ms| - 1];
      assert forall i :: 0 <= i < |init| ==> init[i] == ms[i];
      MemberMap(init)[ms[|ms| - 1].0 := JStr(ms[|ms| - 1].1)]
  }

  /** A character JSON writes as itself under `ensure_ascii`: printable ASCII but `"` and `\`. */
  predicate PlainChar(c: char) {
    ' ' <= c <= '~' && c != '"' && c != '\\'
  }

  /** Text JSON writes without escapes. */
  predicate PlainText(s: string) {
    forall k :: 0 <= k < |s| ==> PlainChar(s[k])
  }

  /** Every name and value is written without escapes. */
  predicate Plain(ms: Members) {
    forall i :: 0 <= i < |ms| ==> PlainText(ms[i].0) && PlainText(ms[i].1)
  }

  /** The members of a well-formed key need no escapes: base64url text is plain. */
  lemma JwkMembersPlain(k: Jwk)
    ensures WellFormed(k) ==> Plain(JwkMembers(k))
  {
    var m := JwkMembers(k);
    assert PlainText("e") && PlainText("kty") && PlainText("RSA") && PlainText("n");
    if WellFormed(k) {
      assert PlainText(k.e) by {
        forall i | 0 <= i < |k.e| ensures PlainChar(k.e[i]) {
          assert Base64Url.IsUrlSafe(k.e[i]);
        }
      }
      assert PlainText(k.n) by {
        forall i | 0 <= i < |k.n| ensures PlainChar(k.n[i]) {
          assert Base64Url.IsUrlSafe(k.n[i]);
        }
      }
      assert forall i :: 0 <= i < 3 ==> PlainText(m[i].0) && PlainText(m[i].1);
    }
  }

  /** The members as `json.dumps(..., separators=(",", ":"))` writes them between the braces,
      in list order, for members that need no escapes. */
  function Compact(ms: Members): string {
    if ms == [] then ""
    else if |ms| == 1 then MemberText(ms[0])
    else MemberText(ms[0]) + "," + Compact(ms[1..])
  }


  /** The members of the JWK in name order. */
  function JwkMembers(k: Jwk): Members {
    [("e", k.e), ("kty", "RSA"), ("n", k.n)]
  }

  const JwkNames: set<string> := {"e", "kty", "n"}

  /** The position of a JWK member name in sorted order. */
  function JwkRank(name: string): nat {
    if name == "e" then 0 else if name == "kty" then 1 else 2
  }

  /** `sort_keys=True` puts the JWK member names in the order `e`, `kty`, `n`. */
  lemma JwkNameOrder(a: string, b: string)
    requires a in JwkNames && b in JwkNames
    ensures NameLess(a, b) <==> JwkRank(a) < JwkRank(b)
  {
    NameLessIrreflexive(a);
    assert NameLess("e", "kty") && NameLess("kty", "n") && NameLess("e", "n");
    assert !NameLess("kty", "e") && !NameLess("n", "kty") && !NameLess("n", "e");
  }

  /** In a strictly sorted list every member is the last of its name. */
  lemma {:induction false} SortedMemberAt(ms: Members, i: nat)
    requires StrictlySorted(ms) && i < |ms|
    ensures ms[i].0 in MemberMap(ms) && MemberMap(ms)[ms[i].0] == JStr(ms[i].1)
    decreases |ms|
  {
    var last := |ms| - 1;
    if i < last {
      var init := ms[..last];
      assert StrictlySorted(init) by {
        forall a, b | 0 <= a < b < |init| ensures NameLess(init[a].0, init[b].0) {
          assert init[a] == ms[a] && init[b] == ms[b];
        }
      }
      SortedMemberAt(init, i);
      assert init[i] == ms[i];
      NameLessIrreflexive(ms[i].0);
      assert NameLess(ms[i].0, ms[last].0);
    }
  }

  /** The only strictly sorted member list of a JWK is the one of `JwkMembers`. */
  lemma SortedJwkMembers(k: Jwk, ms: Members)
    requires StrictlySorted(ms) && MemberMap(ms) == JwkObject(k).fields
    ensures ms == JwkMembers(k)
  {
    JwkListNames(k, ms);
    SortedMemberAt(ms, 0);
    SortedMemberAt(ms, 1);
    SortedMemberAt(ms, 2);
  }

  /** A strictly sorted list of the JWK's members names `e`, `kty` and `n`, in that order. */
  lemma JwkListNames(k: Jwk, ms: Members)
    requires StrictlySorted(ms) && MemberMap(ms) == JwkObject(k).fields
    ensures |ms| == 3 && ms[0].0 == "e" && ms[1].0 == "kty" && ms[2].0 == "n"
  {
    ListedJwkNames(k, ms);
    RankStep(ms, 0);
    RankStep(ms, 1);
    if |ms| > 3 {
      RankStep(ms, 2);
    }
    RanksFixNames(ms[0].0, ms[1].0, ms[2].0);
  }

  /** Every listed name is a JWK member name, and there are at least three of them. */
  lemma ListedJwkNames(k: Jwk, ms: Members)
    requires MemberMap(ms) == JwkObject(k).fields
    ensures forall i :: 0 <= i < |ms| ==> ms[i].0 in JwkNames
    ensures |ms| >= 3
  {
    assert MemberMap(ms).Keys == JwkNames;
    forall i | 0 <= i < |ms|
      ensures ms[i].0 in JwkNames
    {
      assert ms[i].0 in MemberMap(ms);
    }
    assert "e" in MemberMap(ms) && "kty" in MemberMap(ms) && "n" in MemberMap(ms);
    var ie :| 0 <= ie < |ms| && ms[ie].0 == "e";
    var ik :| 0 <= ik < |ms| && ms[ik].0 == "kty";
    var iN :| 0 <= iN < |ms| && ms[iN].0 == "n";
    assert ie != ik && ik != iN && ie != iN;
  }

  lemma RanksFixNames(a: string, b: string, c: string)
    requires a in JwkNames && b in JwkNames && c in JwkNames
    requires JwkRank(a) < JwkRank(b) < JwkRank(c)
    ensures a == "e" && b == "kty" && c == "n"
  {
  }

  lemma RankStep(ms: Members, i: nat)
    requires StrictlySorted(ms) && i + 1 < |ms|
    requires ms[i].0 in JwkNames && ms[i + 1].0 in JwkNames
    ensures JwkRank(ms[i].0) < JwkRank(ms[i + 1].0)
  {
    JwkNameOrder(ms[i].0, ms[i + 1].0);
  }

  /** Line 209: `json.dumps(jwk, sort_keys=True, separators=(",", ":"))`, the canonical form of
      RFC 7638 section 3 (members in lexicographic order, no white space). */
  function Canonical(k: Jwk): (r: string)
    ensures WellFormed(k) ==> SpaceFree(r)
  {
    SpaceFreeConcat(JwkPrefix, k.e);
    SpaceFreeConcat(JwkPrefix + k.e, JwkMiddle);
    SpaceFreeConcat(JwkPrefix + k.e + JwkMiddle, k.n);
    SpaceFreeConcat(JwkPrefix + k.e + JwkMiddle + k.n, JwkSuffix);
    JwkPrefix + k.e + JwkMiddle + k.n + JwkSuffix
  }

  /** The canonical text is the compact JSON object of the JWK's members written in sorted
      name order: whichever strictly sorted list holds exactly the members of `JwkObject(k)`,
      the text is that list between braces, and for a well-formed key no member needs an
      escape, so the text is what `json.dumps` writes. */
  lemma CanonicalSortedCompact(k: Jwk, ms: Members)
    requires StrictlySorted(ms) && MemberMap(ms) == JwkObject(k).fields
    ensures Canonical(k) == "{" + Compact(ms) + "}"
    ensures WellFormed(k) ==> Plain(ms)
  {
    SortedJwkMembers(k, ms);
    CompactJwk(k);
    JwkMembersPlain(k);
  }

  lemma CompactJwk(k: Jwk)
    ensures Canonical(k) == "{" + Compact(JwkMembers(k)) + "}"
  {
    var m := JwkMembers(k);
    var a, b, c := MemberText(m[0]), MemberText(m[1]), MemberText(m[2]);
    assert m[1..][1..] == [m[2]];
    assert Compact(m[1..]) == b + "," + c;
    assert Compact(m) == a + "," + (b + "," + c);
    JwkPieces(k.e, k.n);
  }

  /** The three members between braces are the prefix, `e`, the middle, `n` and the suffix. */
  lemma JwkPieces(e: string, n: string)
    ensures "{" + (MemberText(("e", e)) + "," + (MemberText(("kty", "RSA")) + "," + MemberText(("n", n)))) + "}"
            == JwkPrefix + e + JwkMiddle + n + JwkSuffix
  {
    Regroup("{", Quote, "e", Colon, e, ",", MemberText(("kty", "RSA")), "n", n, "}");
  }

  /** Three members between braces, regrouped around the two values. */
  lemma Regroup(lb: string, q: string, en: string, col: string, e: string, comma: string, b: string,
                nn: string, n: string, rb: string)
    ensures lb + ((q + en + col + e + q) + comma + (b + comma + (q + nn + col + n + q))) + rb
         == (lb + q + en + col) + e + (q + comma + b + comma + q + nn + col) + n + (q + rb)
  {
  }

  /** Two well-formed keys with the same canonical text are the same key, so the
      thumbprint input identifies the key. */
  lemma CanonicalInjective(a: Jwk, b: Jwk)
    requires WellFormed(a) && WellFormed(b)
    requires Canonical(a) == Canonical(b)
    ensures a == b
  {
    var tailA, tailB := JwkMiddle + (a.n + JwkSuffix), JwkMiddle + (b.n + JwkSuffix);
    CanonicalNested(a);
    CanonicalNested(b);
    SameSplit(JwkPrefix, a.e + tailA, JwkPrefix, b.e + tailB);
    QuoteEndsFirst(a.e, tailA, b.e, tailB);
    SameSplit(a.e, tailA, b.e, tailB);
    SameSplit(JwkMiddle, a.n + JwkSuffix, JwkMiddle, b.n + JwkSuffix);
    SameSplit(a.n, JwkSuffix, b.n, JwkSuffix);
  }

  lemma CanonicalNested(k: Jwk)
    ensures Canonical(k) == JwkPrefix + (k.e + (JwkMiddle + (k.n + JwkSuffix)))
    ensures (JwkMiddle + (k.n + JwkSuffix))[0] == '"'
  {
  }

  /** Equal concatenations with equal-length heads have equal heads and equal tails. */
  lemma SameSplit(x: string, xs: string, y: string, ys: string)
    requires x + xs == y + ys
    requires |x| == |y| || |xs| == |ys|
    ensures x == y && xs == ys
  {
    assert x == (x + xs)[..|x|];
    assert y == (y + ys)[..|y|];
    assert xs == (x + xs)[|x|..];
    assert ys == (y + ys)[|y|..];
  }

  /** A URL-safe text followed by a quote: equal strings of this shape split at the same place. */
  lemma QuoteEndsFirst(x: string, xs: string, y: string, ys: string)
    requires Base64Url.AllUrlSafe(x) && Base64Url.AllUrlSafe(y)
    requires |xs| > 0 && xs[0] == '"' && |ys| > 0 && ys[0] == '"'
    requires x + xs == y + ys
    ensures |x| == |y|
  {
    var k := if |x| < |y| then |x| else |y|;
    assert (x + xs)[k] == (y + ys)[k];
  }

  /** Line 210: base64url of the SHA-256 of the canonical JWK. */
  function Thumbprint(k: Jwk, sha256: seq<byte> -> seq<byte>): (t: string)
    ensures Base64Url.AllUrlSafe(t)
    ensures Base64Url.Decode(t) == Some(sha256(Utf8(Canonical(k))))
  {
    var digest := sha256(Utf8(Canonical(k)));
    Base64Url.EncodeShape(digest);
    Base64Url.RoundTrip(digest);
    Base64Url.Encode(digest)
  }

  /** With a 32-octet digest the thumbprint is 43 characters without `.` or `=`. */
  lemma ThumbprintShape(k: Jwk, sha256: seq<byte> -> seq<byte>)
    requires |sha256(Utf8(Canonical(k)))| == 32
    ensures |Thumbprint(k, sha256)| == 43
    ensures '.' !in Thumbprint(k, sha256) && '=' !in Thumbprint(k, sha256)
  {
    Base64Url.EncodeShape(sha256(Utf8(Canonical(k))));
  }

  /** Line 297: the key authorization `token "." thumbprint` (RFC 8555 section 8.1). */
  function KeyAuthorization(token: string, thumbprint: string): (r: string)
    ensures '.' !in thumbprint ==> SplitLastDot(r) == Some((token, thumbprint))
  {
    SplitLastDotAppended(token, thumbprint);
    token + "." + thumbprint
  }

  /** `s.rpartition(".")` when `s` holds a dot: the text before and after the last dot. */
  function SplitLastDot(s: string): (r: Option<(string, string)>)
    ensures r.None? <==> '.' !in s
    ensures r.Some? ==> r.value.0 + "." + r.value.1 == s && '.' !in r.value.1
    decreases |s|
  {
    if s == [] then None
    else if s[|s| - 1] == '.' then Some((s[..|s| - 1], ""))
    else match SplitLastDot(s[..|s| - 1])
      case None => None
      case Some((before, after)) =>
        assert s == s[..|s| - 1] + [s[|s| - 1]];
        Some((before, after + [s[|s| - 1]]))
  }

  /** Text joined to a dot-free tail by a dot splits back at its last dot. */
  lemma {:induction false} SplitLastDotAppended(before: string, after: string)
    ensures '.' !in after ==> SplitLastDot(before + "." + after) == Some((before, after))
    decreases |after|
  {
    var s := before + "." + after;
    if '.' in after {
    } else if after != [] {
      var shorter := after[..|after| - 1];
      assert s[..|s| - 1] == before + "." + shorter;
      SplitLastDotAppended(before, shorter);
      assert shorter + [after[|after| - 1]] == after;
    } else {
      assert s[..|s| - 1] == before;
    }
  }

  /** Line 298: the TXT record value, base64url(SHA-256(key authorization)) (RFC 8555 section 8.4). */
  function TxtValue(token: string, thumbprint: string, sha256: seq<byte> -> seq<byte>): (v: string)
    ensures Base64Url.AllUrlSafe(v)
    ensures Base64Url.Decode(v) == Some(sha256(Utf8(KeyAuthorization(token, thumbprint))))
  {
    var digest := sha256(Utf8(KeyAuthorization(token, thumbprint)));
    Base64Url.EncodeShape(digest);
    Base64Url.RoundTrip(digest);
    Base64Url.Encode(digest)
  }
}
