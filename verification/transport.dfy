/** `_send_signed_request` of `automation/acme_certs.py` (lines 122-166): the JWS
    envelope of RFC 8555 section 6.2, the single Replay-Nonce slot of section 6.5,
    and the bounded retry of the POST. The HTTP exchange is replaced by what the
    server answers; `json.dumps` and the openssl signature are parameters. */
module Transport {
  import opened Outcomes
  import opened Json
  import opened Trace
  import opened Bytes
  import Base64Url

  /** `str.lower` on a character of a header name. `http.client` decodes header names as
      ISO-8859-1, so only code points below 256 occur; of those, A-Z and U+00C0-U+00DE
      except U+00D7 have a lower-case partner 32 code points up. */
  function LowerChar(c: char): char {
    if 'A' <= c <= 'Z' || ('\U{C0}' <= c <= '\U{DE}' && c != '\U{D7}') then (c as int + 32) as char else c
  }

  /** `name.lower()`, the key under which `requests` files a header. */
  function Lower(name: string): string {
    seq(|name|, i requires 0 <= i < |name| => LowerChar(name[i]))
  }

  lemma LowerIdempotent(name: string)
    ensures Lower(Lower(name)) == Lower(name)
  {
  }

  /** The headers of a `requests` response, a case-insensitive dictionary: each name is kept
      in lower case, so two spellings of one name are one entry. */
  type Headers = h: map<string, string> | forall k :: k in h ==> Lower(k) == k

  /** `response.headers[name]` (lines 130, 155, 228, 255, 265, 355): the entry whose name
      equals `name` up to case, `None` standing for the KeyError of a missing one. */
  function Header(h: Headers, name: string): (r: Option<string>)
    ensures r.None? <==> forall k :: k in h ==> Lower(k) != Lower(name)
    ensures forall k :: k in h && Lower(k) == Lower(name) ==> r == Some(h[k])
  {
    if Lower(name) in h then Some(h[Lower(name)]) else None
  }

  /** A header as the server sends it, in whatever case, filed by `requests`. */
  function Store(h: Headers, name: string, value: string): Headers {
    LowerIdempotent(name);
    h[Lower(name) := value]
  }

  /** A header can be read back under any spelling of its name, and storing it leaves the
      other names alone. */
  lemma HeaderIgnoresCase(h: Headers, sent: string, asked: string, value: string)
    ensures Lower(sent) == Lower(asked) ==> Header(Store(h, sent, value), asked) == Some(value)
    ensures Lower(sent) != Lower(asked) ==> Header(Store(h, sent, value), asked) == Header(h, asked)
  {
  }

  /** A nonce sent as `replay-nonce` is found by the lookup of `Replay-Nonce` at line 155. */
  lemma LowerCaseNonce(value: string)
    ensures Header(map["replay-nonce" := value], "Replay-Nonce") == Some(value)
  {
    assert Lower("Replay-Nonce") == "replay-nonce";
  }

  /** What the client reads from an HTTP response: the status, the headers, the body
      as JSON (`None` when `response.json()` fails) and the raw text. */
  datatype Response = Response(status: int, headers: Headers, body: Option<Json>, text: string)

  /** Line 154: `if response:`. A `requests` response is true unless it carries a
      client or server error status (400 to 599); no response at all (`None`) is false. */
  predicate Accepted(reply: Option<Response>)
    ensures reply.Some? && 200 <= reply.value.status < 400 ==> Accepted(reply)
    ensures reply.Some? && 400 <= reply.value.status < 600 ==> !Accepted(reply)
    ensures reply.None? ==> !Accepted(reply)
  {
    reply.Some? && !(400 <= reply.value.status < 600)
  }

  /** The two foreign computations of a signed request. */
  datatype Crypto = Crypto(dumps: Json -> string, sign: seq<byte> -> seq<byte>)

  /** The state `_send_signed_request` shares with `get_crt`: the account's
      `private_acme_signature`, the directory's newAccount URL, the fixed
      request headers, and the nonce slot. */
  datatype Client = Client(crypto: Crypto, newAccount: string, adt: map<string, string>,
                           signature: map<string, Json>, nonce: Option<string>)

  /** The server's side of one signed request: the headers of the answer to the newNonce
      GET, should one be made (`None`: the GET raised), and the reply to each POST attempt
      (`None`: the request failed without a response). */
  datatype Exchange = Exchange(fetched: Option<Headers>, replies: nat -> Option<Response>)

  /** What a signed request returns: the response, its body (`{}` when it is not JSON)
      and the nonce the client keeps for the next request. */
  datatype Answer = Answer(response: Response, body: Json, nonce: string)

  /** Lines 125-128: the empty string (POST-as-GET, RFC 8555 section 6.3) is sent as an
      empty payload; any other payload as its JSON text, base64url-encoded. */
  function Payload64(c: Crypto, payload: Json): (r: string)
    ensures payload == JStr("") ==> r == ""
    ensures payload != JStr("") ==> Base64Url.Decode(r) == Some(Utf8(c.dumps(payload)))
  {
    Base64Url.RoundTrip(Utf8(c.dumps(payload)));
    if payload == JStr("") then "" else Base64Url.Encode(Utf8(c.dumps(payload)))
  }

  /** The server reads the payload back: nothing for POST-as-GET, the JSON text otherwise. */
  lemma PayloadDecodes(c: Crypto, payload: Json)
    ensures Base64Url.AllUrlSafe(Payload64(c, payload))
    ensures payload == JStr("") ==> Payload64(c, payload) == ""
    ensures payload != JStr("") ==> Base64Url.Decode(Payload64(c, payload)) == Some(Utf8(c.dumps(payload)))
  {
    if payload != JStr("") {
      var text := Utf8(c.dumps(payload));
      Base64Url.EncodeShape(text);
      Base64Url.RoundTrip(text);
    }
  }

  /** Line 130: `nonce or requests.get(newNonce).headers['Replay-Nonce']`. The GET stands
      outside any `try`, so its failure ends the run. */
  function TakeNonce(slot: Option<string>, fetched: Option<Headers>): (r: Run<string>)
    ensures (slot.None? || slot.value == "") <==> r.trace == [NonceFetch]
    ensures slot.Some? && slot.value != "" ==> r == Run([], Ok(slot.value))
    ensures r.trace == [NonceFetch] && fetched.Some? && Header(fetched.value, "Replay-Nonce").Some?
            ==> r.result == Ok(Header(fetched.value, "Replay-Nonce").value)
    ensures !r.result.Ok? <==> r.trace == [NonceFetch] && (fetched.None? || Header(fetched.value, "Replay-Nonce").None?)
    ensures r.trace == [NonceFetch] && fetched.None? ==> r.result == Raised(RequestException)
    ensures r.trace == [NonceFetch] && fetched.Some? && !r.result.Ok? ==> r.result == Raised(KeyError)
  {
    if slot.Some? && slot.value != "" then Run([], Ok(slot.value))
    else if fetched.None? then Run([NonceFetch], Raised(RequestException))
    else match Header(fetched.value, "Replay-Nonce")
      case Some(nonce) => Run([NonceFetch], Ok(nonce))
      case None => Run([NonceFetch], Raised(KeyError))
  }

  /** Lines 129-137: the protected header: the account signature with the nonce and the
      URL set, and `kid` (on newAccount, if present) or `jwk` (otherwise; its absence
      raises) deleted. */
  function Protected(signature: map<string, Json>, nonce: string, url: string, newAccount: string)
    : (r: Result<map<string, Json>>)
    ensures r.Ok? || r == Raised(KeyError)
    ensures url == newAccount ==> r.Ok? && "kid" !in r.value
    ensures url != newAccount ==> (r.Ok? <==> "jwk" in signature)
    ensures url != newAccount && r.Ok? ==> "jwk" !in r.value
    ensures r.Ok? ==> "nonce" in r.value && r.value["nonce"] == JStr(nonce) && "url" in r.value && r.value["url"] == JStr(url)
  {
    var p := signature["nonce" := JStr(nonce)]["url" := JStr(url)];
    if url == newAccount then Ok(if "kid" in p then p - {"kid"} else p)
    else if "jwk" in p then Ok(p - {"jwk"})
    else Raised(KeyError)
  }

  /** Section 6.2 of RFC 8555: the newAccount request identifies the account by its key
      (`jwk`, never `kid`), every other request by its URL (`kid`, never `jwk`); the header
      carries the nonce and the URL, and the rest of the account signature unchanged. */
  lemma ProtectedHeader(signature: map<string, Json>, nonce: string, url: string, newAccount: string)
    ensures var r := Protected(signature, nonce, url, newAccount);
      && (r.Ok? || r == Raised(KeyError))
      && (url == newAccount ==> r.Ok? && "kid" !in r.value && ("jwk" in r.value <==> "jwk" in signature))
      && (url != newAccount ==> (r.Ok? <==> "jwk" in signature))
      && (url != newAccount && r.Ok? ==> "jwk" !in r.value && ("kid" in r.value <==> "kid" in signature))
      && (r.Ok? ==> "nonce" in r.value && r.value["nonce"] == JStr(nonce))
      && (r.Ok? ==> "url" in r.value && r.value["url"] == JStr(url))
      && (r.Ok? ==> forall k :: k in r.value && k != "nonce" && k != "url" ==> k in signature && r.value[k] == signature[k])
      && (r.Ok? ==> forall k :: k in signature && k != "kid" && k != "jwk" ==> k in r.value)
  {
  }

  /** Lines 138-143: the JWS in flattened JSON serialization (section 7.2.2 of RFC 7515). */
  function Seal(c: Crypto, protected: map<string, Json>, payload64: string): (e: Envelope)
    ensures e.payload == payload64
    ensures Base64Url.Decode(e.protected) == Some(Utf8(c.dumps(JObj(protected))))
    ensures Base64Url.Decode(e.signature) == Some(c.sign(Utf8(e.protected + "." + payload64)))
  {
    var protected64 := Base64Url.Encode(Utf8(c.dumps(JObj(protected))));
    var signature := c.sign(Utf8(protected64 + "." + payload64));
    Base64Url.RoundTrip(Utf8(c.dumps(JObj(protected))));
    Base64Url.RoundTrip(signature);
    Envelope(protected64, payload64, Base64Url.Encode(signature))
  }

  /** The server decodes the header back to its JSON text, and the signature back to the
      signature over the ASCII text `protected64 + "." + payload64`, the signing input of
      section 5.1 of RFC 7515. */
  lemma SealDecodes(c: Crypto, protected: map<string, Json>, payload64: string)
    ensures var e := Seal(c, protected, payload64);
      && e.payload == payload64
      && Base64Url.Decode(e.protected) == Some(Utf8(c.dumps(JObj(protected))))
      && Base64Url.Decode(e.signature) == Some(c.sign(Utf8(e.protected + "." + e.payload)))
      && Base64Url.AllUrlSafe(e.protected) && Base64Url.AllUrlSafe(e.signature)
  {
    var header := Utf8(c.dumps(JObj(protected)));
    Base64Url.RoundTrip(header);
    Base64Url.EncodeShape(header);
    var e := Seal(c, protected, payload64);
    var signature := c.sign(Utf8(e.protected + "." + payload64));
    Base64Url.RoundTrip(signature);
    Base64Url.EncodeShape(signature);
  }

  /** Lines 144-146: the JOSE content type, then the client's fixed headers, then the
      caller's extra headers (an absent argument is the empty map). */
  function JoseHeaders(adt: map<string, string>, extra: map<string, string>): (h: map<string, string>)
    ensures h.Keys == {"Content-Type"} + adt.Keys + extra.Keys
    ensures forall k :: k in extra ==> h[k] == extra[k]
  {
    map["Content-Type" := "application/jose+json"] + adt + extra
  }

  /** A later header source wins: extra headers over fixed ones over the content type. */
  lemma JoseHeadersMerge(adt: map<string, string>, extra: map<string, string>)
    ensures var h := JoseHeaders(adt, extra);
      && h.Keys == {"Content-Type"} + adt.Keys + extra.Keys
      && (forall k :: k in extra ==> h[k] == extra[k])
      && (forall k :: k in adt && k !in extra ==> h[k] == adt[k])
      && ("Content-Type" !in adt && "Content-Type" !in extra ==> h["Content-Type"] == "application/jose+json")
  {
  }

  /** Lines 147-166 from attempt `k`, whose backoff before doubling is `backoff`. */
  function PostLoop(url: string, jose: Envelope, headers: map<string, string>,
                    replies: nat -> Option<Response>, k: nat, backoff: nat): (r: Run<Response>)
    requires backoff == Pow2(k) && backoff <= 64
    ensures |r.trace| >= 1 && r.trace[0] == Attempt(url, jose, headers)
    ensures r.result.Ok? || r.result == Raised(RuntimeError)
    ensures r.result.Ok? ==> Accepted(Some(r.result.value))
    decreases 64 - backoff
  {
    var post := Attempt(url, jose, headers);
    var b := backoff * 2;
    var reply := replies(k);
    if Accepted(reply) then Run([post], Ok(reply.value))
    else if b > 64 then Run([post], Raised(RuntimeError))
    else
      var rest := PostLoop(url, jose, headers, replies, k + 1, b);
      Run([post, Sleep(b)] + rest.trace, rest.result)
  }

  /** Reference: the index of the first accepted reply, at most 6. */
  function PostSettles(replies: nat -> Option<Response>, k: nat): (n: nat)
    requires k <= 6
    ensures k <= n <= 6
    ensures forall j :: k <= j < n ==> !Accepted(replies(j))
    ensures n < 6 ==> Accepted(replies(n))
    decreases 6 - k
  {
    if k == 6 || Accepted(replies(k)) then k else PostSettles(replies, k + 1)
  }

  /** The attempts and sleeps of the loop: one attempt per reply up to the settling one. */
  lemma {:induction false} PostLoopTrace(url: string, jose: Envelope, headers: map<string, string>,
                                         replies: nat -> Option<Response>, k: nat, backoff: nat)
    requires k <= 6 && backoff == Pow2(k) && backoff <= 64
    ensures PostLoop(url, jose, headers, replies, k, backoff).trace
      == Retried(Attempt(url, jose, headers), 2 * backoff, PostSettles(replies, k) - k)
    decreases 6 - k
  {
    var post := Attempt(url, jose, headers);
    var r := PostLoop(url, jose, headers, replies, k, backoff);
    Pow2Facts(k);
    if k < 6 && !Accepted(replies(k)) {
      var rest := PostLoop(url, jose, headers, replies, k + 1, 2 * backoff);
      assert r.trace == [post, Sleep(2 * backoff)] + rest.trace;
      PostLoopTrace(url, jose, headers, replies, k + 1, 2 * backoff);
      var n := PostSettles(replies, k);
      assert n == PostSettles(replies, k + 1) && n >= k + 1;
      RetriedStep(post, 2 * backoff, n - k);
    } else {
      assert r.trace == [post];
      assert PostSettles(replies, k) == k;
    }
  }

  /** How the loop ends: the settling reply if it was accepted, `RuntimeError` otherwise. */
  lemma {:induction false} PostLoopResult(url: string, jose: Envelope, headers: map<string, string>,
                                          replies: nat -> Option<Response>, k: nat, backoff: nat)
    requires k <= 6 && backoff == Pow2(k) && backoff <= 64
    ensures var n := PostSettles(replies, k);
      PostLoop(url, jose, headers, replies, k, backoff).result
        == (if Accepted(replies(n)) then Ok(replies(n).value) else Raised(RuntimeError))
    decreases 6 - k
  {
    Pow2Facts(k);
    if k < 6 && !Accepted(replies(k)) {
      PostLoopResult(url, jose, headers, replies, k + 1, 2 * backoff);
    }
  }

  lemma PostLoopClosedForm(url: string, jose: Envelope, headers: map<string, string>,
                           replies: nat -> Option<Response>, k: nat, backoff: nat)
    requires k <= 6 && backoff == Pow2(k) && backoff <= 64
    ensures var n, post := PostSettles(replies, k), Attempt(url, jose, headers);
      var r := PostLoop(url, jose, headers, replies, k, backoff);
      && r.trace == Retried(post, 2 * backoff, n - k)
      && r.result == (if Accepted(replies(n)) then Ok(replies(n).value) else Raised(RuntimeError))
  {
    PostLoopTrace(url, jose, headers, replies, k, backoff);
    PostLoopResult(url, jose, headers, replies, k, backoff);
  }

  /** Line 155 and lines 156-159: keep the reply's Replay-Nonce (a missing header raises) and
      parse the body, an empty object standing for a body that is not JSON. */
  function Read(response: Response): (r: Result<Answer>)
    ensures r.Ok? <==> exists k :: k in response.headers && Lower(k) == Lower("Replay-Nonce")
    ensures !r.Ok? ==> r == Raised(KeyError)
    ensures r.Ok? ==> r.value.response == response
    ensures forall k :: k in response.headers && Lower(k) == Lower("Replay-Nonce") ==>
              r.Ok? && r.value.nonce == response.headers[k]
    ensures r.Ok? && response.body.Some? ==> r.value.body == response.body.value
    ensures r.Ok? && response.body.None? ==> r.value.body == EmptyObject
  {
    match Header(response.headers, "Replay-Nonce")
    case None => Raised(KeyError)
    case Some(nonce) => Ok(Answer(response, if response.body.Some? then response.body.value else EmptyObject, nonce))
  }

  /** The envelope a request is sent in, once the nonce is known. */
  function Jose(c: Client, url: string, payload: Json, nonce: string): (r: Result<Envelope>)
    ensures r.Ok? || r == Raised(KeyError)
    ensures url == c.newAccount ==> r.Ok?
    ensures url != c.newAccount ==> (r.Ok? <==> "jwk" in c.signature)
    ensures r.Ok? ==> r.value.payload == Payload64(c.crypto, payload)
  {
    var protected :- Protected(c.signature, nonce, url, c.newAccount);
    Ok(Seal(c.crypto, protected, Payload64(c.crypto, payload)))
  }

  /** Lines 147-166 after signing: the retry loop, then the reading of the accepted reply;
      `pre` is what the nonce step recorded. */
  function Deliver(pre: seq<Event>, url: string, jose: Envelope, headers: map<string, string>,
                   replies: nat -> Option<Response>): (r: Run<Answer>)
    ensures r.result.Ok? || r.result.Raised?
    ensures r.result.Ok? ==> Accepted(Some(r.result.value.response))
    ensures r.result.Ok? ==> Header(r.result.value.response.headers, "Replay-Nonce") == Some(r.result.value.nonce)
    ensures |r.trace| > |pre| && r.trace[..|pre|] == pre && r.trace[|pre|] == Attempt(url, jose, headers)
  {
    var loop := PostLoop(url, jose, headers, replies, 0, 1);
    PostLoopClosedForm(url, jose, headers, replies, 0, 1);
    Run(pre + loop.trace, if loop.result.Ok? then Read(loop.result.value) else Raised(RuntimeError))
  }

  /** `_send_signed_request(url, payload, extra_headers)`. */
  function Send(c: Client, url: string, payload: Json, extra: map<string, string>, ex: Exchange)
    : (r: Run<Answer>)
    ensures r.result.Ok? || r.result.Raised?
    ensures r.result.Ok? ==> Accepted(Some(r.result.value.response))
    ensures r.result.Ok? ==> Header(r.result.value.response.headers, "Replay-Nonce") == Some(r.result.value.nonce)
    ensures (c.nonce.None? || c.nonce.value == "") <==> |r.trace| > 0 && r.trace[0] == NonceFetch
  {
    var n := TakeNonce(c.nonce, ex.fetched);
    if !n.result.Ok? then Run(n.trace, n.result.PropagateFailure())
    else
      var jose := Jose(c, url, payload, n.result.value);
      if !jose.Ok? then Run(n.trace, Raised(KeyError))
      else Deliver(n.trace, url, jose.value, JoseHeaders(c.adt, extra), ex.replies)
  }

  /** The loop after signing, spelled out. */
  lemma DeliverClosedForm(pre: seq<Event>, url: string, jose: Envelope, headers: map<string, string>,
                          replies: nat -> Option<Response>)
    ensures var r, n := Deliver(pre, url, jose, headers, replies), PostSettles(replies, 0);
      && r.trace == pre + Retried(Attempt(url, jose, headers), 2, n)
      && r.result == (if Accepted(replies(n)) then Read(replies(n).value) else Raised(RuntimeError))
  {
    PostLoopClosedForm(url, jose, headers, replies, 0, 1);
  }

  /** The request, spelled out: the nonce step, then the retry loop with one envelope. */
  lemma SendClosedForm(c: Client, url: string, payload: Json, extra: map<string, string>, ex: Exchange)
    ensures var r, nt := Send(c, url, payload, extra, ex), TakeNonce(c.nonce, ex.fetched);
      && (!nt.result.Ok? ==> r == Run(nt.trace, nt.result.PropagateFailure()))
      && (nt.result.Ok? && !Jose(c, url, payload, nt.result.value).Ok? ==> r == Run(nt.trace, Raised(KeyError)))
      && (nt.result.Ok? && Jose(c, url, payload, nt.result.value).Ok? ==>
            var e := Attempt(url, Jose(c, url, payload, nt.result.value).value, JoseHeaders(c.adt, extra));
            var n := PostSettles(ex.replies, 0);
            && r.trace == nt.trace + Retried(e, 2, n)
            && r.result == (if Accepted(ex.replies(n)) then Read(ex.replies(n).value) else Raised(RuntimeError)))
  {
    var nt := TakeNonce(c.nonce, ex.fetched);
    if nt.result.Ok? && Jose(c, url, payload, nt.result.value).Ok? {
      var jose := Jose(c, url, payload, nt.result.value).value;
      DeliverClosedForm(nt.trace, url, jose, JoseHeaders(c.adt, extra), ex.replies);
    }
  }

  /** Lines 147-166: once signed, the same envelope is posted at most seven times, with
      sleeps doubling from 2 seconds between the attempts. */
  lemma SendRetries(c: Client, url: string, payload: Json, extra: map<string, string>, ex: Exchange)
    requires TakeNonce(c.nonce, ex.fetched).result.Ok?
    requires Jose(c, url, payload, TakeNonce(c.nonce, ex.fetched).result.value).Ok?
    ensures var r := Send(c, url, payload, extra, ex);
      var e := Attempt(url, Jose(c, url, payload, TakeNonce(c.nonce, ex.fetched).result.value).value,
                       JoseHeaders(c.adt, extra));
      && 1 <= Occurrences(r.trace, e) <= 7
      && (forall i :: 0 <= i < |r.trace| && r.trace[i].Attempt? ==> r.trace[i] == e)
      && Doubling(Sleeps(r.trace), 2)
  {
    var nt := TakeNonce(c.nonce, ex.fetched);
    var jose := Jose(c, url, payload, nt.result.value).value;
    assert Send(c, url, payload, extra, ex) == Deliver(nt.trace, url, jose, JoseHeaders(c.adt, extra), ex.replies);
    DeliverRetries(nt.trace, url, jose, JoseHeaders(c.adt, extra), ex.replies);
  }

  lemma DeliverRetries(pre: seq<Event>, url: string, jose: Envelope, headers: map<string, string>,
                       replies: nat -> Option<Response>)
    requires pre == [] || pre == [NonceFetch]
    ensures var r, e := Deliver(pre, url, jose, headers, replies), Attempt(url, jose, headers);
      && 1 <= Occurrences(r.trace, e) <= 7
      && (forall i :: 0 <= i < |r.trace| && r.trace[i].Attempt? ==> r.trace[i] == e)
      && Doubling(Sleeps(r.trace), 2)
  {
    DeliverClosedForm(pre, url, jose, headers, replies);
    RetriedAfter(pre, Attempt(url, jose, headers), 2, PostSettles(replies, 0));
  }

  /** Lines 160-163: RuntimeError comes exactly when none of the seven replies is accepted,
      after six sleeps of 2, 4, ..., 64 seconds. */
  lemma SendGivesUp(c: Client, url: string, payload: Json, extra: map<string, string>, ex: Exchange)
    requires TakeNonce(c.nonce, ex.fetched).result.Ok?
    requires Jose(c, url, payload, TakeNonce(c.nonce, ex.fetched).result.value).Ok?
    ensures var r := Send(c, url, payload, extra, ex);
      && (r.result == Raised(RuntimeError) <==> forall j :: 0 <= j < 7 ==> !Accepted(ex.replies(j)))
      && (r.result == Raised(RuntimeError) ==> Sleeps(r.trace) == [2, 4, 8, 16, 32, 64])
  {
    var r := Send(c, url, payload, extra, ex);
    var nt := TakeNonce(c.nonce, ex.fetched);
    var e := Attempt(url, Jose(c, url, payload, nt.result.value).value, JoseHeaders(c.adt, extra));
    var n := PostSettles(ex.replies, 0);
    SendClosedForm(c, url, payload, extra, ex);
    SettlesGivesUp(ex.replies);
    if Accepted(ex.replies(n)) {
      var read := Read(ex.replies(n).value);
      assert r.result == read && read != Raised(RuntimeError);
    } else {
      assert r.result == Raised(RuntimeError);
      assert n == 6;
      RetriedAfter(nt.trace, e, 2, n);
      SixDoublings(Sleeps(BackoffTrace(e, 2, 6)), 2);
    }
  }

  /** The loop settles on a refused reply exactly when all seven replies are refused. */
  lemma SettlesGivesUp(replies: nat -> Option<Response>)
    ensures var n := PostSettles(replies, 0);
      && (!Accepted(replies(n)) <==> forall j :: 0 <= j < 7 ==> !Accepted(replies(j)))
      && (!Accepted(replies(n)) ==> n == 6)
  {
  }

  /** Lines 130-131 and 155: the nonce a reply carries is the one the next request sends; it
      fetches a fresh one only when the reply's Replay-Nonce was empty. */
  lemma NonceChain(c: Client, url: string, payload: Json, extra: map<string, string>, ex: Exchange,
                   url2: string, payload2: Json, extra2: map<string, string>, ex2: Exchange)
    requires Send(c, url, payload, extra, ex).result.Ok?
    ensures var a := Send(c, url, payload, extra, ex).result.value;
      var r2 := Send(Advance(c, a), url2, payload2, extra2, ex2);
      && ((|r2.trace| > 0 && r2.trace[0] == NonceFetch) <==> a.nonce == "")
      && (a.nonce != "" ==> TakeNonce(Advance(c, a).nonce, ex2.fetched) == Run([], Ok(Header(a.response.headers, "Replay-Nonce").value)))
  {
  }

  /** A signed request as one step of a stage: its `Call` event stands for the nonce fetch,
      attempts and sleeps that `Send` records. */
  function Request(c: Client, url: string, payload: Json, extra: map<string, string>, ex: Exchange)
    : (r: Run<Answer>)
    ensures r.trace == [Call(url, payload)]
    ensures r.result.Ok? || r.result.Raised?
    ensures r.result.Ok? ==> Accepted(Some(r.result.value.response))
  {
    Run([Call(url, payload)], Send(c, url, payload, extra, ex).result)
  }

  /** Repeated POST-as-GET requests of `url` (section 6.3 of RFC 8555): the answer to the
      `k`-th, sent by a client in state `c`, meeting `exchanges(k)`. */
  function Polls(url: string, exchanges: nat -> Exchange): (Client, nat) -> Result<Answer> {
    (c: Client, k: nat) => Request(c, url, JStr(""), map[], exchanges(k)).result
  }

  /** The client after an answered request: the nonce slot holds the answer's Replay-Nonce. */
  function Advance(c: Client, a: Answer): Client {
    c.(nonce := Some(a.nonce))
  }
}
