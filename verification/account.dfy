/** Account registration and contact reconciliation of `get_crt` (lines 201-248 of
    `automation/acme_certs.py`), following sections 7.3 and 7.3.2 of RFC 8555. Every
    signed request goes through the transport model, so the nonce slot and the
    account's `kid` are threaded from one request to the next. */
module Account {
  import opened Outcomes
  import opened Json
  import opened Trace
  import opened Text
  import opened Transport
  import AccountKey

  /** Lines 201-208: `private_acme_signature` before registration. */
  function InitialSignature(k: AccountKey.Jwk): (s: map<string, Json>)
    ensures s.Keys == {"alg", "jwk"}
    ensures s["alg"] == JStr("RS256") && s["jwk"] == AccountKey.JwkObject(k)
  {
    map["alg" := JStr("RS256"), "jwk" := AccountKey.JwkObject(k)]
  }

  /** Section 6.2 of RFC 8555: before registration the newAccount request is signed with
      the key itself, and every other request raises for want of a `jwk` to delete only
      after the key is replaced by a `kid`. */
  lemma NewAccountCarriesKey(k: AccountKey.Jwk, nonce: string, newAccount: string)
    ensures var p := Protected(InitialSignature(k), nonce, newAccount, newAccount);
      && p.Ok? && "jwk" in p.value && p.value["jwk"] == AccountKey.JwkObject(k) && "kid" !in p.value
      && p.value["alg"] == JStr("RS256")
  {
  }

  /** Line 214: `acme_config.get("meta", {}).get("termsOfService", "")`; both `get`s need a
      dictionary, and a missing entry leaves the empty string, which is false. */
  function TermsOfService(directory: Json): (r: Result<Json>)
    ensures r.Ok? <==> directory.JObj? && ("meta" in directory.fields ==> directory.fields["meta"].JObj?)
    ensures !r.Ok? ==> r == Raised(AttributeError)
    ensures r.Ok? && "meta" in directory.fields && "termsOfService" in directory.fields["meta"].fields
            ==> r.value == directory.fields["meta"].fields["termsOfService"]
    ensures r.Ok? && !("meta" in directory.fields && "termsOfService" in directory.fields["meta"].fields)
            ==> r.value == JStr("") && !Truthy(r.value)
  {
    var meta :- GetOr(directory, "meta", EmptyObject);
    GetOr(meta, "termsOfService", JStr(""))
  }

  /** The `contact` list: the configured Contacts split on `;`. */
  function ContactList(contacts: string): (r: seq<Json>)
    ensures |r| == |Split(contacts, ";", None)| >= 1
    ensures forall i :: 0 <= i < |r| ==> r[i] == JStr(Split(contacts, ";", None)[i])
  {
    var parts := Split(contacts, ";", None);
    seq(|parts|, i requires 0 <= i < |parts| => JStr(parts[i]))
  }

  /** Lines 217-224: the payload of the newAccount request. */
  function AccountRequest(terms: Json, contacts: string): (req: map<string, Json>)
    ensures "termsOfServiceAgreed" in req <==> Truthy(terms)
    ensures "termsOfServiceAgreed" in req ==> req["termsOfServiceAgreed"] == JBool(true)
    ensures "contact" in req <==> contacts != ""
    ensures "contact" in req ==> req["contact"] == JArr(ContactList(contacts))
    ensures req.Keys <= {"termsOfServiceAgreed", "contact"}
  {
    var agreed: map<string, Json> := if Truthy(terms) then map["termsOfServiceAgreed" := JBool(true)] else map[];
    var list := ContactList(contacts);
    SplitEmpty(contacts, ";");
    if list == [JStr("")] then
      assert Split(contacts, ";", None) == [""] by {
        assert list[0] == JStr(Split(contacts, ";", None)[0]);
      }
      agreed
    else agreed["contact" := JArr(list)]
  }

  /** The contacts the account request carries join back to the configured string. */
  lemma ContactsRoundTrip(terms: Json, contacts: string)
    requires "contact" in AccountRequest(terms, contacts)
    ensures var list := AccountRequest(terms, contacts)["contact"].items;
      Join(seq(|list|, i requires 0 <= i < |list| => list[i].s), ";") == contacts
  {
    var parts := Split(contacts, ";", None);
    var list := AccountRequest(terms, contacts)["contact"].items;
    assert seq(|list|, i requires 0 <= i < |list| => list[i].s) == parts;
    SplitJoin(contacts, ";", None);
  }

  /** The account as registered: the client now signs with the account URL as `kid`, and
      the account object the server returned. */
  datatype Registered = Registered(client: Client, kid: string, info: Json)

  /** Lines 227-237, given the answer to the newAccount request. 201 is a new account,
      200 an existing one, fetched again with a POST-as-GET whose status is not checked;
      any other status raises. Either way the `Location` header becomes the `kid`, and
      its absence raises. */
  function Registration(c: Client, pre: seq<Event>, a: Answer, refetch: Exchange): (r: Run<Registered>)
    ensures r.result.Ok? ==> && a.response.status in {200, 201}
                             && Header(a.response.headers, "Location") == Some(r.result.value.kid)
                             && r.result.value.client.signature == c.signature["kid" := JStr(r.result.value.kid)]
    ensures a.response.status !in {200, 201} ==> r == Run(pre, Raised(ValueError))
    ensures a.response.status in {200, 201} && Header(a.response.headers, "Location").None? ==> r == Run(pre, Raised(KeyError))
    ensures a.response.status == 201 && Header(a.response.headers, "Location").Some? ==>
              r.result.Ok? && r.trace == pre && r.result.value.info == a.body
    ensures a.response.status == 200 && Header(a.response.headers, "Location").Some? ==>
              var kid := Header(a.response.headers, "Location").value;
              var c1 := Advance(c, a).(signature := c.signature["kid" := JStr(kid)]);
              var s := Request(c1, kid, JStr(""), map[], refetch);
              && r.trace == pre + s.trace
              && (r.result.Ok? <==> s.result.Ok?)
              && (s.result.Ok? ==> r.result.value.info == s.result.value.body)
  {
    var status := a.response.status;
    if status != 201 && status != 200 then Run(pre, Raised(ValueError))
    else if Header(a.response.headers, "Location").None? then Run(pre, Raised(KeyError))
    else
      var kid := Header(a.response.headers, "Location").value;
      var c1 := Advance(c, a).(signature := c.signature["kid" := JStr(kid)]);
      if status == 201 then Run(pre, Ok(Registered(c1, kid, a.body)))
      else
        var s := Request(c1, kid, JStr(""), map[], refetch);
        if s.result.Ok? then Run(pre + s.trace, Ok(Registered(Advance(c1, s.result.value), kid, s.result.value.body)))
        else Run(pre + s.trace, Raised(s.result.fault))
  }

  /** Line 226: the newAccount request, then the decision on its answer. */
  function Register(c: Client, req: map<string, Json>, first: Exchange, refetch: Exchange): (r: Run<Registered>)
    ensures var s := Request(c, c.newAccount, JObj(req), map[], first);
      && (!s.result.Ok? ==> r == Run(s.trace, s.result.PropagateFailure()))
      && (s.result.Ok? ==> r == Registration(c, s.trace, s.result.value, refetch))
  {
    var s := Request(c, c.newAccount, JObj(req), map[], first);
    if s.result.Ok? then Registration(c, s.trace, s.result.value, refetch)
    else Run(s.trace, Raised(s.result.fault))
  }

  /** `set(x)` for the value of the account's `contact` field: a list gives its elements
      (a nested list or object is unhashable), a string its characters, an object its keys;
      anything else is not iterable. */
  function ElementSet(j: Json): (r: Result<set<Json>>)
    ensures r.Ok? || r == Raised(TypeError)
    ensures r.Ok? <==> j.JStr? || j.JObj? || (j.JArr? && forall i :: 0 <= i < |j.items| ==> !j.items[i].JArr? && !j.items[i].JObj?)
    ensures j.JArr? && r.Ok? ==> forall x :: x in r.value <==> x in j.items
    ensures j.JObj? ==> r.Ok? && forall k :: JStr(k) in r.value <==> k in j.fields
  {
    match j
    case JArr(items) =>
      if exists i :: 0 <= i < |items| && (items[i].JArr? || items[i].JObj?) then Raised(TypeError)
      else Ok(set i | 0 <= i < |items| :: items[i])
    case JStr(text) => Ok(set i | 0 <= i < |text| :: JStr([text[i]]))
    case JObj(fields) => Ok(set k | k in fields :: JStr(k))
    case _ => Raised(TypeError)
  }

  /** Lines 239-241: the contact update is needed when the request has contacts and they
      differ, as a set, from the account's; the lookup and the `set` can raise. */
  function ContactsDiffer(req: map<string, Json>, info: Json): (r: Result<bool>)
    ensures r.Ok? || r.Raised?
    ensures "contact" !in req ==> r == Ok(false)
    ensures "contact" in req ==> (r.Ok? <==> Get(info, "contact").Ok? && ElementSet(Get(info, "contact").value).Ok?)
    ensures "contact" in req && r.Ok? ==>
      (r.value <==> ElementSet(req["contact"]) != ElementSet(Get(info, "contact").value))
  {
    if "contact" !in req then Ok(false)
    else
      var theirs :- Get(info, "contact");
      var theirSet :- ElementSet(theirs);
      Ok(ElementSet(req["contact"]) != Ok(theirSet))
  }

  /** Lines 239-248: the update request, sent only when the contacts differ; a status other
      than 200 raises. */
  function UpdateContacts(reg: Registered, req: map<string, Json>, ex: Exchange): (r: Run<Client>)
    ensures ContactsDiffer(req, reg.info) == Ok(false) ==> r == Run([], Ok(reg.client))
    ensures !ContactsDiffer(req, reg.info).Ok? ==> r.trace == [] && r.result.Raised?
    ensures ContactsDiffer(req, reg.info) == Ok(true) ==>
      var s := Request(reg.client, reg.kid, JObj(req), map[], ex);
      && r.trace == s.trace
      && (r.result.Ok? <==> s.result.Ok? && s.result.value.response.status == 200)
      && (s.result.Ok? && s.result.value.response.status != 200 ==> r.result == Raised(ValueError))
  {
    var d := ContactsDiffer(req, reg.info);
    if !d.Ok? then Run([], Raised(d.fault))
    else
      if !d.value then Run([], Ok(reg.client))
      else
        var s := Request(reg.client, reg.kid, JObj(req), map[], ex);
        if !s.result.Ok? then Run(s.trace, Raised(s.result.fault))
        else if s.result.value.response.status != 200 then Run(s.trace, Raised(ValueError))
        else Run(s.trace, Ok(Advance(reg.client, s.result.value)))
  }

  /** When the account already lists exactly the configured contacts, no update is sent. */
  lemma NoUpdateWhenInSync(reg: Registered, terms: Json, contacts: string, ex: Exchange)
    requires reg.info.JObj? && "contact" in reg.info.fields
    requires var theirs := reg.info.fields["contact"];
      theirs.JArr? && forall x :: x in theirs.items <==> x in ContactList(contacts)
    ensures UpdateContacts(reg, AccountRequest(terms, contacts), ex) == Run([], Ok(reg.client))
  {
    var req := AccountRequest(terms, contacts);
    var theirs := reg.info.fields["contact"];
    forall i | 0 <= i < |theirs.items|
      ensures !theirs.items[i].JArr? && !theirs.items[i].JObj?
    {
      assert theirs.items[i] in ContactList(contacts);
    }
    if "contact" in req {
      var ours := ElementSet(req["contact"]).value;
      var their := ElementSet(theirs).value;
      assert ours == their;
    }
  }
}
