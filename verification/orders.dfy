/** The order of `get_crt` (lines 173-188 and 250-268 of `automation/acme_certs.py`):
    the domains named by the CSR, the newOrder request of section 7.4 of RFC 8555, and
    the decision on its answer. The openssl text of the CSR is replaced by what the
    regular expressions of lines 177-182 capture. */
module Orders {
  import opened Outcomes
  import opened Json
  import opened Trace
  import opened Text
  import opened Transport

  /** Lines 184-186: the names of the `DNS:` entries of a SAN list, in order. */
  function DnsNames(entries: seq<string>): (r: seq<string>)
    ensures forall d :: d in r <==> exists i :: 0 <= i < |entries| && StartsWith(entries[i], "DNS:") && entries[i][4..] == d
  {
    if entries == [] then []
    else
      var rest := DnsNames(entries[1..]);
      assert forall i :: 1 <= i < |entries| ==> entries[i] == entries[1..][i - 1];
      if StartsWith(entries[0], "DNS:") then [entries[0][4..]] + rest else rest
  }

  /** Lines 176-188: the domains to validate, from the subject's common name and the SAN
      list (each captured text is optional); a CSR naming none raises. */
  function CsrDomains(commonName: Option<string>, sans: Option<string>): (r: Result<set<string>>)
    ensures r.Ok? || r == Raised(ValueError)
    ensures r.Ok? <==> commonName.Some? || (sans.Some? && DnsNames(Split(sans.value, ", ", None)) != [])
    ensures r.Ok? ==> forall d :: d in r.value <==>
      (commonName == Some(d) || (sans.Some? && d in DnsNames(Split(sans.value, ", ", None))))
  {
    var fromCn: set<string> := if commonName.Some? then {commonName.value} else {};
    var names := if sans.Some? then DnsNames(Split(sans.value, ", ", None)) else [];
    var domains := fromCn + set i | 0 <= i < |names| :: names[i];
    assert names != [] ==> names[0] in domains;
    assert commonName.Some? ==> commonName.value in domains;
    if |domains| == 0 then Raised(ValueError) else Ok(domains)
  }

  /** A `dns` identifier of section 9.7.7 of RFC 8555. */
  function DnsIdentifier(domain: string): Json {
    JObj(map["type" := JStr("dns"), "value" := JStr(domain)])
  }

  /** `listing` is what iterating the set `domains` yields: each domain once, in an order
      Python leaves unspecified. */
  ghost predicate Enumerates(listing: seq<string>, domains: set<string>) {
    && (forall d :: d in listing <==> d in domains)
    && (forall i, k :: 0 <= i < k < |listing| ==> listing[i] != listing[k])
  }

  /** Line 252: the newOrder payload holds one `dns` identifier for each domain of the CSR,
      and nothing else. */
  function NewOrder(domains: set<string>, listing: seq<string>): (j: Json)
    requires Enumerates(listing, domains)
    ensures j.JObj? && j.fields.Keys == {"identifiers"} && j.fields["identifiers"].JArr?
    ensures var ids := j.fields["identifiers"].items;
      && (forall d :: d in domains <==> DnsIdentifier(d) in ids)
      && (forall i :: 0 <= i < |ids| ==> exists d :: d in domains && ids[i] == DnsIdentifier(d))
      && (forall i, k :: 0 <= i < k < |ids| ==> ids[i] != ids[k])
  {
    var ids := seq(|listing|, i requires 0 <= i < |listing| => DnsIdentifier(listing[i]));
    assert forall i :: 0 <= i < |ids| ==> ids[i] == DnsIdentifier(listing[i]) && listing[i] in domains;
    assert forall d :: DnsIdentifier(d) in ids ==> d in listing by {
      forall d | DnsIdentifier(d) in ids ensures d in listing {
        var i :| 0 <= i < |ids| && ids[i] == DnsIdentifier(d);
        assert DnsIdentifier(listing[i]).fields["value"] == JStr(d);
      }
    }
    assert forall i, k :: 0 <= i < k < |ids| ==> ids[i] != ids[k] by {
      forall i, k | 0 <= i < k < |ids| ensures ids[i] != ids[k] {
        assert ids[i].fields["value"] == JStr(listing[i]) && ids[k].fields["value"] == JStr(listing[k]);
      }
    }
    JObj(map["identifiers" := JArr(ids)])
  }

  /** Lines 176-188 and 252: the order asks for exactly the names the CSR carries, its
      common name and its `DNS:` alternative names, each once. */
  lemma OrderNamesCsr(commonName: Option<string>, sans: Option<string>, listing: seq<string>)
    requires CsrDomains(commonName, sans).Ok?
    requires Enumerates(listing, CsrDomains(commonName, sans).value)
    ensures var ids := NewOrder(CsrDomains(commonName, sans).value, listing).fields["identifiers"].items;
      && (forall d :: DnsIdentifier(d) in ids <==>
            commonName == Some(d) || (sans.Some? && d in DnsNames(Split(sans.value, ", ", None))))
      && (forall i, k :: 0 <= i < k < |ids| ==> ids[i] != ids[k])
  {
  }

  const UserActionRequired: string := "urn:ietf:params:acme:error:userActionRequired"

  /** The created order: its URL (the `Location` header) and the order object. */
  datatype Created = Created(location: string, order: Json)

  /** Lines 254-268: 201 with a `pending` or `ready` order is accepted; a 403 asking for user
      action raises after formatting its `detail`, `Link` and `instance` (each may be missing);
      anything else raises. */
  function OrderCreated(a: Answer): (r: Result<Created>)
    ensures r.Ok? || r.Raised?
    ensures r.Ok? <==> && a.response.status == 201 && Header(a.response.headers, "Location").Some?
                       && Get(a.body, "status").Ok?
                       && Get(a.body, "status").value in {JStr("pending"), JStr("ready")}
    ensures r.Ok? ==> r.value == Created(Header(a.response.headers, "Location").value, a.body)
    ensures a.response.status != 201 && a.response.status != 403 ==> r == Raised(ValueError)
    ensures (a.response.status == 201 && Header(a.response.headers, "Location").Some? && Get(a.body, "status").Ok?
             && !r.Ok?) ==> r == Raised(ValueError)
  {
    var response, order := a.response, a.body;
    if response.status == 201 then
      if Header(response.headers, "Location").None? then Raised(KeyError)
      else
        var status :- Get(order, "status");
        if status != JStr("pending") && status != JStr("ready") then Raised(ValueError)
        else Ok(Created(Header(response.headers, "Location").value, order))
    else if response.status == 403 then
      var kind :- Get(order, "type");
      if kind != JStr(UserActionRequired) then Raised(ValueError)
      else
        var _ :- Get(order, "detail");
        if Header(response.headers, "Link").None? then Raised(KeyError)
        else
          var _ :- Get(order, "instance");
          Raised(ValueError)
    else Raised(ValueError)
  }

  /** Line 253: the newOrder request and the decision on its answer. */
  function CreateOrder(c: Client, newOrder: string, domains: set<string>, listing: seq<string>, ex: Exchange)
    : (r: Run<(Client, Created)>)
    requires Enumerates(listing, domains)
    ensures var s := Request(c, newOrder, NewOrder(domains, listing), map[], ex);
      && r.trace == s.trace
      && (r.result.Ok? <==> s.result.Ok? && OrderCreated(s.result.value).Ok?)
      && (r.result.Ok? ==> r.result.value == (Advance(c, s.result.value), OrderCreated(s.result.value).value))
  {
    var s := Request(c, newOrder, NewOrder(domains, listing), map[], ex);
    if !s.result.Ok? then Run(s.trace, Raised(s.result.fault))
    else
      var o := OrderCreated(s.result.value);
      if o.Ok? then Run(s.trace, Ok((Advance(c, s.result.value), o.value)))
      else Run(s.trace, Raised(o.fault))
  }

  /** A 403 never reaches line 260: the transport only returns accepted responses, so the
      user-action branch is dead and a refused order ends in the transport's RuntimeError
      or, for any other status but 201, in the generic ValueError. */
  lemma ForbiddenNeverDecided(c: Client, newOrder: string, domains: set<string>, listing: seq<string>, ex: Exchange)
    requires Enumerates(listing, domains)
    requires Request(c, newOrder, NewOrder(domains, listing), map[], ex).result.Ok?
    ensures var a := Request(c, newOrder, NewOrder(domains, listing), map[], ex).result.value;
      && a.response.status != 403
      && (a.response.status != 201 ==> OrderCreated(a) == Raised(ValueError))
  {
  }
}
