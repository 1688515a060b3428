/** Finalization and download of `get_crt` (lines 342-377 of `automation/acme_certs.py`),
    sections 7.4 and 7.4.2 of RFC 8555: the CSR is sent to the order's `finalize` URL, the
    order is polled until it is `valid`, and the certificate is fetched. The poll has no
    bound in the code; here it carries fuel, and `None` means the fuel ran out first. */
module Finalize {
  import opened Outcomes
  import opened Json
  import opened Trace
  import opened Transport

  /** The payload of line 345, `{"csr": csr_der}`. */
  function CsrPayload(csr: string): (j: Json)
    ensures j.JObj? && j.fields.Keys == {"csr"}
    ensures Get(j, "csr") == Ok(JStr(csr))
  {
    JObj(map["csr" := JStr(csr)])
  }

  /** Lines 345-348: the CSR, base64url of its DER form, is posted to `order["finalize"]`;
      any status but 200 raises. */
  function SendCsr(c: Client, order: Json, csr: string, ex: Exchange): (r: Run<Client>)
    ensures r.result.Ok? || r.result.Raised?
    ensures !Get(order, "finalize").Ok? ==> r == Run([], Raised(Get(order, "finalize").fault))
    ensures r.result.Ok? ==> exists url :: Get(order, "finalize") == Ok(JStr(url))
                                         && r.trace == [Call(url, CsrPayload(csr))]
  {
    var url := Get(order, "finalize");
    var urlText := if url.Ok? then AsText(url.value) else Raised(url.fault);
    if !urlText.Ok? then Run([], Raised(urlText.fault))
    else
      var sent := Request(c, urlText.value, CsrPayload(csr), map[], ex);
      if !sent.result.Ok? then Run(sent.trace, Raised(sent.result.fault))
      else if sent.result.value.response.status != 200 then Run(sent.trace, Raised(ValueError))
      else Run(sent.trace, Ok(Advance(c, sent.result.value)))
  }

  /** Lines 353-357: the wait a `processing` answer asks for. A missing `Retry-After` raises
      KeyError, which the `except` of line 356 does not catch; a value `seconds` cannot
      read (`float` or `time.sleep` raising ValueError, TypeError or OverflowError) waits 2. */
  function RetryAfter(headers: Headers, seconds: string -> Option<nat>): (r: Result<nat>)
    ensures r.Ok? <==> Header(headers, "Retry-After").Some?
    ensures !r.Ok? ==> r == Raised(KeyError)
    ensures r.Ok? && seconds(Header(headers, "Retry-After").value).None? ==> r.value == 2
    ensures r.Ok? && seconds(Header(headers, "Retry-After").value).Some? ==> r.value == seconds(Header(headers, "Retry-After").value).value
  {
    if Header(headers, "Retry-After").None? then Raised(KeyError)
    else match seconds(Header(headers, "Retry-After").value)
      case Some(n) => Ok(n)
      case None => Ok(2)
  }

  /** Lines 350-363 from poll `k`, with `fuel` polls left; `ask(c, k)` is the answer to the
      `k`-th POST-as-GET of the order. There is no status-code check: `processing` waits and
      polls again, `valid` ends the loop with the order, anything else raises. The order's
      body replaces the one held before. */
  function Settle(c: Client, ask: (Client, nat) -> Result<Answer>, location: string,
                  seconds: string -> Option<nat>, k: nat, fuel: nat): (r: Option<Run<(Client, Json)>>)
    ensures r.Some? ==> |r.value.trace| >= 1 && r.value.trace[0] == Call(location, JStr(""))
    ensures r.Some? && r.value.result.Ok? ==> Get(r.value.result.value.1, "status") == Ok(JStr("valid"))
    decreases fuel
  {
    if fuel == 0 then None
    else
      var call := [Call(location, JStr(""))];
      var a := ask(c, k);
      if !a.Ok? then Some(Run(call, a.PropagateFailure()))
      else
        var status := Get(a.value.body, "status");
        if !status.Ok? then Some(Run(call, status.PropagateFailure()))
        else if status.value == JStr("processing") then
          var wait := RetryAfter(a.value.response.headers, seconds);
          if !wait.Ok? then Some(Run(call, wait.PropagateFailure()))
          else
            match Settle(Advance(c, a.value), ask, location, seconds, k + 1, fuel - 1)
            case None => None
            case Some(rest) => Some(Run([Call(location, JStr("")), Sleep(wait.value)] + rest.trace, rest.result))
        else if status.value == JStr("valid") then Some(Run(call, Ok((Advance(c, a.value), a.value.body))))
        else Some(Run(call, Raised(ValueError)))
  }

  /** More fuel changes nothing once the loop has ended. */
  lemma {:induction false} SettleFuel(c: Client, ask: (Client, nat) -> Result<Answer>, location: string,
                                      seconds: string -> Option<nat>, k: nat, fuel: nat, more: nat)
    requires Settle(c, ask, location, seconds, k, fuel).Some?
    ensures Settle(c, ask, location, seconds, k, fuel + more) == Settle(c, ask, location, seconds, k, fuel)
    decreases fuel
  {
    var a := ask(c, k);
    if a.Ok? {
      var status := Get(a.value.body, "status");
      var wait := RetryAfter(a.value.response.headers, seconds);
      if status.Ok? && status.value == JStr("processing") && wait.Ok? {
        SettleFuel(Advance(c, a.value), ask, location, seconds, k + 1, fuel - 1, more);
      }
    }
  }

  /** Whether answer `a` to a poll makes the loop wait, and for how long. */
  function Waits(a: Result<Answer>, seconds: string -> Option<nat>): (w: Option<nat>)
    ensures w.Some? ==> a.Ok? && Get(a.value.body, "status") == Ok(JStr("processing"))
                        && RetryAfter(a.value.response.headers, seconds) == Ok(w.value)
  {
    if a.Ok? && Get(a.value.body, "status") == Ok(JStr("processing"))
       && RetryAfter(a.value.response.headers, seconds).Ok?
    then Some(RetryAfter(a.value.response.headers, seconds).value)
    else None
  }

  /** One poll of the loop: either it ends there after a single request, or it waits and
      the rest of the loop follows the sleep. */
  lemma SettleStep(c: Client, ask: (Client, nat) -> Result<Answer>, location: string,
                   seconds: string -> Option<nat>, k: nat, fuel: nat)
    requires Settle(c, ask, location, seconds, k, fuel).Some?
    ensures var r, w := Settle(c, ask, location, seconds, k, fuel).value, Waits(ask(c, k), seconds);
      && (w.None? ==> r.trace == [Call(location, JStr(""))])
      && (w.Some? ==>
            var rest := Settle(Advance(c, ask(c, k).value), ask, location, seconds, k + 1, fuel - 1);
            && fuel > 0 && rest.Some?
            && r == Run([Call(location, JStr("")), Sleep(w.value)] + rest.value.trace, rest.value.result))
  {
  }

  /** An ended loop polled at least once and at most once per unit of fuel. */
  lemma {:induction false} SettlePolls(c: Client, ask: (Client, nat) -> Result<Answer>, location: string,
                                       seconds: string -> Option<nat>, k: nat, fuel: nat)
    requires Settle(c, ask, location, seconds, k, fuel).Some?
    ensures var r := Settle(c, ask, location, seconds, k, fuel).value;
      1 <= Occurrences(r.trace, Call(location, JStr(""))) <= fuel
    decreases fuel
  {
    var e := Call(location, JStr(""));
    var w := Waits(ask(c, k), seconds);
    SettleStep(c, ask, location, seconds, k, fuel);
    assert Occurrences([e], e) == 1;
    if w.Some? {
      var next := Advance(c, ask(c, k).value);
      SettlePolls(next, ask, location, seconds, k + 1, fuel - 1);
      WaitStep(e, w.value, Settle(next, ask, location, seconds, k + 1, fuel - 1).value.trace);
    }
  }

  /** An ended loop slept once between each two polls and not after the last. */
  lemma {:induction false} SettleSleeps(c: Client, ask: (Client, nat) -> Result<Answer>, location: string,
                                        seconds: string -> Option<nat>, k: nat, fuel: nat)
    requires Settle(c, ask, location, seconds, k, fuel).Some?
    ensures var r := Settle(c, ask, location, seconds, k, fuel).value;
      |Sleeps(r.trace)| + 1 == Occurrences(r.trace, Call(location, JStr("")))
    decreases fuel
  {
    var e := Call(location, JStr(""));
    var w := Waits(ask(c, k), seconds);
    SettleStep(c, ask, location, seconds, k, fuel);
    assert Occurrences([e], e) == 1 && Sleeps([e]) == [];
    if w.Some? {
      var next := Advance(c, ask(c, k).value);
      SettleSleeps(next, ask, location, seconds, k + 1, fuel - 1);
      WaitStep(e, w.value, Settle(next, ask, location, seconds, k + 1, fuel - 1).value.trace);
    }
  }

  /** When requests only answer or raise, the loop never exits, and it returns only an order
      whose status is `valid`. */
  lemma {:induction false} SettleResult(c: Client, ask: (Client, nat) -> Result<Answer>, location: string,
                                        seconds: string -> Option<nat>, k: nat, fuel: nat)
    requires Settle(c, ask, location, seconds, k, fuel).Some?
    requires forall c': Client, j: nat :: ask(c', j).Ok? || ask(c', j).Raised?
    ensures var r := Settle(c, ask, location, seconds, k, fuel).value;
      && (r.result.Ok? || r.result.Raised?)
      && (r.result.Ok? ==> Get(r.result.value.1, "status") == Ok(JStr("valid")))
    decreases fuel
  {
    var a := ask(c, k);
    if a.Ok? {
      var status := Get(a.value.body, "status");
      var wait := RetryAfter(a.value.response.headers, seconds);
      if status.Ok? && status.value == JStr("processing") && wait.Ok? {
        SettleResult(Advance(c, a.value), ask, location, seconds, k + 1, fuel - 1);
      }
    }
  }

  /** Signed requests only return answers or raise. */
  lemma PollsAnswerOrRaise(location: string, exchanges: nat -> Exchange)
    ensures forall c': Client, j: nat :: Polls(location, exchanges)(c', j).Ok? || Polls(location, exchanges)(c', j).Raised?
  {
    forall c': Client, j: nat
      ensures Polls(location, exchanges)(c', j).Ok? || Polls(location, exchanges)(c', j).Raised?
    {
      var r := Request(c', location, JStr(""), map[], exchanges(j));
      assert Polls(location, exchanges)(c', j) == r.result;
    }
  }

  /** Lines 353-357: a `processing` answer without `Retry-After` ends the loop with KeyError;
      one whose value cannot be read sleeps 2 seconds before the next poll. */
  lemma ProcessingWaits(c: Client, ask: (Client, nat) -> Result<Answer>, location: string,
                        seconds: string -> Option<nat>, k: nat, fuel: nat)
    requires fuel > 0 && ask(c, k).Ok?
    requires Get(ask(c, k).value.body, "status") == Ok(JStr("processing"))
    ensures var headers, r := ask(c, k).value.response.headers, Settle(c, ask, location, seconds, k, fuel);
      && (Header(headers, "Retry-After").None? ==> r == Some(Run([Call(location, JStr(""))], Raised(KeyError))))
      && (Header(headers, "Retry-After").Some? && seconds(Header(headers, "Retry-After").value).None? && r.Some? ==>
            |r.value.trace| >= 2 && r.value.trace[1] == Sleep(2))
  {
  }

  /** Line 367: the `Accept` header of the download, `application/pem-certificate-chain`
      unless the configuration names another format. */
  function AcceptHeader(format: Option<string>): (h: map<string, string>)
    ensures h.Keys == {"Accept"}
    ensures format.Some? ==> h["Accept"] == format.value
    ensures format.None? ==> h["Accept"] == "application/pem-certificate-chain"
  {
    map["Accept" := if format.Some? then format.value else "application/pem-certificate-chain"]
  }

  /** Lines 365-377: a POST-as-GET of `order["certificate"]` with the chosen `Accept`
      header; any status but 200 raises; the result is the response text. */
  function Download(c: Client, order: Json, format: Option<string>, ex: Exchange): (r: Run<string>)
    ensures r.result.Ok? || r.result.Raised?
    ensures r.result.Ok? ==> exists url, a :: && Get(order, "certificate") == Ok(JStr(url))
                                            && r.trace == [Call(url, JStr(""))]
                                            && Send(c, url, JStr(""), AcceptHeader(format), ex).result == Ok(a)
                                            && a.response.status == 200 && r.result.value == a.response.text
  {
    var url := Get(order, "certificate");
    var urlText := if url.Ok? then AsText(url.value) else Raised(url.fault);
    if !urlText.Ok? then Run([], Raised(urlText.fault))
    else
      var got := Request(c, urlText.value, JStr(""), AcceptHeader(format), ex);
      if !got.result.Ok? then Run(got.trace, Raised(got.result.fault))
      else if got.result.value.response.status != 200 then Run(got.trace, Raised(ValueError))
      else Run(got.trace, Ok(got.result.value.response.text))
  }

  /** Every attempt of the download carries the `Accept` header next to the JOSE content type. */
  lemma DownloadAccepts(c: Client, url: string, format: Option<string>, ex: Exchange)
    requires TakeNonce(c.nonce, ex.fetched).result.Ok?
    requires Jose(c, url, JStr(""), TakeNonce(c.nonce, ex.fetched).result.value).Ok?
    requires "Content-Type" !in c.adt
    ensures var r := Send(c, url, JStr(""), AcceptHeader(format), ex);
      forall i :: 0 <= i < |r.trace| && r.trace[i].Attempt? ==>
        && "Accept" in r.trace[i].headers && r.trace[i].headers["Accept"] == AcceptHeader(format)["Accept"]
        && "Content-Type" in r.trace[i].headers && r.trace[i].headers["Content-Type"] == "application/jose+json"
  {
    SendRetries(c, url, JStr(""), AcceptHeader(format), ex);
    JoseHeadersMerge(c.adt, AcceptHeader(format));
  }

  /** Lines 342-377 end to end: the CSR is sent, the order at `location` is polled until it
      settles (within `fuel` polls), and the certificate of the settled order is fetched. */
  function Certify(c: Client, order: Json, location: string, csr: string, sent: Exchange,
                   polls: nat -> Exchange, seconds: string -> Option<nat>, format: Option<string>,
                   fetched: Exchange, fuel: nat): (r: Option<Run<string>>)
    ensures !SendCsr(c, order, csr, sent).result.Ok? ==> r.Some? && r.value.trace == SendCsr(c, order, csr, sent).trace
    ensures r.Some? ==> SendCsr(c, order, csr, sent).trace <= r.value.trace
    ensures r.Some? && r.value.result.Ok? ==> SendCsr(c, order, csr, sent).result.Ok?
  {
    var f := SendCsr(c, order, csr, sent);
    if !f.result.Ok? then Some(Run(f.trace, f.result.PropagateFailure()))
    else match Settle(f.result.value, Polls(location, polls), location, seconds, 0, fuel)
      case None => None
      case Some(settled) =>
        if !settled.result.Ok? then Some(Run(f.trace + settled.trace, settled.result.PropagateFailure()))
        else
          var d := Download(settled.result.value.0, settled.result.value.1, format, fetched);
          Some(Run(f.trace + settled.trace + d.trace, d.result))
  }

  /** A certificate comes only from an order the CA reported `valid`: the download follows
      polls of `location` that ended with that status, and the text is the download's. */
  lemma CertifiedOrderIsValid(c: Client, order: Json, location: string, csr: string, sent: Exchange,
                              polls: nat -> Exchange, seconds: string -> Option<nat>, format: Option<string>,
                              fetched: Exchange, fuel: nat)
    requires var r := Certify(c, order, location, csr, sent, polls, seconds, format, fetched, fuel);
      r.Some? && r.value.result.Ok?
    ensures var f := SendCsr(c, order, csr, sent);
      && f.result.Ok?
      && var settled := Settle(f.result.value, Polls(location, polls), location, seconds, 0, fuel);
      && settled.Some? && settled.value.result.Ok?
      && Get(settled.value.result.value.1, "status") == Ok(JStr("valid"))
      && Certify(c, order, location, csr, sent, polls, seconds, format, fetched, fuel).value.result
         == Download(settled.value.result.value.0, settled.value.result.value.1, format, fetched).result
  {
    var f := SendCsr(c, order, csr, sent);
    PollsAnswerOrRaise(location, polls);
    SettleResult(f.result.value, Polls(location, polls), location, seconds, 0, fuel);
  }
}
