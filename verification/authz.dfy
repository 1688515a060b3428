/** The authorizations of an order (lines 270-340 of `automation/acme_certs.py`): each is
    fetched, its dns-01 challenge (section 8.4 of RFC 8555) is answered with a TXT record,
    the challenge is triggered and polled (section 7.5.1), and the record is removed
    again. The stage traces show each signed request as one `Call` event. */
module Authorizations {
  import opened Outcomes
  import opened Json
  import opened Trace
  import opened Bytes
  import opened Transport
  import DnsProvider
  import AccountKey

  /** What every authorization shares: the `--root` flag, the account key's thumbprint, and SHA-256. */
  datatype Settings = Settings(root: bool, thumbprint: string, sha256: seq<byte> -> seq<byte>)

  /** What one authorization meets: the answers to its fetch, its trigger and its polls, the
      DNS provider's and the resolver's behaviour, and whether its `i`-th DELETE came back
      (`deleted(i)`; line 322 sends the first on the way to exit 4, line 340 the last). */
  datatype AuthzNet = AuthzNet(fetch: Exchange, txt: nat -> DnsProvider.ProviderReply, found: nat -> bool,
                               trigger: Exchange, polls: nat -> Exchange, deleted: nat -> bool)

  /** What a fetched authorization asks for: nothing (already valid), or solving a challenge. */
  datatype Job = Skip | Solve(domain: Json, challenge: Json)

  /** The challenge whose `type` is dns-01. */
  predicate IsDns01(challenge: Json) {
    Get(challenge, "type") == Ok(JStr("dns-01"))
  }

  /** Line 291: the dns-01 challenges in their order; the first entry without a `type`
      (or that is not an object) raises. */
  function Dns01(challenges: seq<Json>): (r: Result<seq<Json>>)
    ensures r.Ok? || r.Raised?
    ensures r.Ok? <==> forall i :: 0 <= i < |challenges| ==> Get(challenges[i], "type").Ok?
    ensures r.Ok? ==> forall x :: x in r.value <==> x in challenges && IsDns01(x)
    ensures r.Ok? && r.value != [] ==> exists i :: 0 <= i < |challenges| && challenges[i] == r.value[0]
                                                    && forall j :: 0 <= j < i ==> !IsDns01(challenges[j])
  {
    if challenges == [] then Ok([])
    else
      var kind :- Get(challenges[0], "type");
      var rest :- Dns01(challenges[1..]);
      assert forall i :: 1 <= i < |challenges| ==> challenges[i] == challenges[1..][i - 1];
      if kind == JStr("dns-01") then Ok([challenges[0]] + rest)
      else
        assert rest != [] ==> exists i :: 0 <= i < |challenges[1..]| && challenges[1..][i] == rest[0]
                                          && forall j :: 0 <= j < i ==> !IsDns01(challenges[1..][j]);
        Ok(rest)
  }

  /** The identifier's value, `authorization["identifier"]["value"]`. */
  function Identifier(authorization: Json): (r: Result<Json>)
    ensures r.Ok? <==> && authorization.JObj? && "identifier" in authorization.fields
                       && authorization.fields["identifier"].JObj?
                       && "value" in authorization.fields["identifier"].fields
    ensures r.Ok? ==> r.value == authorization.fields["identifier"].fields["value"]
  {
    var identifier :- Get(authorization, "identifier");
    Get(identifier, "value")
  }

  /** Lines 279-296: the decision on a fetched authorization. Non-200 raises; `valid` is
      skipped; any status other than `pending` raises; otherwise the first dns-01 challenge
      is taken, and its absence raises. */
  function Inspect(a: Answer): (r: Result<Job>)
    ensures r.Ok? || r.Raised?
    ensures a.response.status != 200 ==> r == Raised(ValueError)
    ensures r == Ok(Skip) <==> && a.response.status == 200 && Identifier(a.body).Ok?
                               && Get(a.body, "status") == Ok(JStr("valid"))
    ensures (&& a.response.status == 200 && Identifier(a.body).Ok? && Get(a.body, "status").Ok?
             && Get(a.body, "status").value !in {JStr("valid"), JStr("pending")}) ==> r == Raised(ValueError)
    ensures r.Ok? && r.value.Solve? ==>
      && Get(a.body, "status") == Ok(JStr("pending"))
      && Identifier(a.body) == Ok(r.value.domain)
      && IsDns01(r.value.challenge)
      && Get(a.body, "challenges").Ok? && Elements(Get(a.body, "challenges").value).Ok?
      && r.value.challenge in Elements(Get(a.body, "challenges").value).value
  {
    if a.response.status != 200 then Raised(ValueError)
    else
      var domain :- Identifier(a.body);
      var status :- Get(a.body, "status");
      if status == JStr("valid") then Ok(Skip)
      else if status != JStr("pending") then Raised(ValueError)
      else
        var listed :- Get(a.body, "challenges");
        var entries :- Elements(listed);
        var dns :- Dns01(entries);
        if dns == [] then Raised(ValueError)
        else
          assert dns[0] in dns;
          Ok(Solve(domain, dns[0]))
  }

  /** The challenge once its TXT record is in place and validation was requested. */
  datatype Armed = Armed(client: Client, url: string, record: string, id: Json)

  /** The TXT record in place: its name and the provider's id for it. */
  datatype Record = Record(name: string, id: Json)

  /** Lines 297-302: the key authorization and its digest, the TXT record at
      `_acme-challenge.<domain>`, and the wait for its propagation. */
  function Provision(s: Settings, domain: Json, challenge: Json, net: AuthzNet): (r: Run<Record>)
    ensures r.result.Ok? || r.result.Raised? || r.result == SysExit(2) || r.result == SysExit(3)
    ensures r.result.Ok? ==> domain.JStr? && r.result.value.name == "_acme-challenge." + domain.s
    ensures r.result.Ok? ==> |DnsProvider.Labels(r.result.value.name)| >= 3
  {
    var token := Get(challenge, "token");
    var tokenText := if token.Ok? then AsText(token.value) else Raised(token.fault);
    var name := AsText(domain);
    if !tokenText.Ok? then Run([], Raised(tokenText.fault))
    else if !name.Ok? then Run([], Raised(name.fault))
    else
      var value := AccountKey.TxtValue(tokenText.value, s.thumbprint, s.sha256);
      var record := "_acme-challenge." + name.value;
      var created := DnsProvider.CreateTxt(s.root, record, value, net.txt);
      if !created.result.Ok? then Run(created.trace, created.result.PropagateFailure())
      else
        var waited := DnsProvider.TestTxt(record, net.found);
        var pre := created.trace + waited.trace;
        if !waited.result.Ok? then Run(pre, waited.result.PropagateFailure())
        else Run(pre, Ok(Record(record, created.result.value)))
  }

  /** Lines 305-308: the request that asks the CA to validate; a challenge without a `url`
      raises here, after the record was created and outside the `try` that deletes it. */
  function Trigger(c: Client, challenge: Json, ex: Exchange): (r: Run<(Client, string)>)
    ensures r.result.Ok? || r.result.Raised?
    ensures r.result.Ok? ==> Get(challenge, "url") == Ok(JStr(r.result.value.1))
    ensures Deletions(r.trace) == 0
  {
    var url := Get(challenge, "url");
    var urlText := if url.Ok? then AsText(url.value) else Raised(url.fault);
    if !urlText.Ok? then Run([], Raised(urlText.fault))
    else
      var trig := Request(c, urlText.value, EmptyObject, map[], ex);
      if !trig.result.Ok? then Run(trig.trace, Raised(trig.result.fault))
      else if trig.result.value.response.status != 200 then Run(trig.trace, Raised(ValueError))
      else Run(trig.trace, Ok((Advance(c, trig.result.value), urlText.value)))
  }

  /** Lines 297-308, the steps before the `try`. */
  function Prepare(c: Client, s: Settings, domain: Json, challenge: Json, net: AuthzNet): (r: Run<Armed>)
    ensures r.result.Ok? || r.result.Raised? || r.result == SysExit(2) || r.result == SysExit(3)
    ensures r.result.Ok? ==> |DnsProvider.Labels(r.result.value.record)| >= 3
    ensures r.result.Ok? ==> domain.JStr? && r.result.value.record == "_acme-challenge." + domain.s
    ensures r.result.Ok? ==> Get(challenge, "url") == Ok(JStr(r.result.value.url))
  {
    var p := Provision(s, domain, challenge, net);
    if !p.result.Ok? then Run(p.trace, p.result.PropagateFailure())
    else
      var t := Trigger(c, challenge, net.trigger);
      if !t.result.Ok? then Run(p.trace + t.trace, Raised(t.result.fault))
      else Run(p.trace + t.trace, Ok(Armed(t.result.value.0, t.result.value.1, p.result.value.name, p.result.value.id)))
  }

  /** What one poll of the challenge says, in the order lines 313-336 test it. */
  datatype Poll =
    | Failed(fault: Fault)     // the request, a non-200 status or the `status` lookup raised
    | Valid(answer: Answer)    // `valid`
    | Waiting(answer: Answer)  // `processing`, `pending` or `invalid`
    | Unexpected               // any other status

  /** Lines 313-317 and 324-336: the reading of one poll's answer. A signed request never
      exits (`Request` ends in a value or an exception), so the last arm is never taken; it
      only makes the function total over `Result`. */
  function Classify(r: Result<Answer>): (p: Poll)
    ensures p.Valid? || p.Waiting? ==> r.Ok? && p.answer == r.value && r.value.response.status == 200
    ensures r.Ok? && r.value.response.status != 200 ==> p == Failed(ValueError)
    ensures r.Ok? && r.value.response.status == 200 && Get(r.value.body, "status").Ok? ==>
      var status := Get(r.value.body, "status").value;
      && (p.Valid? <==> status == JStr("valid"))
      && (p.Waiting? <==> status in {JStr("processing"), JStr("pending"), JStr("invalid")})
      && (p.Unexpected? <==> status !in {JStr("valid"), JStr("processing"), JStr("pending"), JStr("invalid")})
  {
    match r
    case Ok(a) =>
      if a.response.status != 200 then Failed(ValueError)
      else
        var status := Get(a.body, "status");
        if !status.Ok? then Failed(status.fault)
        else if status.value == JStr("valid") then Valid(a)
        else if status.value in {JStr("processing"), JStr("pending"), JStr("invalid")} then Waiting(a)
        else Unexpected
    case Raised(f) => Failed(f)
    case SysExit(_) => Failed(RuntimeError)
  }

  /** Lines 311-338 from poll `k`, whose backoff before doubling is `backoff`; `ask(c, k)`
      is the answer to poll `k` sent by a client in state `c`. `valid` is checked before the
      ceiling; past it the record is deleted and the client exits 4, unless that DELETE
      raises (`answered` is false); `processing`, `pending` and `invalid` wait; anything else
      raises. */
  function PollLoop(c: Client, ask: (Client, nat) -> Result<Answer>, url: string, record: string, id: Json,
                    answered: bool, k: nat, backoff: nat): (r: Run<Client>)
    requires backoff == Pow2(k) && backoff <= 256
    ensures r.result.Ok? || r.result.Raised? || r.result == SysExit(4)
    decreases 256 - backoff
  {
    var b := backoff * 2;
    var call := [Call(url, JStr(""))];
    match Classify(ask(c, k))
    case Failed(f) => Run(call, Raised(f))
    case Valid(a) => Run(call, Ok(Advance(c, a)))
    case Waiting(a) =>
      if b > 256 then Ceiling(call, record, id, answered)
      else
        Pow2Facts(k);
        var rest := PollLoop(Advance(c, a), ask, url, record, id, answered, k + 1, b);
        Run([Call(url, JStr("")), Sleep(b)] + rest.trace, rest.result)
    case Unexpected =>
      if b > 256 then Ceiling(call, record, id, answered) else Run(call, Raised(ValueError))
  }

  /** From poll `k` on: at most `9 - k` polls, all of them when the ceiling is reached, which
      is when the loop deletes the record. */
  lemma {:induction false} PollShape(c: Client, ask: (Client, nat) -> Result<Answer>, url: string,
                                     record: string, id: Json, answered: bool, k: nat, backoff: nat)
    requires backoff == Pow2(k) && backoff <= 256
    ensures var r, e := PollLoop(c, ask, url, record, id, answered, k, backoff), Call(url, JStr(""));
      && Occurrences(r.trace, e) + k <= 9
      && (r.result == SysExit(4) ==> Occurrences(r.trace, e) + k == 9)
      && (Deletions(r.trace) > 0 ==> Occurrences(r.trace, e) + k == 9)
    decreases 256 - backoff
  {
    Pow2Facts(k);
    var r, e := PollLoop(c, ask, url, record, id, answered, k, backoff), Call(url, JStr(""));
    assert Occurrences([e], e) == 1 && Deletions([e]) == 0;
    match Classify(ask(c, k))
    case Waiting(a) =>
      if backoff * 2 > 256 {
        CeilingShape([e], record, id, answered, e);
      } else {
        var rest := PollLoop(Advance(c, a), ask, url, record, id, answered, k + 1, backoff * 2);
        PollShape(Advance(c, a), ask, url, record, id, answered, k + 1, backoff * 2);
        assert r.trace == [e, Sleep(backoff * 2)] + rest.trace && r.result == rest.result;
        WaitStep(e, backoff * 2, rest.trace);
      }
    case Unexpected =>
      if backoff * 2 > 256 {
        CeilingShape([e], record, id, answered, e);
      }
    case _ =>
  }

  /** One sleep between each two polls, and none after the last. */
  lemma {:induction false} PollSleeps(c: Client, ask: (Client, nat) -> Result<Answer>, url: string,
                                      record: string, id: Json, answered: bool, k: nat, backoff: nat)
    requires backoff == Pow2(k) && backoff <= 256
    ensures var r, e := PollLoop(c, ask, url, record, id, answered, k, backoff), Call(url, JStr(""));
      |Sleeps(r.trace)| + 1 == Occurrences(r.trace, e)
    decreases 256 - backoff
  {
    Pow2Facts(k);
    var r, e := PollLoop(c, ask, url, record, id, answered, k, backoff), Call(url, JStr(""));
    assert Occurrences([e], e) == 1 && Sleeps([e]) == [];
    match Classify(ask(c, k))
    case Waiting(a) =>
      if backoff * 2 > 256 {
        CeilingShape([e], record, id, answered, e);
      } else {
        var rest := PollLoop(Advance(c, a), ask, url, record, id, answered, k + 1, backoff * 2);
        PollSleeps(Advance(c, a), ask, url, record, id, answered, k + 1, backoff * 2);
        assert r.trace == [e, Sleep(backoff * 2)] + rest.trace;
        WaitStep(e, backoff * 2, rest.trace);
      }
    case Unexpected =>
      if backoff * 2 > 256 {
        CeilingShape([e], record, id, answered, e);
      }
    case _ =>
  }

  /** From poll `k` on, the record is deleted at most once, on the way to exit 4; that exit
      comes only after the deletion, and a deletion that raises ends the loop instead. */
  lemma {:induction false} PollDeletes(c: Client, ask: (Client, nat) -> Result<Answer>, url: string,
                                       record: string, id: Json, answered: bool, k: nat, backoff: nat)
    requires backoff == Pow2(k) && backoff <= 256
    ensures var r := PollLoop(c, ask, url, record, id, answered, k, backoff);
      && Deletions(r.trace) <= 1
      && (r.result == SysExit(4) ==> Deletions(r.trace) == 1)
      && (Deletions(r.trace) == 1 ==> r.result == CeilingOutcome(answered))
    decreases 256 - backoff
  {
    Pow2Facts(k);
    var r, e := PollLoop(c, ask, url, record, id, answered, k, backoff), Call(url, JStr(""));
    assert Deletions([e]) == 0;
    match Classify(ask(c, k))
    case Waiting(a) =>
      if backoff * 2 > 256 {
        CeilingShape([e], record, id, answered, e);
      } else {
        var rest := PollLoop(Advance(c, a), ask, url, record, id, answered, k + 1, backoff * 2);
        PollDeletes(Advance(c, a), ask, url, record, id, answered, k + 1, backoff * 2);
        assert r.trace == [e, Sleep(backoff * 2)] + rest.trace && r.result == rest.result;
        WaitStep(e, backoff * 2, rest.trace);
      }
    case Unexpected =>
      if backoff * 2 > 256 {
        CeilingShape([e], record, id, answered, e);
      }
    case _ =>
  }

  /** From poll `k` on, the sleeps double from `2 * backoff`. */
  lemma {:induction false} PollDoubling(c: Client, ask: (Client, nat) -> Result<Answer>, url: string,
                                        record: string, id: Json, answered: bool, k: nat, backoff: nat)
    requires backoff == Pow2(k) && backoff <= 256
    ensures Doubling(Sleeps(PollLoop(c, ask, url, record, id, answered, k, backoff).trace), 2 * backoff)
    decreases 256 - backoff
  {
    Pow2Facts(k);
    var r, e := PollLoop(c, ask, url, record, id, answered, k, backoff), Call(url, JStr(""));
    assert Sleeps([e]) == [];
    match Classify(ask(c, k))
    case Waiting(a) =>
      if backoff * 2 > 256 {
        CeilingShape([e], record, id, answered, e);
      } else {
        var rest := PollLoop(Advance(c, a), ask, url, record, id, answered, k + 1, backoff * 2);
        PollDoubling(Advance(c, a), ask, url, record, id, answered, k + 1, backoff * 2);
        assert r.trace == [e, Sleep(backoff * 2)] + rest.trace;
        WaitStep(e, backoff * 2, rest.trace);
        DoublingCons(backoff * 2, Sleeps(rest.trace));
      }
    case Unexpected =>
      if backoff * 2 > 256 {
        CeilingShape([e], record, id, answered, e);
      }
    case _ =>
  }

  /** The ceiling adds no poll and no sleep, and deletes once unless the name is too short. */
  lemma CeilingShape(pre: seq<Event>, record: string, id: Json, answered: bool, e: Event)
    requires e.Call?
    ensures var r := Ceiling(pre, record, id, answered);
      && Occurrences(r.trace, e) == Occurrences(pre, e)
      && Sleeps(r.trace) == Sleeps(pre)
      && Deletions(r.trace) == Deletions(pre) + (if r.result == Raised(IndexError) then 0 else 1)
      && (r.result == CeilingOutcome(answered) || r.result == Raised(IndexError))
  {
    var d := DnsProvider.DeleteTxt(record, id, answered);
    OccurrencesAppend(pre, d.trace, e);
    SleepsAppend(pre, d.trace);
    DeletionsAppend(pre, d.trace);
    if |DnsProvider.Labels(record)| >= 3 {
      var del := TxtDelete(DnsProvider.DeleteBase(record).value, id);
      assert d.trace == [del];
      assert Occurrences([del], e) == 0 && Sleeps([del]) == [] && Deletions([del]) == 1;
    }
  }

  /** Lines 311-323 in full: at most nine polls with sleeps of 2, 4, ..., 256 seconds between
      them. The record is deleted only after all nine polls and all eight sleeps; then the
      client exits 4, or the DELETE's exception ends the loop. */
  lemma PollBounded(c: Client, ask: (Client, nat) -> Result<Answer>, url: string, record: string, id: Json,
                    answered: bool)
    ensures var r, e := PollLoop(c, ask, url, record, id, answered, 0, 1), Call(url, JStr(""));
      && 1 <= Occurrences(r.trace, e) <= 9
      && |Sleeps(r.trace)| <= 8
      && Doubling(Sleeps(r.trace), 2)
      && Deletions(r.trace) <= 1
      && (r.result == SysExit(4) ==> Deletions(r.trace) == 1)
      && (answered ==> (r.result == SysExit(4) <==> Deletions(r.trace) == 1))
      && (Deletions(r.trace) == 1 ==>
            && r.result == CeilingOutcome(answered)
            && Occurrences(r.trace, e) == 9 && Sleeps(r.trace) == [2, 4, 8, 16, 32, 64, 128, 256])
  {
    var r := PollLoop(c, ask, url, record, id, answered, 0, 1);
    PollShape(c, ask, url, record, id, answered, 0, 1);
    PollSleeps(c, ask, url, record, id, answered, 0, 1);
    PollDeletes(c, ask, url, record, id, answered, 0, 1);
    PollDoubling(c, ask, url, record, id, answered, 0, 1);
    if Deletions(r.trace) == 1 {
      EightDoublings(Sleeps(r.trace), 2);
    }
  }

  /** Lines 315-323 at the ninth poll: `valid` is checked before the ceiling, so it still
      wins; any other status, known or not, meets the ceiling: one DELETE, then exit 4 or
      the DELETE's exception. */
  lemma LastPoll(c: Client, ask: (Client, nat) -> Result<Answer>, url: string, record: string, id: Json,
                 answered: bool)
    requires |DnsProvider.Labels(record)| >= 3
    ensures var r, p := PollLoop(c, ask, url, record, id, answered, 8, 256), Classify(ask(c, 8));
      && (p.Valid? ==> r.result == Ok(Advance(c, p.answer)) && Deletions(r.trace) == 0)
      && (p.Failed? ==> r.result == Raised(p.fault) && Deletions(r.trace) == 0)
      && (p.Waiting? || p.Unexpected? ==> r.result == CeilingOutcome(answered) && Deletions(r.trace) == 1)
  {
    Pow2Facts(8);
    var e := Call(url, JStr(""));
    assert Deletions([e]) == 0;
    CeilingShape([e], record, id, answered, e);
  }

  /** How the ceiling ends once its DELETE was sent: `sys.exit(4)`, or the exception of a
      DELETE that did not come back. */
  function CeilingOutcome(answered: bool): (r: Result<Client>)
    ensures r == SysExit(4) <==> answered
    ensures !answered ==> r == Raised(RequestException)
  {
    if answered then SysExit(4) else Raised(RequestException)
  }

  /** Lines 321-323: past the ceiling the record is deleted and the client exits 4, unless
      the DELETE raises. */
  function Ceiling(pre: seq<Event>, record: string, id: Json, answered: bool): (r: Run<Client>)
    ensures |DnsProvider.Labels(record)| < 3 ==> r == Run(pre, Raised(IndexError))
    ensures |DnsProvider.Labels(record)| >= 3 ==>
      r == Run(pre + [TxtDelete(DnsProvider.DeleteBase(record).value, id)], CeilingOutcome(answered))
  {
    var d := DnsProvider.DeleteTxt(record, id, answered);
    Run(pre + d.trace, if d.result.Ok? then SysExit(4) else d.result.PropagateFailure())
  }

  /** The poll of lines 309-338, whose ceiling sends the first DELETE of the authorization. */
  function Polling(armed: Armed, polls: nat -> Exchange, deleted: nat -> bool): Run<Client> {
    PollLoop(armed.client, Polls(armed.url, polls), armed.url, armed.record, armed.id, deleted(0), 0, 1)
  }

  /** Lines 309-340: the poll inside `try`, and the deletion in `finally`. It is the second
      DELETE after a ceiling and the first otherwise; if it raises, its exception replaces
      the poll's outcome, `sys.exit(4)` included. */
  function Validate(armed: Armed, polls: nat -> Exchange, deleted: nat -> bool): (r: Run<Client>)
    ensures var poll := Polling(armed, polls, deleted);
      |DnsProvider.Labels(armed.record)| >= 3 ==>
        && r.trace == poll.trace + [TxtDelete(DnsProvider.DeleteBase(armed.record).value, armed.id)]
        && r.result == (if deleted(Deletions(poll.trace)) then poll.result else Raised(RequestException))
    ensures |DnsProvider.Labels(armed.record)| < 3 ==> r.result == Raised(IndexError)
  {
    var poll := Polling(armed, polls, deleted);
    var d := DnsProvider.DeleteTxt(armed.record, armed.id, deleted(Deletions(poll.trace)));
    Run(poll.trace + d.trace, if d.result.Ok? then poll.result else d.result.PropagateFailure())
  }

  /** Lines 309-340: the `finally` deletes the record once more after the deletion that
      precedes exit 4, so that path deletes it twice and every other path once. Exit 4 needs
      both DELETEs to come back; when either raises, its exception ends the authorization,
      and so does a failing `finally` DELETE after any other outcome of the poll. */
  lemma ValidateDeletes(armed: Armed, polls: nat -> Exchange, deleted: nat -> bool)
    requires |DnsProvider.Labels(armed.record)| >= 3
    ensures var r := Validate(armed, polls, deleted);
      && 1 <= Deletions(r.trace) <= 2
      && (r.result == SysExit(4) ==> Deletions(r.trace) == 2)
      && (Deletions(r.trace) == 2 ==>
            r.result == (if deleted(0) && deleted(1) then SysExit(4) else Raised(RequestException)))
      && (Deletions(r.trace) == 1 && !deleted(0) ==> r.result == Raised(RequestException))
      && (Deletions(r.trace) == 1 ==> r.result != SysExit(4))
      && Occurrences(r.trace, Call(armed.url, JStr(""))) <= 9
      && (r.result.Ok? || r.result.Raised? || r.result == SysExit(4))
  {
    var poll := Polling(armed, polls, deleted);
    var r := Validate(armed, polls, deleted);
    var del := TxtDelete(DnsProvider.DeleteBase(armed.record).value, armed.id);
    PollShape(armed.client, Polls(armed.url, polls), armed.url, armed.record, armed.id, deleted(0), 0, 1);
    PollDeletes(armed.client, Polls(armed.url, polls), armed.url, armed.record, armed.id, deleted(0), 0, 1);
    DeletionsAppend(poll.trace, [del]);
    OccurrencesAppend(poll.trace, [del], Call(armed.url, JStr("")));
    assert Deletions([del]) == 1 && Occurrences([del], Call(armed.url, JStr(""))) == 0;
    assert Deletions(r.trace) == Deletions(poll.trace) + 1;
    if Deletions(poll.trace) == 1 {
      assert poll.result == CeilingOutcome(deleted(0));
      assert r.result == (if deleted(1) then poll.result else Raised(RequestException));
    } else {
      assert poll.result != SysExit(4);
      assert r.result == (if deleted(0) then poll.result else Raised(RequestException));
    }
  }

  /** When every DELETE comes back, exit 4 is exactly the path with two deletions. */
  lemma ValidateDeletesAnswered(armed: Armed, polls: nat -> Exchange, deleted: nat -> bool)
    requires |DnsProvider.Labels(armed.record)| >= 3
    requires deleted(0) && deleted(1)
    ensures var r := Validate(armed, polls, deleted);
      Deletions(r.trace) == (if r.result == SysExit(4) then 2 else 1)
  {
    ValidateDeletes(armed, polls, deleted);
  }

  /** Lines 297-308 delete nothing: a record created before a failing trigger is left in place. */
  lemma PrepareDeletesNothing(c: Client, s: Settings, domain: Json, challenge: Json, net: AuthzNet)
    ensures Deletions(Prepare(c, s, domain, challenge, net).trace) == 0
  {
    var p := Provision(s, domain, challenge, net);
    var t := Trigger(c, challenge, net.trigger);
    ProvisionDeletesNothing(s, domain, challenge, net);
    DeletionsAppend(p.trace, t.trace);
  }

  lemma ProvisionDeletesNothing(s: Settings, domain: Json, challenge: Json, net: AuthzNet)
    ensures Deletions(Provision(s, domain, challenge, net).trace) == 0
  {
    var token := Get(challenge, "token");
    var tokenText := if token.Ok? then AsText(token.value) else Raised(token.fault);
    var name := AsText(domain);
    if tokenText.Ok? && name.Ok? {
      var value := AccountKey.TxtValue(tokenText.value, s.thumbprint, s.sha256);
      var record := "_acme-challenge." + name.value;
      var created := DnsProvider.CreateTxt(s.root, record, value, net.txt);
      var waited := DnsProvider.TestTxt(record, net.found);
      DnsProvider.CreateDeletesNothing(s.root, record, value, net.txt);
      DnsProvider.TestDeletesNothing(record, net.found);
      DeletionsAppend(created.trace, waited.trace);
    }
  }

  /** Lines 278-340 for one authorization URL. */
  function Handle(c: Client, authz: Json, s: Settings, net: AuthzNet): (r: Run<Client>)
    ensures AsText(authz).Ok? ==> |r.trace| >= 1 && r.trace[0] == Call(AsText(authz).value, JStr(""))
    ensures !AsText(authz).Ok? ==> r.trace == [] && r.result.Raised?
    ensures r.result.Ok? || r.result.Raised? || r.result == SysExit(2) || r.result == SysExit(3) || r.result == SysExit(4)
  {
    var url := AsText(authz);
    if !url.Ok? then Run([], Raised(url.fault))
    else
      var f := Request(c, url.value, JStr(""), map[], net.fetch);
      if !f.result.Ok? then Run(f.trace, Raised(f.result.fault))
      else
        var c1 := Advance(c, f.result.value);
        var job := Inspect(f.result.value);
        if !job.Ok? then Run(f.trace, Raised(job.fault))
        else if job.value.Skip? then Run(f.trace, Ok(c1))
        else
          var a := Respond(c1, s, job.value.domain, job.value.challenge, net);
          Run(f.trace + a.trace, a.result)
  }

  /** Lines 297-340: answering the chosen challenge, from the record to its deletion. */
  function Respond(c: Client, s: Settings, domain: Json, challenge: Json, net: AuthzNet): (r: Run<Client>)
    ensures r.result.Ok? || r.result.Raised? || r.result == SysExit(2) || r.result == SysExit(3) || r.result == SysExit(4)
    ensures r.result.Ok? ==> Prepare(c, s, domain, challenge, net).result.Ok?
  {
    var p := Prepare(c, s, domain, challenge, net);
    if !p.result.Ok? then Run(p.trace, p.result.PropagateFailure())
    else
      var v := Validate(p.result.value, net.polls, net.deleted);
      ValidateDeletes(p.result.value, net.polls, net.deleted);
      Run(p.trace + v.trace, v.result)
  }

  /** One authorization deletes its record at most twice: twice on the way to exit 4, when
      a DELETE's exception can also end it, and at most once when it succeeds. */
  lemma HandleDeletes(c: Client, authz: Json, s: Settings, net: AuthzNet)
    ensures var r := Handle(c, authz, s, net);
      && Deletions(r.trace) <= 2
      && (r.result == SysExit(4) ==> Deletions(r.trace) == 2)
      && (Deletions(r.trace) == 2 ==> r.result == SysExit(4) || r.result == Raised(RequestException))
      && (net.deleted(0) && net.deleted(1) ==> (r.result == SysExit(4) <==> Deletions(r.trace) == 2))
      && (r.result.Ok? ==> Deletions(r.trace) <= 1)
  {
    var url := AsText(authz);
    if url.Ok? {
      var f := Request(c, url.value, JStr(""), map[], net.fetch);
      assert Deletions(f.trace) == 0;
      if f.result.Ok? {
        var job := Inspect(f.result.value);
        if job.Ok? && job.value.Solve? {
          var c1 := Advance(c, f.result.value);
          var a := Respond(c1, s, job.value.domain, job.value.challenge, net);
          RespondDeletes(c1, s, job.value.domain, job.value.challenge, net);
          DeletionsAppend(f.trace, a.trace);
        }
      }
    }
  }

  /** Lines 297-340: no deletion unless the challenge was triggered, then one or two; two
      lead to exit 4 or to a DELETE's exception, and a success deleted once. */
  lemma RespondDeletes(c: Client, s: Settings, domain: Json, challenge: Json, net: AuthzNet)
    ensures var r := Respond(c, s, domain, challenge, net);
      && Deletions(r.trace) <= 2
      && (Deletions(r.trace) == 0 <==> !Prepare(c, s, domain, challenge, net).result.Ok?)
      && (r.result == SysExit(4) ==> Deletions(r.trace) == 2)
      && (Deletions(r.trace) == 2 ==>
            r.result == (if net.deleted(0) && net.deleted(1) then SysExit(4) else Raised(RequestException)))
      && (r.result.Ok? ==> Deletions(r.trace) == 1)
  {
    var p := Prepare(c, s, domain, challenge, net);
    PrepareDeletesNothing(c, s, domain, challenge, net);
    if p.result.Ok? {
      var v := Validate(p.result.value, net.polls, net.deleted);
      ValidateDeletes(p.result.value, net.polls, net.deleted);
      DeletionsAppend(p.trace, v.trace);
    }
  }

  /** Lines 301-308: once the record exists, a trigger that raises (a missing `url`, a failed
      request, a non-200 answer) leaves it in place, since the `try` has not begun. */
  lemma TriggerFailureKeepsRecord(c: Client, s: Settings, domain: Json, challenge: Json, net: AuthzNet)
    requires Provision(s, domain, challenge, net).result.Ok?
    requires !Trigger(c, challenge, net.trigger).result.Ok?
    ensures var r := Prepare(c, s, domain, challenge, net);
      && r.result.Raised?
      && (exists i :: 0 <= i < |r.trace| && r.trace[i].TxtCreate?)
      && Deletions(r.trace) == 0
  {
    var p := Provision(s, domain, challenge, net);
    var t := Trigger(c, challenge, net.trigger);
    var r := Prepare(c, s, domain, challenge, net);
    PrepareDeletesNothing(c, s, domain, challenge, net);
    ProvisionCreates(s, domain, challenge, net);
    var i :| 0 <= i < |p.trace| && p.trace[i].TxtCreate?;
    assert r.trace == p.trace + t.trace;
    assert r.trace[i] == p.trace[i];
  }

  /** A provisioned record was created first. */
  lemma ProvisionCreates(s: Settings, domain: Json, challenge: Json, net: AuthzNet)
    requires Provision(s, domain, challenge, net).result.Ok?
    ensures var t := Provision(s, domain, challenge, net).trace;
      |t| > 0 && t[0].TxtCreate?
  {
    var tokenText := AsText(Get(challenge, "token").value);
    var value := AccountKey.TxtValue(tokenText.value, s.thumbprint, s.sha256);
    var record := "_acme-challenge." + AsText(domain).value;
    var created := DnsProvider.CreateTxt(s.root, record, value, net.txt);
    var waited := DnsProvider.TestTxt(record, net.found);
    DnsProvider.CreateTxtClosedForm(s.root, record, value, net.txt);
    var t := DnsProvider.RecordTarget(record, s.root).value;
    var n := DnsProvider.CreateSettles(net.txt, 0);
    assert Retried(TxtCreate(t.1, t.0, value), 2, n)[0] == TxtCreate(t.1, t.0, value);
    assert (created.trace + waited.trace)[0] == created.trace[0];
  }

  /** Lines 271-340 from the `i`-th of `count` authorizations on; `step(c, i)` handles the
      `i`-th. The order's status is read again on every iteration, but never refreshed: a
      `ready` order skips them all. */
  function AuthzLoop(c: Client, order: Json, count: nat, step: (Client, nat) -> Run<Client>, i: nat)
    : (r: Run<Client>)
    requires i <= count
    ensures Get(order, "status") == Ok(JStr("ready")) ==> r == Run([], Ok(c))
    ensures i < count && !Get(order, "status").Ok? ==> r == Run([], Raised(Get(order, "status").fault))
    ensures r.result.SysExit? ==> exists c': Client, j: nat :: i <= j < count && step(c', j).result == r.result
    decreases count - i
  {
    if i == count then Run([], Ok(c))
    else
      var status := Get(order, "status");
      if !status.Ok? then Run([], Raised(status.fault))
      else if status.value == JStr("ready") then Run([], Ok(c))
      else
        var h := step(c, i);
        if !h.result.Ok? then h
        else
          var rest := AuthzLoop(h.result.value, order, count, step, i + 1);
          Run(h.trace + rest.trace, rest.result)
  }

  /** Lines 276-340 for the `i`-th authorization URL of the list. */
  function Steps(urls: seq<Json>, s: Settings, nets: nat -> AuthzNet): (step: (Client, nat) -> Run<Client>)
    ensures forall c: Client, i: nat :: step(c, i).result.Ok? ==> Deletions(step(c, i).trace) <= 1
    ensures forall c: Client, i: nat :: i >= |urls| ==> step(c, i) == Run([], Ok(c))
  {
    StepsDeleteOnce(urls, s, nets);
    (c: Client, i: nat) => if i < |urls| then Handle(c, urls[i], s, nets(i)) else Run([], Ok(c))
  }

  lemma StepsDeleteOnce(urls: seq<Json>, s: Settings, nets: nat -> AuthzNet)
    ensures forall c: Client, i: nat :: i < |urls| && Handle(c, urls[i], s, nets(i)).result.Ok? ==>
      Deletions(Handle(c, urls[i], s, nets(i)).trace) <= 1
  {
    forall c: Client, i: nat | i < |urls| && Handle(c, urls[i], s, nets(i)).result.Ok?
      ensures Deletions(Handle(c, urls[i], s, nets(i)).trace) <= 1
    {
      HandleDeletes(c, urls[i], s, nets(i));
    }
  }

  /** Line 271: `for authz in order["authorizations"]`. */
  function Authorize(c: Client, order: Json, s: Settings, nets: nat -> AuthzNet): (r: Run<Client>)
    ensures !Get(order, "authorizations").Ok? ==> r == Run([], Raised(Get(order, "authorizations").fault))
    ensures r.result.Ok? ==> && Get(order, "authorizations").Ok? && Elements(Get(order, "authorizations").value).Ok?
                             && Deletions(r.trace) <= |Elements(Get(order, "authorizations").value).value|
  {
    var listed := Get(order, "authorizations");
    if !listed.Ok? then Run([], Raised(listed.fault))
    else
      var urls := Elements(listed.value);
      if !urls.Ok? then Run([], Raised(urls.fault))
      else
        AuthzLoopDeletes(c, order, |urls.value|, Steps(urls.value, s, nets), 0);
        AuthzLoop(c, order, |urls.value|, Steps(urls.value, s, nets), 0)
  }

  /** Line 272: an order whose status is `ready` is not worked on; the loop makes no request. */
  lemma ReadySkipsAll(c: Client, order: Json, s: Settings, nets: nat -> AuthzNet)
    requires Get(order, "status") == Ok(JStr("ready"))
    ensures var r := Authorize(c, order, s, nets);
      && r.trace == []
      && (r.result == Ok(c) <==>
            Get(order, "authorizations").Ok? && Elements(Get(order, "authorizations").value).Ok?)
  {
  }

  /** Line 272 sits inside the loop, so an empty list of authorizations never reads the status. */
  lemma EmptyListSkipsStatus(c: Client, order: Json, s: Settings, nets: nat -> AuthzNet)
    requires Get(order, "authorizations") == Ok(JArr([]))
    ensures Authorize(c, order, s, nets) == Run([], Ok(c))
  {
  }

  /** A successful run deletes at most one record per authorization it handled. */
  lemma {:induction false} AuthzLoopDeletes(c: Client, order: Json, count: nat, step: (Client, nat) -> Run<Client>,
                                            i: nat)
    requires i <= count
    requires forall c': Client, j: nat :: step(c', j).result.Ok? ==> Deletions(step(c', j).trace) <= 1
    ensures var r := AuthzLoop(c, order, count, step, i);
      r.result.Ok? ==> Deletions(r.trace) <= count - i
    decreases count - i
  {
    var status := Get(order, "status");
    if i < count && status.Ok? && status.value != JStr("ready") {
      var h := step(c, i);
      if h.result.Ok? {
        var rest := AuthzLoop(h.result.value, order, count, step, i + 1);
        AuthzLoopDeletes(h.result.value, order, count, step, i + 1);
        DeletionsAppend(h.trace, rest.trace);
      }
    }
  }
}
