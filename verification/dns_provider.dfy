/** The DNS challenge provisioner of `automation/acme_certs.py`: where the TXT
    record goes at the DNS provider, the bounded retry of its creation, the
    bounded wait for propagation, and its deletion. The provider's HTTP API and
    the resolver are replaced by the sequence of their answers. */
module DnsProvider {
  import opened Outcomes
  import opened Json
  import opened Trace
  import opened Text

  /** The labels of `domain.split(".", 2)`. */
  function SplitTwo(domain: string): seq<string> {
    Split(domain, ".", Some(2))
  }

  /** All dot-separated labels of `domain`. */
  function Labels(domain: string): seq<string> {
    Split(domain, ".", None)
  }

  /** Lines 60-66: the record name `chal` and the zone `base` that `create_txt` posts to.
      Default mode keeps two labels in the name; root mode keeps one. Fewer than three
      labels make the indexing raise. */
  function RecordTarget(domain: string, root: bool): (r: Result<(string, string)>)
    ensures r.Ok? <==> |Labels(domain)| >= 3
    ensures !r.Ok? ==> r == Raised(IndexError)
    ensures r.Ok? ==> r.value.0 + "." + r.value.1 == domain
    ensures r.Ok? && root ==> r.value.0 == Labels(domain)[0] && !Contains(r.value.0, ".")
    ensures r.Ok? && !root ==> r.value.0 == Labels(domain)[0] + "." + Labels(domain)[1]
    ensures r.Ok? ==> |SplitTwo(domain)| == 3
    ensures r.Ok? && !root ==> r.value.1 == SplitTwo(domain)[2]
  {
    var parts := SplitTwo(domain);
    SplitTwoAgrees(domain, ".");
    if |parts| < 3 then Raised(IndexError)
    else
      ThreeLabels(domain);
      if root then Ok((parts[0], parts[1] + "." + parts[2]))
      else Ok((parts[0] + "." + parts[1], parts[2]))
  }

  /** A name of three labels or more is its first two labels and the remainder, rejoined by dots. */
  lemma ThreeLabels(domain: string)
    requires |Labels(domain)| >= 3
    ensures var p := SplitTwo(domain);
      && |p| == 3
      && p[0] + "." + (p[1] + "." + p[2]) == domain
      && (p[0] + "." + p[1]) + "." + p[2] == domain
      && p[0] == Labels(domain)[0] && p[1] == Labels(domain)[1]
      && !Contains(p[0], ".")
  {
    var p := SplitTwo(domain);
    SplitTwoAgrees(domain, ".");
    SplitJoin(domain, ".", Some(2));
    assert p == [p[0], p[1], p[2]];
    JoinThree(p[0], p[1], p[2], ".");
    SplitPartsFree(domain, ".", Some(2), 0);
  }

  /** Line 116: the zone `delete_txt` sends the DELETE to, always `split(".", 2)[2]`. */
  function DeleteBase(domain: string): (r: Result<string>)
    ensures r.Ok? <==> |Labels(domain)| >= 3
    ensures !r.Ok? ==> r == Raised(IndexError)
  {
    var parts := SplitTwo(domain);
    SplitTwoAgrees(domain, ".");
    if |parts| < 3 then Raised(IndexError) else Ok(parts[2])
  }

  /** In default mode the deletion goes to the zone the record was created in. */
  lemma DeleteMatchesDefaultCreate(domain: string)
    requires RecordTarget(domain, false).Ok?
    ensures DeleteBase(domain) == Ok(RecordTarget(domain, false).value.1)
  {
  }

  /** In root mode the deletion goes to a different zone: the creation zone minus its first label. */
  lemma DeleteMissesRootCreate(domain: string)
    requires RecordTarget(domain, true).Ok?
    ensures DeleteBase(domain).Ok?
    ensures RecordTarget(domain, true).value.1 == Labels(domain)[1] + "." + DeleteBase(domain).value
    ensures DeleteBase(domain).value != RecordTarget(domain, true).value.1
  {
    var parts := SplitTwo(domain);
    SplitTwoAgrees(domain, ".");
  }

  /** What one POST to the provider gave back: no response object at all (the exception carried
      none), or a response whose body is JSON or not (`None`). */
  datatype ProviderReply = NoReply | Reply(body: Option<Json>)

  /** Line 82: `txt_add.json()['domain_record']['id']`. A non-JSON body is a ValueError. */
  function RecordId(body: Option<Json>): (r: Result<Json>)
    ensures r.Ok? <==> (body.Some? && body.value.JObj? && "domain_record" in body.value.fields
                        && Get(body.value.fields["domain_record"], "id").Ok?)
    ensures !r.SysExit?
  {
    match body
    case None => Raised(ValueError)
    case Some(j) =>
      var record :- Get(j, "domain_record");
      Get(record, "id")
  }

  /** The errors lines 85-91 catch and retry on: a missing key or a body that is not JSON. */
  predicate Retryable(reply: ProviderReply) {
    reply.Reply? && (RecordId(reply.body) == Raised(KeyError) || RecordId(reply.body) == Raised(ValueError))
  }

  /** Lines 70-91 from the attempt with index `k`, whose backoff before doubling is `backoff`. */
  function CreateLoop(base: string, name: string, data: string, replies: nat -> ProviderReply,
                      k: nat, backoff: nat): (r: Run<Json>)
    requires backoff == Pow2(k) && backoff <= 64
    ensures r.result.Ok? || r.result.Raised? || r.result == SysExit(2)
    ensures |r.trace| >= 1 && r.trace[0] == TxtCreate(base, name, data)
    decreases 64 - backoff
  {
    var post := TxtCreate(base, name, data);
    var b := backoff * 2;
    var reply := replies(k);
    if b > 64 then
      // the seventh response is not inspected; logging `txt_add.text` fails on a missing response
      Run([post], if reply.NoReply? then Raised(AttributeError) else SysExit(2))
    else if reply.NoReply? then Run([post], Raised(AttributeError))
    else if Retryable(reply) then
      var rest := CreateLoop(base, name, data, replies, k + 1, b);
      Run([post, Sleep(b)] + rest.trace, rest.result)
    else Run([post], RecordId(reply.body))
  }

  /** `create_txt(domain, keydigest64)`: the record id, exit 2, or an exception. */
  function CreateTxt(root: bool, domain: string, data: string, replies: nat -> ProviderReply): (r: Run<Json>)
    ensures |Labels(domain)| < 3 ==> r == Run([], Raised(IndexError))
    ensures r.result.Ok? ==> |Labels(domain)| >= 3
    ensures r.result.Ok? || r.result.Raised? || r.result == SysExit(2)
    ensures |Labels(domain)| >= 3 ==> |r.trace| >= 1 && r.trace[0].TxtCreate? && r.trace[0].data == data
  {
    match RecordTarget(domain, root)
    case Ok((name, base)) => CreateLoop(base, name, data, replies, 0, 1)
    case _ => Run([], Raised(IndexError))
  }

  /** Reference: the index of the first attempt that is not retried, at most 6. */
  function CreateSettles(replies: nat -> ProviderReply, k: nat): (n: nat)
    requires k <= 6
    ensures k <= n <= 6
    decreases 6 - k
  {
    if k == 6 || !Retryable(replies(k)) then k else CreateSettles(replies, k + 1)
  }

  /** How the attempt that settles the loop ends it. */
  function CreateVerdict(reply: ProviderReply, n: nat): Result<Json> {
    if reply.NoReply? then Raised(AttributeError)
    else if n == 6 then SysExit(2)
    else RecordId(reply.body)
  }

  /** The POSTs and sleeps of the loop: one POST per attempt up to the settling one, with
      the doubling sleeps between them. */
  lemma {:induction false} CreateLoopTrace(base: string, name: string, data: string,
                                           replies: nat -> ProviderReply, k: nat, backoff: nat)
    requires k <= 6 && backoff == Pow2(k) && backoff <= 64
    ensures CreateLoop(base, name, data, replies, k, backoff).trace
      == Retried(TxtCreate(base, name, data), 2 * backoff, CreateSettles(replies, k) - k)
    decreases 6 - k
  {
    var post := TxtCreate(base, name, data);
    var r := CreateLoop(base, name, data, replies, k, backoff);
    Pow2Facts(k);
    if k < 6 && Retryable(replies(k)) {
      var rest := CreateLoop(base, name, data, replies, k + 1, 2 * backoff);
      assert r.trace == [post, Sleep(2 * backoff)] + rest.trace;
      CreateLoopTrace(base, name, data, replies, k + 1, 2 * backoff);
      var n := CreateSettles(replies, k);
      assert n == CreateSettles(replies, k + 1) && n >= k + 1;
      RetriedStep(post, 2 * backoff, n - k);
    } else {
      assert CreateSettles(replies, k) == k;
      assert r.trace == [post];
    }
  }

  /** How the loop ends: as the settling attempt decides. */
  lemma {:induction false} CreateLoopResult(base: string, name: string, data: string,
                                            replies: nat -> ProviderReply, k: nat, backoff: nat)
    requires k <= 6 && backoff == Pow2(k) && backoff <= 64
    ensures var n := CreateSettles(replies, k);
      CreateLoop(base, name, data, replies, k, backoff).result == CreateVerdict(replies(n), n)
    decreases 6 - k
  {
    Pow2Facts(k);
    if k < 6 && Retryable(replies(k)) {
      CreateLoopResult(base, name, data, replies, k + 1, 2 * backoff);
    } else {
      assert CreateSettles(replies, k) == k;
    }
  }

  /** The loop equals the reference: attempts with doubling sleeps up to the settling attempt,
      which decides the result. */
  lemma CreateLoopClosedForm(base: string, name: string, data: string,
                             replies: nat -> ProviderReply, k: nat, backoff: nat)
    requires k <= 6 && backoff == Pow2(k) && backoff <= 64
    ensures var n, post := CreateSettles(replies, k), TxtCreate(base, name, data);
      var r := CreateLoop(base, name, data, replies, k, backoff);
      && r.trace == Retried(post, 2 * backoff, n - k)
      && r.result == CreateVerdict(replies(n), n)
  {
    CreateLoopTrace(base, name, data, replies, k, backoff);
    CreateLoopResult(base, name, data, replies, k, backoff);
  }

  /** `create_txt` on a name of three labels or more is the retry loop from the first attempt. */
  lemma CreateTxtClosedForm(root: bool, domain: string, data: string, replies: nat -> ProviderReply)
    requires |Labels(domain)| >= 3
    ensures var r, t := CreateTxt(root, domain, data, replies), RecordTarget(domain, root).value;
      var n := CreateSettles(replies, 0);
      && r.trace == Retried(TxtCreate(t.1, t.0, data), 2, n)
      && r.result == CreateVerdict(replies(n), n)
  {
    var t := RecordTarget(domain, root).value;
    assert CreateTxt(root, domain, data, replies) == CreateLoop(t.1, t.0, data, replies, 0, 1);
    CreateLoopClosedForm(t.1, t.0, data, replies, 0, 1);
  }

  /** `create_txt` makes at most seven POSTs, sleeping 2, 4, ..., 64 seconds between them. */
  lemma CreateTxtBounded(root: bool, domain: string, data: string, replies: nat -> ProviderReply)
    requires |Labels(domain)| >= 3
    ensures var r, t := CreateTxt(root, domain, data, replies), RecordTarget(domain, root).value;
      var post := TxtCreate(t.1, t.0, data);
      var n := CreateSettles(replies, 0);
      && r.trace == BackoffTrace(post, 2, n) + [post]
      && Occurrences(r.trace, post) == n + 1 <= 7
      && Doubling(Sleeps(r.trace), 2)
      && |Sleeps(r.trace)| == n
  {
    var t := RecordTarget(domain, root).value;
    var post := TxtCreate(t.1, t.0, data);
    CreateTxtClosedForm(root, domain, data, replies);
    var n := CreateSettles(replies, 0);
    RetriedIsBackoff(post, 2, n);
    BackoffThenLast(post, 2, n);
    BackoffShape(post, 2, n);
  }

  /** `create_txt` exits 2 exactly when the first six answers are all retried and a seventh
      response arrives, after sleeping 2, 4, ..., 64 seconds. */
  lemma CreateTxtExits(root: bool, domain: string, data: string, replies: nat -> ProviderReply)
    requires |Labels(domain)| >= 3
    ensures var r := CreateTxt(root, domain, data, replies);
      && (r.result == SysExit(2) <==> CreateSettles(replies, 0) == 6 && replies(6).Reply?)
      && (r.result == SysExit(2) ==> Sleeps(r.trace) == [2, 4, 8, 16, 32, 64])
  {
    var t := RecordTarget(domain, root).value;
    var post := TxtCreate(t.1, t.0, data);
    CreateTxtBounded(root, domain, data, replies);
    CreateTxtClosedForm(root, domain, data, replies);
    var n := CreateSettles(replies, 0);
    if n == 6 {
      BackoffThenLast(post, 2, n);
      SixDoublings(Sleeps(BackoffTrace(post, 2, 6)), 2);
    }
  }

  /** A record is returned only when some attempt among the first six answers with an id, after
      retried attempts only. */
  lemma CreateTxtSucceeds(root: bool, domain: string, data: string, replies: nat -> ProviderReply)
    requires |Labels(domain)| >= 3
    ensures var r := CreateTxt(root, domain, data, replies);
      r.result.Ok? <==> (exists n :: 0 <= n < 6 && replies(n).Reply? && RecordId(replies(n).body).Ok?
                                     && (forall j :: 0 <= j < n ==> Retryable(replies(j))))
  {
    CreateTxtClosedForm(root, domain, data, replies);
    SettlesFirst(replies, 0);
  }

  /** `CreateSettles` is the first non-retried attempt. */
  lemma {:induction false} SettlesFirst(replies: nat -> ProviderReply, k: nat)
    requires k <= 6
    ensures var n := CreateSettles(replies, k);
      && (forall j :: k <= j < n ==> Retryable(replies(j)))
      && (n < 6 ==> !Retryable(replies(n)))
    decreases 6 - k
  {
    if k < 6 && Retryable(replies(k)) {
      SettlesFirst(replies, k + 1);
    }
  }

  /** Lines 96-113 from lookup `k`, waiting `wait` seconds after a miss. */
  function PropagationLoop(fqdn: string, found: nat -> bool, k: nat, wait: nat): (r: Run<()>)
    requires wait == 10 * Pow2(k) && wait <= 320
    ensures r.result == Ok(()) || r.result == SysExit(3)
    ensures |r.trace| >= 1 && r.trace[0] == TxtLookup(fqdn)
    decreases 320 - wait
  {
    var look := TxtLookup(fqdn);
    if found(k) then Run([look], Ok(()))
    else if wait * 2 > 320 then Run([look, Sleep(wait)], SysExit(3))
    else
      Pow2Facts(k);
      var rest := PropagationLoop(fqdn, found, k + 1, wait * 2);
      Run([look, Sleep(wait)] + rest.trace, rest.result)
  }

  /** `test_txt(domain)`: `found(k)` says whether lookup `k` returned a non-empty answer
      (a resolver exception counts as empty). */
  function TestTxt(fqdn: string, found: nat -> bool): (r: Run<()>)
    ensures r.result == Ok(()) || r.result == SysExit(3)
    ensures |r.trace| >= 1 && r.trace[0] == TxtLookup(fqdn)
  {
    PropagationLoop(fqdn, found, 0, 10)
  }

  /** Reference: the index of the first successful lookup, or 6 if the first six all miss. */
  function FirstFound(found: nat -> bool, k: nat): (n: nat)
    requires k <= 6
    ensures k <= n <= 6
    ensures forall j :: k <= j < n ==> !found(j)
    ensures n < 6 ==> found(n)
    decreases 6 - k
  {
    if k == 6 || found(k) then k else FirstFound(found, k + 1)
  }

  lemma {:induction false} PropagationClosedForm(fqdn: string, found: nat -> bool, k: nat, wait: nat)
    requires k <= 5 && wait == 10 * Pow2(k) && wait <= 320
    ensures var n, look := FirstFound(found, k), TxtLookup(fqdn);
      var r := PropagationLoop(fqdn, found, k, wait);
      && (n < 6 ==> r == Run(Retried(look, wait, n - k), Ok(())))
      && (n == 6 ==> r == Run(BackoffTrace(look, wait, 6 - k), SysExit(3)))
    decreases 6 - k
  {
    var look := TxtLookup(fqdn);
    var r := PropagationLoop(fqdn, found, k, wait);
    Pow2Facts(k);
    if found(k) {
      assert r == Run([look], Ok(()));
      assert Retried(look, wait, 0) == [look];
    } else if k < 5 {
      PropagationClosedForm(fqdn, found, k + 1, 2 * wait);
      var rest := PropagationLoop(fqdn, found, k + 1, 2 * wait);
      assert r == Run([look, Sleep(wait)] + rest.trace, rest.result);
      var n := FirstFound(found, k);
      assert n == FirstFound(found, k + 1);
      if n < 6 {
        assert Retried(look, wait, n - k) == [look, Sleep(wait)] + Retried(look, 2 * wait, n - (k + 1));
      } else {
        assert BackoffTrace(look, wait, n - k)
          == [look, Sleep(wait)] + BackoffTrace(look, 2 * wait, n - (k + 1));
      }
    } else {
      assert r == Run([look, Sleep(wait)], SysExit(3));
      assert FirstFound(found, k) == 6;
      assert BackoffTrace(look, wait, 1) == [look, Sleep(wait)] + BackoffTrace(look, 2 * wait, 0);
    }
  }

  /** `test_txt` looks up at most six times, sleeping 10, 20, ..., 320 seconds after the misses,
      and exits 3 exactly when all six lookups miss. */
  lemma TestTxtBounded(fqdn: string, found: nat -> bool)
    ensures var r, look := TestTxt(fqdn, found), TxtLookup(fqdn);
      && Occurrences(r.trace, look) <= 6
      && Doubling(Sleeps(r.trace), 10)
      && (r.result == SysExit(3) <==> forall j :: 0 <= j < 6 ==> !found(j))
      && (r.result == SysExit(3) ==> Sleeps(r.trace) == [10, 20, 40, 80, 160, 320])
      && (r.result.Ok? || r.result == SysExit(3))
  {
    var look := TxtLookup(fqdn);
    PropagationClosedForm(fqdn, found, 0, 10);
    var n := FirstFound(found, 0);
    BackoffShape(look, 10, n);
    if n < 6 {
      RetriedIsBackoff(look, 10, n);
      BackoffThenLast(look, 10, n);
    } else {
      SixDoublings(Sleeps(BackoffTrace(look, 10, 6)), 10);
    }
  }

  /** Creating the record never deletes one. */
  lemma CreateDeletesNothing(root: bool, domain: string, data: string, replies: nat -> ProviderReply)
    ensures Deletions(CreateTxt(root, domain, data, replies).trace) == 0
  {
    if |Labels(domain)| >= 3 {
      var t := RecordTarget(domain, root).value;
      var post := TxtCreate(t.1, t.0, data);
      var n := CreateSettles(replies, 0);
      CreateTxtBounded(root, domain, data, replies);
      BackoffShape(post, 2, n);
      DeletionsAppend(BackoffTrace(post, 2, n), [post]);
    }
  }

  /** Waiting for propagation never deletes the record. */
  lemma TestDeletesNothing(fqdn: string, found: nat -> bool)
    ensures Deletions(TestTxt(fqdn, found).trace) == 0
  {
    var look := TxtLookup(fqdn);
    PropagationClosedForm(fqdn, found, 0, 10);
    var n := FirstFound(found, 0);
    BackoffShape(look, 10, n);
    DeletionsAppend(BackoffTrace(look, 10, n), [look]);
    if n < 6 {
      RetriedIsBackoff(look, 10, n);
    }
  }

  /** How a DELETE of line 120 ends. The call stands outside any `try` and its answer is never
      read: it returns (`answered`), or its RequestException ends the run. */
  function Deleted(answered: bool): (r: Result<()>)
    ensures r.Ok? <==> answered
    ensures !r.Ok? ==> r == Raised(RequestException)
  {
    if answered then Ok(()) else Raised(RequestException)
  }

  /** `delete_txt(txt_id, domain)`: one DELETE to the zone of line 116, whatever the
      provider answers; `answered` says whether the request came back at all. */
  function DeleteTxt(domain: string, id: Json, answered: bool): (r: Run<()>)
    ensures |Labels(domain)| < 3 <==> r == Run([], Raised(IndexError))
    ensures |Labels(domain)| >= 3 ==> r.trace == [TxtDelete(DeleteBase(domain).value, id)]
    ensures |Labels(domain)| >= 3 ==> (r.result.Ok? <==> answered)
    ensures |Labels(domain)| >= 3 && !answered ==> r.result == Raised(RequestException)
  {
    match DeleteBase(domain)
    case Ok(base) => Run([TxtDelete(base, id)], Deleted(answered))
    case _ => Run([], Raised(IndexError))
  }

  /** Every POST of a `create_txt` run goes to the zone of lines 63 and 66. */
  lemma CreateZone(root: bool, domain: string, data: string, replies: nat -> ProviderReply)
    requires |Labels(domain)| >= 3
    ensures var c := CreateTxt(root, domain, data, replies).trace;
      forall i :: 0 <= i < |c| && c[i].TxtCreate? ==> c[i].base == RecordTarget(domain, root).value.1
  {
    var t := RecordTarget(domain, root).value;
    CreateTxtClosedForm(root, domain, data, replies);
    RetriedOnly(TxtCreate(t.1, t.0, data), 2, CreateSettles(replies, 0));
  }

  /** The deletion evidently intended: the DELETE goes to the zone the record was created in,
      in either mode. */
  function Retract(root: bool, domain: string, id: Json, answered: bool): (r: Run<()>)
    ensures |Labels(domain)| < 3 <==> r == Run([], Raised(IndexError))
    ensures |Labels(domain)| >= 3 ==> |r.trace| == 1 && r.trace[0].TxtDelete? && r.trace[0].id == id
    ensures |Labels(domain)| >= 3 ==> (r.result.Ok? <==> answered)
    ensures |Labels(domain)| >= 3 && !answered ==> r.result == Raised(RequestException)
  {
    match RecordTarget(domain, root)
    case Ok((_, base)) => Run([TxtDelete(base, id)], Deleted(answered))
    case _ => Run([], Raised(IndexError))
  }

  /** The corrected deletion reaches the zone of every POST that created the record. */
  lemma RetractMatchesCreate(root: bool, domain: string, data: string, replies: nat -> ProviderReply, id: Json,
                             answered: bool)
    requires |Labels(domain)| >= 3
    ensures var c, d := CreateTxt(root, domain, data, replies).trace, Retract(root, domain, id, answered).trace;
      forall i :: 0 <= i < |c| && c[i].TxtCreate? ==> c[i].base == d[0].base
  {
    CreateZone(root, domain, data, replies);
  }

  /** As written, the DELETE of a root-mode record goes to a zone no POST of its creation used,
      so the record stays at the provider. */
  lemma DeleteMissesRootZone(domain: string, data: string, replies: nat -> ProviderReply, id: Json, answered: bool)
    requires |Labels(domain)| >= 3
    ensures var c, d := CreateTxt(true, domain, data, replies).trace, DeleteTxt(domain, id, answered).trace;
      forall i :: 0 <= i < |c| && c[i].TxtCreate? ==> c[i].base != d[0].base
  {
    CreateZone(true, domain, data, replies);
    DeleteMissesRootCreate(domain);
  }

  /** Root mode for a name `x.y.z` of dot-free `x` and `y`: the record is created in zone `y.z`
      and the DELETE goes to zone `z`. */
  lemma RootModeZones(x: string, y: string, z: string)
    requires '.' !in x && '.' !in y
    ensures RecordTarget(x + "." + y + "." + z, true) == Ok((x, y + "." + z))
    ensures DeleteBase(x + "." + y + "." + z) == Ok(z)
  {
    var domain := x + "." + y + "." + z;
    SplitLabels(x, y, z);
    SplitTwoAgrees(domain, ".");
  }

  /** The zones of `_acme-challenge.example.com` in root mode. */
  lemma RootModeExampleZones()
    ensures RecordTarget("_acme-challenge.example.com", true) == Ok(("_acme-challenge", "example.com"))
    ensures DeleteBase("_acme-challenge.example.com") == Ok("com")
  {
    var x, y, z := "_acme-challenge", "example", "com";
    RootModeZones(x, y, z);
    assert x + "." + y + "." + z == "_acme-challenge.example.com";
  }

  /** A concrete case: certifying `example.com` in root mode creates the record in zone
      `example.com` and sends its DELETE to zone `com`. */
  lemma RootModeLeakExample()
    ensures RecordTarget("_acme-challenge.example.com", true) == Ok(("_acme-challenge", "example.com"))
    ensures DeleteBase("_acme-challenge.example.com") == Ok("com")
    ensures Retract(true, "_acme-challenge.example.com", JNum(1), true) == Run([TxtDelete("example.com", JNum(1))], Ok(()))
  {
    RootModeExampleZones();
    assert Deleted(true) == Ok(());
  }
}
