/** Observable effects of the client, recorded as a trace of events.

  Network calls, DNS lookups and `time.sleep` are not performed; each step
  function returns the list of effects it would have caused, in order, next
  to how it ended.
 */
module Trace {
  import opened Outcomes
  import opened Json

  /** The JWS envelope `{protected, payload, signature}` posted to the CA. */
  datatype Envelope = Envelope(protected: string, payload: string, signature: string)

  datatype Event =
    | TxtCreate(base: string, name: string, data: string)  // POST domains/{base}/records
    | TxtLookup(fqdn: string)                              // TXT resolution of the record name
    | TxtDelete(base: string, id: Json)                    // DELETE domains/{base}/records/{id}
    | NonceFetch                                           // GET of the newNonce URL
    | Attempt(url: string, jose: Envelope, headers: map<string, string>)  // one POST of a signed envelope
    | Call(url: string, payload: Json)                     // one signed request, retries included
    | Sleep(seconds: nat)

  /** The effects of a step, and how it ended. */
  datatype Run<+T> = Run(trace: seq<Event>, result: Result<T>)

  function Pow2(k: nat): (r: nat)
    ensures r >= 1
  {
    if k == 0 then 1 else 2 * Pow2(k - 1)
  }

  /** The durations of the sleeps of a trace, in order. */
  function Sleeps(t: seq<Event>): (r: seq<nat>)
    ensures |r| <= |t|
  {
    if t == [] then []
    else if t[0].Sleep? then [t[0].seconds] + Sleeps(t[1..])
    else Sleeps(t[1..])
  }

  /** How many times `e` occurs in `t`. */
  function Occurrences(t: seq<Event>, e: Event): (r: nat)
    ensures r <= |t|
  {
    if t == [] then 0
    else (if t[0] == e then 1 else 0) + Occurrences(t[1..], e)
  }

  /** How many deletions of a TXT record a trace holds. */
  function Deletions(t: seq<Event>): (r: nat)
    ensures r <= |t|
  {
    if t == [] then 0
    else (if t[0].TxtDelete? then 1 else 0) + Deletions(t[1..])
  }

  /** `n` failed attempts `e`, each followed by a sleep; the first sleep is `first`, each next one twice the previous. */
  function BackoffTrace(e: Event, first: nat, n: nat): seq<Event>
    decreases n
  {
    if n == 0 then [] else [e, Sleep(first)] + BackoffTrace(e, 2 * first, n - 1)
  }

  /** `n` retried attempts `e` with their doubling sleeps, then the attempt that ends the loop. */
  function Retried(e: Event, first: nat, n: nat): seq<Event>
    decreases n
  {
    if n == 0 then [e] else [e, Sleep(first)] + Retried(e, 2 * first, n - 1)
  }

  lemma RetriedStep(e: Event, first: nat, n: nat)
    requires n > 0
    ensures Retried(e, first, n) == [e, Sleep(first)] + Retried(e, 2 * first, n - 1)
  {
  }

  lemma {:induction false} RetriedIsBackoff(e: Event, first: nat, n: nat)
    ensures Retried(e, first, n) == BackoffTrace(e, first, n) + [e]
    decreases n
  {
    if n > 0 {
      RetriedIsBackoff(e, 2 * first, n - 1);
      var tail := BackoffTrace(e, 2 * first, n - 1);
      assert [e, Sleep(first)] + (tail + [e]) == ([e, Sleep(first)] + tail) + [e];
    }
  }

  /** A retry trace holds nothing but the attempt and sleeps. */
  lemma {:induction false} RetriedOnly(e: Event, first: nat, n: nat)
    ensures forall i :: 0 <= i < |Retried(e, first, n)| ==> Retried(e, first, n)[i] == e || Retried(e, first, n)[i].Sleep?
    decreases n
  {
    if n > 0 {
      RetriedOnly(e, 2 * first, n - 1);
      var t := Retried(e, first, n);
      var rest := Retried(e, 2 * first, n - 1);
      assert t == [e, Sleep(first)] + rest;
      forall i | 2 <= i < |t|
        ensures t[i] == e || t[i].Sleep?
      {
        assert t[i] == rest[i - 2];
      }
    }
  }

  lemma {:induction false} OccurrencesAbsent(t: seq<Event>, e: Event)
    requires e !in t
    ensures Occurrences(t, e) == 0
  {
    if t != [] {
      OccurrencesAbsent(t[1..], e);
    }
  }

  lemma {:induction false} SleepsNone(t: seq<Event>)
    requires forall i :: 0 <= i < |t| ==> !t[i].Sleep?
    ensures Sleeps(t) == []
  {
    if t != [] {
      SleepsNone(t[1..]);
    }
  }

  /** A retry loop after steps without sleeps or attempts: its `n + 1` attempts and `n` doubling sleeps. */
  lemma RetriedAfter(pre: seq<Event>, e: Event, first: nat, n: nat)
    requires !e.Sleep? && e !in pre
    requires forall i :: 0 <= i < |pre| ==> !pre[i].Sleep?
    ensures var t := pre + Retried(e, first, n);
      && Occurrences(t, e) == n + 1
      && Sleeps(t) == Sleeps(BackoffTrace(e, first, n))
      && |Sleeps(t)| == n
      && Doubling(Sleeps(t), first)
      && forall i :: |pre| <= i < |t| ==> t[i] == e || t[i].Sleep?
  {
    var loop := Retried(e, first, n);
    RetriedIsBackoff(e, first, n);
    BackoffThenLast(e, first, n);
    BackoffShape(e, first, n);
    RetriedOnly(e, first, n);
    SleepsAppend(pre, loop);
    OccurrencesAppend(pre, loop, e);
    OccurrencesAbsent(pre, e);
    SleepsNone(pre);
    var t := pre + loop;
    forall i | |pre| <= i < |t|
      ensures t[i] == e || t[i].Sleep?
    {
      assert t[i] == loop[i - |pre|];
    }
  }

  /** The sleeps grow by doubling: `first, 2*first, 4*first, ...`. */
  predicate Doubling(s: seq<nat>, first: nat) {
    && (|s| > 0 ==> s[0] == first)
    && forall i :: 0 <= i < |s| - 1 ==> s[i + 1] == 2 * s[i]
  }

  lemma {:induction false} SleepsAppend(a: seq<Event>, b: seq<Event>)
    ensures Sleeps(a + b) == Sleeps(a) + Sleeps(b)
  {
    if a == [] {
      assert a + b == b;
    } else {
      assert (a + b)[1..] == a[1..] + b;
      SleepsAppend(a[1..], b);
    }
  }

  lemma {:induction false} OccurrencesAppend(a: seq<Event>, b: seq<Event>, e: Event)
    ensures Occurrences(a + b, e) == Occurrences(a, e) + Occurrences(b, e)
  {
    if a == [] {
      assert a + b == b;
    } else {
      assert (a + b)[1..] == a[1..] + b;
      OccurrencesAppend(a[1..], b, e);
    }
  }

  lemma {:induction false} DeletionsAppend(a: seq<Event>, b: seq<Event>)
    ensures Deletions(a + b) == Deletions(a) + Deletions(b)
  {
    if a == [] {
      assert a + b == b;
    } else {
      assert (a + b)[1..] == a[1..] + b;
      DeletionsAppend(a[1..], b);
    }
  }

  /** A backoff trace holds `n` attempts and `n` sleeps, doubling from `first`, the last one `first * 2^(n-1)`. */
  lemma {:induction false} BackoffShape(e: Event, first: nat, n: nat)
    requires !e.Sleep?
    ensures Occurrences(BackoffTrace(e, first, n), e) == n
    ensures |Sleeps(BackoffTrace(e, first, n))| == n
    ensures Doubling(Sleeps(BackoffTrace(e, first, n)), first)
    ensures n > 0 ==> Sleeps(BackoffTrace(e, first, n))[n - 1] == first * Pow2(n - 1)
    ensures !e.TxtDelete? ==> Deletions(BackoffTrace(e, first, n)) == 0
    decreases n
  {
    if n > 0 {
      var rest := BackoffTrace(e, 2 * first, n - 1);
      BackoffShape(e, 2 * first, n - 1);
      SleepsAppend([e, Sleep(first)], rest);
      OccurrencesAppend([e, Sleep(first)], rest, e);
      DeletionsAppend([e, Sleep(first)], rest);
      assert Sleeps([e, Sleep(first)]) == [first];
      var s := Sleeps(BackoffTrace(e, first, n));
      assert s == [first] + Sleeps(rest);
      if n > 1 {
        assert Pow2(n - 1) == 2 * Pow2(n - 2);
        assert s[n - 1] == 2 * first * Pow2(n - 2);
      }
    }
  }

  /** The `i`-th sleep of a doubling sequence is `first * 2^i`. */
  lemma {:induction false} DoublingPowers(s: seq<nat>, first: nat, i: nat)
    requires Doubling(s, first) && i < |s|
    ensures s[i] == first * Pow2(i)
  {
    if i > 0 {
      DoublingPowers(s, first, i - 1);
      assert s[i] == 2 * s[i - 1];
    }
  }

  /** Six doubling sleeps from `first`, written out. */
  lemma SixDoublings(s: seq<nat>, first: nat)
    requires Doubling(s, first) && |s| == 6
    ensures s == [first, 2 * first, 4 * first, 8 * first, 16 * first, 32 * first]
  {
    DoublingPowers(s, first, 1);
    DoublingPowers(s, first, 2);
    DoublingPowers(s, first, 3);
    DoublingPowers(s, first, 4);
    DoublingPowers(s, first, 5);
  }

  /** One more sleep in front of a doubling sequence that starts at twice its length. */
  lemma DoublingCons(first: nat, s: seq<nat>)
    requires Doubling(s, 2 * first)
    ensures Doubling([first] + s, first)
  {
    var t := [first] + s;
    forall i | 0 <= i < |t| - 1
      ensures t[i + 1] == 2 * t[i]
    {
      if i > 0 {
        assert t[i + 1] == s[i] && t[i] == s[i - 1];
      }
    }
  }

  /** Eight doubling sleeps from `first`, written out. */
  lemma EightDoublings(s: seq<nat>, first: nat)
    requires Doubling(s, first) && |s| == 8
    ensures s == [first, 2 * first, 4 * first, 8 * first, 16 * first, 32 * first, 64 * first, 128 * first]
  {
    DoublingPowers(s, first, 1);
    DoublingPowers(s, first, 2);
    DoublingPowers(s, first, 3);
    DoublingPowers(s, first, 4);
    DoublingPowers(s, first, 5);
    DoublingPowers(s, first, 6);
    DoublingPowers(s, first, 7);
  }

  /** Powers of two up to the ceilings the client uses. */
  lemma Pow2Facts(k: nat)
    ensures Pow2(k + 1) == 2 * Pow2(k)
    ensures k <= 5 ==> Pow2(k) <= 32
    ensures k == 6 ==> Pow2(k) == 64
    ensures k >= 6 ==> Pow2(k) >= 64
    ensures k == 8 ==> Pow2(k) == 256
    ensures k <= 7 ==> Pow2(k) <= 128
    ensures k >= 8 ==> Pow2(k) >= 256
    ensures k >= 7 ==> Pow2(k) >= 128
    ensures k >= 9 ==> Pow2(k) >= 512
  {
    if k > 8 {
      Pow2Facts(k - 1);
    } else if k > 0 {
      Pow2Facts(k - 1);
    }
  }

  /** Attempts stay attempts when a single last attempt is appended. */
  lemma BackoffThenLast(e: Event, first: nat, n: nat)
    requires !e.Sleep?
    ensures Occurrences(BackoffTrace(e, first, n) + [e], e) == n + 1
    ensures Sleeps(BackoffTrace(e, first, n) + [e]) == Sleeps(BackoffTrace(e, first, n))
  {
    BackoffShape(e, first, n);
    OccurrencesAppend(BackoffTrace(e, first, n), [e], e);
    SleepsAppend(BackoffTrace(e, first, n), [e]);
    assert Sleeps([e]) == [];
  }

  /** A request that is answered "wait": the call and one sleep in front of the rest, and no deletion. */
  lemma WaitStep(e: Event, b: nat, rest: seq<Event>)
    requires e.Call?
    ensures var t := [e, Sleep(b)] + rest;
      && Occurrences(t, e) == 1 + Occurrences(rest, e)
      && Sleeps(t) == [b] + Sleeps(rest)
      && Deletions(t) == Deletions(rest)
  {
    var head := [e, Sleep(b)];
    assert head[1..] == [Sleep(b)] && [Sleep(b)][1..] == [];
    assert Occurrences(head, e) == 1 && Sleeps(head) == [b] && Deletions(head) == 0;
    OccurrencesAppend(head, rest, e);
    SleepsAppend(head, rest);
    DeletionsAppend(head, rest);
  }
}
