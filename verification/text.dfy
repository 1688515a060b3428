/** Python's `str.split`, `str.startswith` and substring `in`, on `seq<char>`. */
module Text {
  import opened Outcomes

  /** `sep` occurs in `s` starting at index `i`. */
  predicate OccursAt(s: string, sep: string, i: nat) {
    i + |sep| <= |s| && s[i..i + |sep|] == sep
  }

  /** `sep in s`: substring containment. */
  predicate Contains(s: string, sep: string) {
    exists i: nat :: i <= |s| && OccursAt(s, sep, i)
  }

  /** `s.startswith(p)`. */
  predicate StartsWith(s: string, p: string) {
    |p| <= |s| && s[..|p|] == p
  }

  /** The first index at or after `from` where `sep` occurs, as `s.find(sep, from)`. */
  function FindFrom(s: string, sep: string, from: nat): (r: Option<nat>)
    requires |sep| > 0
    ensures r.Some? ==> from <= r.value && OccursAt(s, sep, r.value)
    decreases |s| - from
  {
    if from + |sep| > |s| then None
    else if s[from..from + |sep|] == sep then Some(from)
    else FindFrom(s, sep, from + 1)
  }

  /** No occurrence between `from` and the one found; none at all after `from` when nothing is found. */
  lemma {:induction false} FindFromFirst(s: string, sep: string, from: nat)
    requires |sep| > 0
    ensures var r := FindFrom(s, sep, from);
      && (r.Some? ==> forall j: nat :: from <= j < r.value ==> !OccursAt(s, sep, j))
      && (r.None? ==> forall j: nat :: from <= j ==> !OccursAt(s, sep, j))
    decreases |s| - from
  {
    if from + |sep| <= |s| && s[from..from + |sep|] != sep {
      FindFromFirst(s, sep, from + 1);
    }
  }

  /** The first index where `sep` occurs in `s`. */
  function Find(s: string, sep: string): (r: Option<nat>)
    requires |sep| > 0
    ensures r.Some? ==> OccursAt(s, sep, r.value)
  {
    FindFrom(s, sep, 0)
  }

  /** `Find` gives the first occurrence, and nothing exactly when `sep` does not occur. */
  lemma FindFirst(s: string, sep: string)
    requires |sep| > 0
    ensures var r := Find(s, sep);
      && (r.Some? ==> forall j: nat :: j < r.value ==> !OccursAt(s, sep, j))
      && (r.None? <==> !Contains(s, sep))
  {
    FindFromFirst(s, sep, 0);
  }

  /** `s.split(sep, maxsplit)`; `None` is Python's default `maxsplit=-1` (no limit). */
  function Split(s: string, sep: string, maxsplit: Option<nat>): (parts: seq<string>)
    requires |sep| > 0
    ensures |parts| >= 1
    ensures maxsplit.Some? ==> |parts| <= maxsplit.value + 1
    decreases |s|
  {
    if maxsplit == Some(0) then [s]
    else match Find(s, sep)
      case None => [s]
      case Some(i) =>
        var rest := if maxsplit.Some? then Some(maxsplit.value - 1) else None;
        [s[..i]] + Split(s[i + |sep|..], sep, rest)
  }

  /** The total length of `parts`. */
  function TotalLength(parts: seq<string>): nat {
    if parts == [] then 0 else |parts[0]| + TotalLength(parts[1..])
  }

  /** The text is cut exactly when it holds the separator and a cut is allowed. */
  lemma SplitWhole(s: string, sep: string, maxsplit: Option<nat>)
    requires |sep| > 0
    ensures |Split(s, sep, maxsplit)| == 1 <==> maxsplit == Some(0) || !Contains(s, sep)
  {
    FindFirst(s, sep);
    if maxsplit != Some(0) && Contains(s, sep) {
      var i := Find(s, sep).value;
      SplitStep(s, sep, maxsplit, i);
    }
  }

  /** `sep.join(parts)`: the parts and one separator between each two of them. */
  function Join(parts: seq<string>, sep: string): (r: string)
    ensures |parts| > 0 ==> |r| + |sep| == TotalLength(parts) + |parts| * |sep|
    ensures |parts| > 0 ==> StartsWith(r, parts[0])
  {
    if |parts| == 0 then ""
    else if |parts| == 1 then parts[0]
    else parts[0] + sep + Join(parts[1..], sep)
  }

  /** One step of a split: the text before the first separator, then the split of the rest. */
  lemma SplitStep(s: string, sep: string, maxsplit: Option<nat>, i: nat)
    requires |sep| > 0 && maxsplit != Some(0) && Find(s, sep) == Some(i)
    ensures var rest := if maxsplit.Some? then Some(maxsplit.value - 1) else None;
      Split(s, sep, maxsplit) == [s[..i]] + Split(s[i + |sep|..], sep, rest)
  {
  }

  /** The first occurrence of a one-character separator in `a + [c] + b` is the one after `a`
      when `a` holds none. */
  lemma FirstSeparator(a: string, c: char, b: string)
    requires c !in a
    ensures Find(a + [c] + b, [c]) == Some(|a|)
  {
    var s := a + [c] + b;
    assert OccursAt(s, [c], |a|);
    FindFirst(s, [c]);
    forall j | 0 <= j < |a|
      ensures !OccursAt(s, [c], j)
    {
      assert s[j..j + 1] == [a[j]];
    }
  }

  /** Three dot-free labels joined by dots split back into the three at the first two dots. */
  lemma SplitLabels(x: string, y: string, z: string)
    requires '.' !in x && '.' !in y
    ensures Split(x + "." + y + "." + z, ".", Some(2)) == [x, y, z]
  {
    var s := x + "." + y + "." + z;
    FirstSeparator(x, '.', y + "." + z);
    assert x + "." + (y + "." + z) == s;
    assert s[..|x|] == x && s[|x| + 1..] == y + "." + z;
    SplitStep(s, ".", Some(2), |x|);
    FirstSeparator(y, '.', z);
    var t := y + "." + z;
    assert t[..|y|] == y && t[|y| + 1..] == z;
    SplitStep(t, ".", Some(1), |y|);
  }

  /** Joining the parts of a split with the same separator gives back the string. */
  lemma {:induction false} SplitJoin(s: string, sep: string, maxsplit: Option<nat>)
    requires |sep| > 0
    ensures Join(Split(s, sep, maxsplit), sep) == s
    decreases |s|
  {
    if maxsplit != Some(0) {
      match Find(s, sep)
      case None =>
      case Some(i) =>
        var rest := if maxsplit.Some? then Some(maxsplit.value - 1) else None;
        var tail := s[i + |sep|..];
        var more := Split(tail, sep, rest);
        SplitJoin(tail, sep, rest);
        SplitStep(s, sep, maxsplit, i);
        JoinCons(s[..i], more, sep);
        AroundOccurrence(s, sep, i);
    }
  }

  lemma JoinCons(a: string, more: seq<string>, sep: string)
    requires |more| >= 1
    ensures Join([a] + more, sep) == a + sep + Join(more, sep)
  {
    assert ([a] + more)[1..] == more;
  }

  /** A string is the text before an occurrence, the separator, and the text after it. */
  lemma AroundOccurrence(s: string, sep: string, i: nat)
    requires OccursAt(s, sep, i)
    ensures s == s[..i] + sep + s[i + |sep|..]
  {
    assert s[i..] == sep + s[i + |sep|..];
    assert s == s[..i] + s[i..];
  }

  /** The text before the first occurrence of `sep` holds no `sep`. */
  lemma PrefixBeforeFirstFree(s: string, sep: string, i: nat)
    requires |sep| > 0
    requires Find(s, sep) == Some(i)
    ensures !Contains(s[..i], sep)
  {
    FindFirst(s, sep);
    if Contains(s[..i], sep) {
      var j: nat :| j <= i && OccursAt(s[..i], sep, j);
      assert j + |sep| <= i;
      assert s[..i][j..j + |sep|] == s[j..j + |sep|];
      assert OccursAt(s, sep, j);
    }
  }

  /** Only the empty string splits into a single empty part. */
  lemma SplitEmpty(s: string, sep: string)
    requires |sep| > 0
    ensures Split(s, sep, None) == [""] <==> s == ""
  {
    SplitJoin(s, sep, None);
    if s == "" {
      assert !OccursAt(s, sep, 0);
    }
  }

  lemma JoinThree(a: string, b: string, c: string, sep: string)
    ensures Join([a, b, c], sep) == a + sep + (b + sep + c)
  {
    assert [a, b, c][1..] == [b, c];
    assert [b, c][1..] == [c];
    assert Join([c], sep) == c;
    assert Join([b, c], sep) == b + sep + c;
  }

  lemma ConsIndex(x: string, parts: seq<string>, k: nat)
    requires 0 < k <= |parts|
    ensures ([x] + parts)[k] == parts[k - 1]
  {
  }

  /** Every part but the last holds no separator. */
  lemma {:induction false} SplitPartsFree(s: string, sep: string, maxsplit: Option<nat>, k: nat)
    requires |sep| > 0
    requires k + 1 < |Split(s, sep, maxsplit)|
    ensures !Contains(Split(s, sep, maxsplit)[k], sep)
    decreases |s|
  {
    if maxsplit != Some(0) {
      match Find(s, sep)
      case None =>
      case Some(i) =>
        var rest := if maxsplit.Some? then Some(maxsplit.value - 1) else None;
        var tail := s[i + |sep|..];
        SplitStep(s, sep, maxsplit, i);
        if k == 0 {
          PrefixBeforeFirstFree(s, sep, i);
        } else {
          var parts := Split(tail, sep, rest);
          ConsIndex(s[..i], parts, k);
          SplitPartsFree(tail, sep, rest, k - 1);
        }
    }
  }

  /** With a limit of two splits, the first two parts are the first two unlimited parts. */
  lemma SplitTwoAgrees(s: string, sep: string)
    requires |sep| > 0
    ensures var two, all := Split(s, sep, Some(2)), Split(s, sep, None);
      && (|two| == 3 <==> |all| >= 3)
      && (|all| >= 3 ==> two[0] == all[0] && two[1] == all[1])
      && (|all| < 3 ==> two == all)
  {
    match Find(s, sep)
    case None =>
      assert Split(s, sep, Some(2)) == [s] == Split(s, sep, None);
    case Some(i) =>
      var t := s[i + |sep|..];
      SplitStep(s, sep, Some(2), i);
      SplitStep(s, sep, None, i);
      match Find(t, sep)
      case None =>
        assert Split(t, sep, Some(1)) == [t] == Split(t, sep, None);
      case Some(j) =>
        var u := t[j + |sep|..];
        SplitStep(t, sep, Some(1), j);
        SplitStep(t, sep, None, j);
        assert Split(u, sep, Some(0)) == [u];
        assert |Split(s, sep, None)| == 2 + |Split(u, sep, None)|;
  }

  /** Splitting a string that holds no separator gives the string alone. */
  lemma SplitNoSeparator(s: string, sep: string, maxsplit: Option<nat>)
    requires |sep| > 0
    requires !Contains(s, sep)
    ensures Split(s, sep, maxsplit) == [s]
  {
    FindFirst(s, sep);
  }
}
