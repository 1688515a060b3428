/** `add_dependency_overrides.py`: the `dependencies` of `pubspec.yaml` are copied into
    `dependency_overrides`, with every `at_*` git dependency on the `at_server` repository
    pinned to a branch. */
module Pinning {
  import opened Outcomes
  import opened Json
  import opened Text
  import Overrides

  /** The `-b` argument written as `ref`: the branch name, or `None` when it was not given. */
  function BranchValue(branch: Option<string>): (j: Json)
    ensures branch.Some? ==> j == JStr(branch.value)
    ensures branch.None? ==> j == JNull
  {
    if branch.Some? then JStr(branch.value) else JNull
  }

  /** Python's `needle in hay` for a string `needle`: substring of a string, item of a list,
      key of a dictionary; TypeError for `None`, numbers and booleans. */
  function In(needle: string, hay: Json): (r: Result<bool>)
    ensures hay.JStr? ==> r == Ok(Contains(hay.s, needle))
    ensures hay.JArr? ==> r == Ok(JStr(needle) in hay.items)
    ensures hay.JObj? ==> r == Ok(needle in hay.fields)
    ensures !hay.JStr? && !hay.JArr? && !hay.JObj? ==> r == Raised(TypeError)
  {
    match hay
    case JStr(s) => Ok(Contains(s, needle))
    case JArr(items) => Ok(JStr(needle) in items)
    case JObj(m) => Ok(needle in m)
    case _ => Raised(TypeError)
  }

  /** The entry is a git dependency whose URL names `at_server.git`. */
  predicate OnServer(value: Json)
    ensures OnServer(value) ==>
      && Get(value, "git").Ok? && Get(value.fields["git"], "url").Ok?
      && var url := value.fields["git"].fields["url"]; url.JStr? || url.JArr? || url.JObj?
  {
    && value.JObj? && "git" in value.fields
    && value.fields["git"].JObj? && "url" in value.fields["git"].fields
    && In("at_server.git", value.fields["git"].fields["url"]) == Ok(true)
  }

  /** Lines 26-28 for one entry. Keys not starting with `at_` are never inspected; for the
      others `value['git']['url']` must exist (KeyError) in dictionaries (TypeError), and a
      URL naming `at_server.git` gets `git.ref` set to the branch. */
  function PinEntry(key: string, value: Json, branch: Option<string>): (r: Result<Json>)
    ensures !StartsWith(key, "at_") ==> r == Ok(value)
    ensures r.Ok? ==> !OnServer(value) || !StartsWith(key, "at_") ==> r.value == value
    ensures !r.Ok? ==> r == Raised(KeyError) || r == Raised(TypeError)
    ensures StartsWith(key, "at_") && OnServer(value) ==>
      && r.Ok? && r.value.JObj? && r.value.fields.Keys == value.fields.Keys
      && (forall k :: k in value.fields && k != "git" ==> r.value.fields[k] == value.fields[k])
      && r.value.fields["git"].JObj?
      && r.value.fields["git"].fields.Keys == value.fields["git"].fields.Keys + {"ref"}
      && r.value.fields["git"].fields["ref"] == BranchValue(branch)
      && (forall k :: k in value.fields["git"].fields && k != "ref" ==>
            r.value.fields["git"].fields[k] == value.fields["git"].fields[k])
    ensures StartsWith(key, "at_") ==>
      (r.Ok? <==> Get(value, "git").Ok? && Get(value.fields["git"], "url").Ok?
                  && In("at_server.git", value.fields["git"].fields["url"]).Ok?)
  {
    if !StartsWith(key, "at_") then Ok(value)
    else
      var git :- Get(value, "git");
      var url :- Get(git, "url");
      var hit :- In("at_server.git", url);
      if hit then Ok(JObj(value.fields["git" := JObj(git.fields["ref" := BranchValue(branch)])]))
      else Ok(value)
  }

  /** Pinning an entry a second time to the same branch changes nothing. */
  lemma PinEntryIdempotent(key: string, value: Json, branch: Option<string>)
    requires PinEntry(key, value, branch).Ok?
    ensures PinEntry(key, PinEntry(key, value, branch).value, branch) == PinEntry(key, value, branch)
  {
    var once := PinEntry(key, value, branch).value;
    if StartsWith(key, "at_") && OnServer(value) {
      var git := once.fields["git"];
      assert git.fields["url"] == value.fields["git"].fields["url"];
      assert OnServer(once);
      var again := git.fields["ref" := BranchValue(branch)];
      assert again == git.fields;
      assert once.fields["git" := JObj(again)] == once.fields;
    }
  }

  /** The loop of lines 26-28 over the keys in `order`, the order in which the dictionary
      holds them: the first entry that fails ends the loop with its exception. */
  function PinAll(deps: map<string, Json>, order: seq<string>, branch: Option<string>): (r: Result<map<string, Json>>)
    requires forall i :: 0 <= i < |order| ==> order[i] in deps
    ensures r.Ok? || r.Raised?
    ensures r.Ok? ==> r.value.Keys == deps.Keys
    decreases |order|
  {
    if order == [] then Ok(deps)
    else
      var v :- PinEntry(order[0], deps[order[0]], branch);
      var rest :- PinAll(deps, order[1..], branch);
      Ok(rest[order[0] := v])
  }

  /** The loop succeeds exactly when every entry does, keeps the keys, pins the listed
      entries and leaves every other entry as it was. */
  lemma {:induction false} PinAllEntries(deps: map<string, Json>, order: seq<string>, branch: Option<string>)
    requires forall i :: 0 <= i < |order| ==> order[i] in deps
    ensures var r := PinAll(deps, order, branch);
      && (r.Ok? <==> forall i :: 0 <= i < |order| ==> PinEntry(order[i], deps[order[i]], branch).Ok?)
      && (r.Ok? ==> r.value.Keys == deps.Keys)
      && (r.Ok? ==> forall k :: k in deps && k in order ==> r.value[k] == PinEntry(k, deps[k], branch).value)
      && (r.Ok? ==> forall k :: k in deps && k !in order ==> r.value[k] == deps[k])
    decreases |order|
  {
    if order != [] {
      PinAllEntries(deps, order[1..], branch);
      var r := PinAll(deps, order, branch);
      if r.Ok? {
        forall k | k in deps && k in order
          ensures r.value[k] == PinEntry(k, deps[k], branch).value
        {
          if k != order[0] {
            assert k in order[1..];
          }
        }
      }
      if forall i :: 0 <= i < |order| ==> PinEntry(order[i], deps[order[i]], branch).Ok? {
        assert forall i :: 0 <= i < |order| - 1 ==> order[1..][i] == order[i + 1];
      } else {
        var i :| 0 <= i < |order| && !PinEntry(order[i], deps[order[i]], branch).Ok?;
        if i > 0 {
          assert order[1..][i - 1] == order[i];
        }
      }
    }
  }

  /** The loop ends with the exception of the first failing entry in document order. */
  lemma {:induction false} PinAllFirstFailure(deps: map<string, Json>, order: seq<string>, branch: Option<string>, i: nat)
    requires forall j :: 0 <= j < |order| ==> order[j] in deps
    requires i < |order| && !PinEntry(order[i], deps[order[i]], branch).Ok?
    requires forall j :: 0 <= j < i ==> PinEntry(order[j], deps[order[j]], branch).Ok?
    ensures PinAll(deps, order, branch) == PinEntry(order[i], deps[order[i]], branch).PropagateFailure()
    decreases i
  {
    if i > 0 {
      PinAllFirstFailure(deps, order[1..], branch, i - 1);
    }
  }

  /** Lines 21-30: the `dependencies` section is deep-copied, pinned, and stored as
      `dependency_overrides`, replacing whatever that section held. `order` lists the keys of
      `dependencies` in document order. A document that is not a dictionary fails with
      TypeError, a missing section with KeyError, and a section that is not a dictionary has
      no `items` (AttributeError). */
  function Pin(doc: Json, order: seq<string>, branch: Option<string>): (r: Result<Json>)
    requires Get(doc, "dependencies").Ok? && doc.fields["dependencies"].JObj? ==>
      forall i :: 0 <= i < |order| ==> order[i] in doc.fields["dependencies"].fields
    ensures !doc.JObj? ==> r == Raised(TypeError)
    ensures doc.JObj? && "dependencies" !in doc.fields ==> r == Raised(KeyError)
    ensures Get(doc, "dependencies").Ok? && !doc.fields["dependencies"].JObj? ==> r == Raised(AttributeError)
    ensures r.Ok? ==> doc.JObj? && r.value.JObj? && r.value.fields.Keys == doc.fields.Keys + {Overrides.Section}
    ensures r.Ok? ==> forall k :: k in doc.fields && k != Overrides.Section ==> r.value.fields[k] == doc.fields[k]
    ensures r.Ok? ==> r.value.fields[Overrides.Section].JObj?
                      && r.value.fields[Overrides.Section].fields.Keys == doc.fields["dependencies"].fields.Keys
  {
    var deps :- Get(doc, "dependencies");
    if !deps.JObj? then Raised(AttributeError)
    else
      PinAllEntries(deps.fields, order, branch);
      var pinned :- PinAll(deps.fields, order, branch);
      Ok(JObj(doc.fields[Overrides.Section := JObj(pinned)]))
  }

  /** The section written depends only on `dependencies` and the branch: whatever
      `dependency_overrides` held before is replaced, not merged. */
  lemma ReplacesWholesale(doc: Json, order: seq<string>, branch: Option<string>, previous: Json)
    requires doc.JObj? && "dependencies" in doc.fields && doc.fields["dependencies"].JObj?
    requires forall i :: 0 <= i < |order| ==> order[i] in doc.fields["dependencies"].fields
    ensures var other := JObj(doc.fields[Overrides.Section := previous]);
      && Pin(other, order, branch).Ok? == Pin(doc, order, branch).Ok?
      && (Pin(doc, order, branch).Ok? ==>
            Pin(other, order, branch).value.fields[Overrides.Section] == Pin(doc, order, branch).value.fields[Overrides.Section])
  {
    var other := JObj(doc.fields[Overrides.Section := previous]);
    assert other.fields["dependencies"] == doc.fields["dependencies"];
  }

  /** With every key listed, the overrides hold each dependency pinned: an `at_*` git
      dependency on `at_server.git` carries the branch as `ref`, any other is copied as is. */
  lemma PinnedEntries(doc: Json, order: seq<string>, branch: Option<string>)
    requires doc.JObj? && "dependencies" in doc.fields && doc.fields["dependencies"].JObj?
    requires forall k :: k in doc.fields["dependencies"].fields <==> k in order
    requires Pin(doc, order, branch).Ok?
    ensures var deps, section := doc.fields["dependencies"].fields, Pin(doc, order, branch).value.fields[Overrides.Section].fields;
      forall k :: k in deps ==>
        && PinEntry(k, deps[k], branch).Ok?
        && section[k] == PinEntry(k, deps[k], branch).value
        && (StartsWith(k, "at_") && OnServer(deps[k]) ==> section[k].fields["git"].fields["ref"] == BranchValue(branch))
        && (!StartsWith(k, "at_") || !OnServer(deps[k]) ==> section[k] == deps[k])
  {
    var deps := doc.fields["dependencies"].fields;
    PinAllEntries(deps, order, branch);
    forall k | k in deps
      ensures PinEntry(k, deps[k], branch).Ok?
    {
      var i :| 0 <= i < |order| && order[i] == k;
    }
  }
}
