/** The two scripts that merge `dependency-overrides.yaml` into the `dependency_overrides`
    section of `pubspec.yaml`: `tools/add_dependency_overrides.py`, which skips a falsy
    overrides document, and `add-dependency-overrides.py`, which has no such guard. Loaded YAML
    documents are Python dictionaries, lists, strings, numbers, booleans and `None`, the same
    values as `Json.Json`. */
module Overrides {
  import opened Outcomes
  import opened Json

  /** The section both scripts write. */
  const Section := "dependency_overrides"

  /** A file of the project directory: absent, of size zero, or holding a document
      (a file of comments only holds `JNull`). */
  datatype File = Missing | Empty | Holds(doc: Json)

  /** `yaml.load` of an existing file: an empty file loads as `None`. */
  function Load(f: File): (j: Json)
    requires !f.Missing?
    ensures f.Empty? ==> j == JNull
    ensures f.Holds? ==> j == f.doc
  {
    if f.Empty? then JNull else f.doc
  }

  /** The lines the scripts print. */
  datatype Message =
    | FilesMissing    // "dependency-overrides.yaml or pubspec.yaml does exist...Exiting"
    | OverridesEmpty  // "dependency-overrides.yaml is empty...Exiting"
    | NothingToAdd    // "The dependency-overrides.yaml is empty...Exiting"
    | Updated         // "dependency_overrides updated successfully in ..."

  /** What happens to `pubspec.yaml`: left alone, opened for writing and left empty, or rewritten. */
  datatype Effect = Untouched | Truncated | Rewritten(doc: Json)

  datatype Outcome = Outcome(printed: seq<Message>, pubspec: Effect, result: Result<()>)

  /** `d.update(arg)` on a dictionary `d`. A dictionary argument adds its entries, replacing
      those with the same key; an empty string or list changes nothing; a non-empty string
      has elements of length 1 (ValueError); other values are not iterable (TypeError). A
      non-empty list of key/value pairs is not modelled and raises TypeError here. */
  function Update(d: map<string, Json>, arg: Json): (r: Result<map<string, Json>>)
    ensures arg.JObj? ==> r.Ok? && r.value.Keys == d.Keys + arg.fields.Keys
    ensures arg.JObj? ==> forall k :: k in arg.fields ==> r.value[k] == arg.fields[k]
    ensures arg.JObj? ==> forall k :: k in d && k !in arg.fields ==> r.value[k] == d[k]
    ensures !arg.JObj? ==> (r.Ok? <==> arg == JStr("") || arg == JArr([]))
    ensures !arg.JObj? && r.Ok? ==> r.value == d
    ensures !r.Ok? ==> r.Raised?
  {
    match arg
    case JObj(m) => Ok(d + m)
    case JStr(s) => if s == "" then Ok(d) else Raised(ValueError)
    case JArr(items) => if items == [] then Ok(d) else Raised(TypeError)
    case _ => Raised(TypeError)
  }

  /** Lines 43-46 of `add-dependency-overrides.py` and 49-52 of
      `tools/add_dependency_overrides.py`: an existing section is updated with the overrides,
      an absent one becomes the overrides document itself. Only a dictionary can hold the
      section (TypeError otherwise), and only a dictionary section has `update`
      (AttributeError otherwise). */
  function Merge(pubspec: Json, overrides: Json): (r: Result<Json>)
    ensures !pubspec.JObj? ==> r == Raised(TypeError)
    ensures r.Ok? ==> pubspec.JObj? && r.value.JObj? && r.value.fields.Keys == pubspec.fields.Keys + {Section}
    ensures r.Ok? ==> forall k :: k in pubspec.fields && k != Section ==> r.value.fields[k] == pubspec.fields[k]
    ensures pubspec.JObj? && Section !in pubspec.fields ==> r.Ok? && r.value.fields[Section] == overrides
    ensures pubspec.JObj? && Section in pubspec.fields && !pubspec.fields[Section].JObj? ==> r == Raised(AttributeError)
    ensures pubspec.JObj? && Section in pubspec.fields && pubspec.fields[Section].JObj? && overrides.JObj? ==>
      var before := pubspec.fields[Section].fields;
      && r.Ok? && r.value.fields[Section].JObj?
      && r.value.fields[Section].fields.Keys == before.Keys + overrides.fields.Keys
      && (forall k :: k in overrides.fields ==> r.value.fields[Section].fields[k] == overrides.fields[k])
      && (forall k :: k in before && k !in overrides.fields ==> r.value.fields[Section].fields[k] == before[k])
    ensures !r.Ok? ==> r.Raised?
  {
    match pubspec
    case JObj(top) =>
      if Section in top then
        match top[Section]
        case JObj(existing) =>
          var merged :- Update(existing, overrides);
          Ok(JObj(top[Section := JObj(merged)]))
        case _ => Raised(AttributeError)
      else Ok(JObj(top[Section := overrides]))
    case _ => Raised(TypeError)
  }

  /** Lines 25-31 of `add-dependency-overrides.py` and 26-32 of
      `tools/add_dependency_overrides.py`, shared by both scripts: the existence and emptiness
      checks only print. A missing overrides file fails in `stat`, a missing `pubspec.yaml`
      when it is opened; otherwise `add` runs on the loaded documents whatever was printed. */
  function Main(pubspec: File, overrides: File, add: (Json, Json) -> Outcome): (r: Outcome)
    ensures pubspec.Missing? || overrides.Missing? ==>
      r.result == Raised(FileNotFound) && r.pubspec == Untouched && |r.printed| >= 1 && r.printed[0] == FilesMissing
    ensures !pubspec.Missing? && !overrides.Missing? ==>
      var added := add(Load(pubspec), Load(overrides));
      && r.result == added.result && r.pubspec == added.pubspec
      && r.printed == (if overrides.Empty? then [OverridesEmpty] else []) + added.printed
  {
    var missing := if pubspec.Missing? || overrides.Missing? then [FilesMissing] else [];
    if overrides.Missing? then Outcome(missing, Untouched, Raised(FileNotFound))
    else
      var notices := missing + (if overrides.Empty? then [OverridesEmpty] else []);
      if pubspec.Missing? then Outcome(notices, Untouched, Raised(FileNotFound))
      else
        var added := add(Load(pubspec), Load(overrides));
        Outcome(notices + added.printed, added.pubspec, added.result)
  }

  /** `add_dependency_overrides` of `add-dependency-overrides.py`, lines 34-50: the merge runs
      whatever the overrides document holds, and its result is written back. */
  function Unguarded(pubspec: Json, overrides: Json): (r: Outcome)
    ensures r.pubspec.Rewritten? <==> Merge(pubspec, overrides).Ok?
    ensures r.pubspec.Rewritten? ==> r.pubspec.doc == Merge(pubspec, overrides).value && r.result == Ok(())
    ensures !r.pubspec.Rewritten? ==> r.pubspec == Untouched && r.result == Merge(pubspec, overrides).PropagateFailure()
    ensures r.printed == []
  {
    var merged := Merge(pubspec, overrides);
    if merged.Ok? then Outcome([], Rewritten(merged.value), Ok(()))
    else Outcome([], Untouched, merged.PropagateFailure())
  }

  /** `add_dependency_overrides` of `tools/add_dependency_overrides.py`, lines 35-57, as
      written: a falsy overrides document ends the function before anything is written; after
      a merge the file is opened for writing (line 54), which empties it, and line 55 names
      `ruamel`, which the module never bound (it imports only `YAML` from `ruamel.yaml`), so
      the merged document is never written. */
  function GuardedAsWritten(pubspec: Json, overrides: Json): (r: Outcome)
    ensures !Truthy(overrides) ==> r == Outcome([NothingToAdd], Untouched, Ok(()))
    ensures Truthy(overrides) && Merge(pubspec, overrides).Ok? ==>
      r.pubspec == Truncated && r.result == Raised(NameError)
    ensures !r.pubspec.Rewritten?
  {
    if !Truthy(overrides) then Outcome([NothingToAdd], Untouched, Ok(()))
    else
      var merged := Merge(pubspec, overrides);
      if merged.Ok? then Outcome([], Truncated, Raised(NameError))
      else Outcome([], Untouched, merged.PropagateFailure())
  }

  /** The same function with the dump it evidently intends: the merged document is written
      and the success line printed. */
  function Guarded(pubspec: Json, overrides: Json): (r: Outcome)
    ensures !Truthy(overrides) ==> r == Outcome([NothingToAdd], Untouched, Ok(()))
    ensures r.pubspec.Rewritten? <==> Truthy(overrides) && Merge(pubspec, overrides).Ok?
    ensures r.pubspec.Rewritten? ==> r.pubspec.doc == Merge(pubspec, overrides).value && r.printed == [Updated]
    ensures r.result.Ok? <==> r.pubspec != Truncated && (r.pubspec.Rewritten? || !Truthy(overrides))
  {
    if !Truthy(overrides) then Outcome([NothingToAdd], Untouched, Ok(()))
    else
      var merged := Merge(pubspec, overrides);
      if merged.Ok? then Outcome([Updated], Rewritten(merged.value), Ok(()))
      else Outcome([], Untouched, merged.PropagateFailure())
  }

  /** The script `tools/add_dependency_overrides.py` with the corrected dump. */
  function ToolsScript(pubspec: File, overrides: File): (r: Outcome)
    ensures overrides.Empty? && !pubspec.Missing? ==> r == Outcome([OverridesEmpty, NothingToAdd], Untouched, Ok(()))
  {
    Main(pubspec, overrides, Guarded)
  }

  /** The script `add-dependency-overrides.py`. With no guard, an empty overrides file sets
      an absent section to `None` and fails on an existing dictionary section. */
  function DashScript(pubspec: File, overrides: File): (r: Outcome)
    ensures overrides.Empty? && !pubspec.Missing? && Load(pubspec).JObj? && Section !in Load(pubspec).fields ==>
      r.pubspec.Rewritten? && r.pubspec.doc.JObj? && Section in r.pubspec.doc.fields && r.pubspec.doc.fields[Section] == JNull
    ensures overrides.Empty? && !pubspec.Missing? && Load(pubspec).JObj? && Section in Load(pubspec).fields
            && Load(pubspec).fields[Section].JObj? ==>
      r == Outcome([OverridesEmpty], Untouched, Raised(TypeError))
  {
    Main(pubspec, overrides, Unguarded)
  }

  /** Merging the same dictionary of overrides a second time changes nothing: running a
      script twice leaves `pubspec.yaml` as the first run wrote it. */
  lemma MergeIdempotent(pubspec: Json, overrides: Json)
    requires overrides.JObj? && Merge(pubspec, overrides).Ok?
    ensures Merge(Merge(pubspec, overrides).value, overrides) == Merge(pubspec, overrides)
  {
    var once := Merge(pubspec, overrides).value;
    var section := once.fields[Section].fields;
    assert section + overrides.fields == section;
    assert once.fields[Section := JObj(section)] == once.fields;
  }

  /** The two scripts differ only in the guard: on a truthy overrides document the guarded
      one rewrites `pubspec.yaml` exactly as the unguarded one does. */
  lemma GuardOnlyDiffers(pubspec: Json, overrides: Json)
    requires Truthy(overrides)
    ensures Guarded(pubspec, overrides).pubspec == Unguarded(pubspec, overrides).pubspec
    ensures Guarded(pubspec, overrides).result == Unguarded(pubspec, overrides).result
  {
  }

  /** A document the corrected script rewrites is lost by the one as written. */
  lemma WriteLost(pubspec: Json, overrides: Json)
    requires Guarded(pubspec, overrides).pubspec.Rewritten?
    ensures GuardedAsWritten(pubspec, overrides) == Outcome([], Truncated, Raised(NameError))
  {
  }

  /** A concrete case: adding one override to a pubspec without the section. */
  lemma WriteLostExample()
    ensures var pubspec := JObj(map["name" := JStr("at_secondary")]);
      var overrides := JObj(map["at_commons" := JObj(map["path" := JStr("../at_commons")])]);
      && Guarded(pubspec, overrides).pubspec == Rewritten(JObj(pubspec.fields[Section := overrides]))
      && GuardedAsWritten(pubspec, overrides).pubspec == Truncated
  {
    var pubspec := JObj(map["name" := JStr("at_secondary")]);
    var overrides := JObj(map["at_commons" := JObj(map["path" := JStr("../at_commons")])]);
    assert Truthy(overrides) by {
      assert "at_commons" in overrides.fields;
    }
  }
}
