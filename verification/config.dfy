/** `at_secondary/at_secondary_server/config/generate_config.py`, lines 29-44: every
    property `a.b.c = v` of `config-<environment>.properties` is written into the map loaded
    from `config-base.yaml`. Each lookup of the walk starts again from the root map, so a key
    of three or more segments lands under its last two segments; `Nested` is the walk down
    the path that the loop's comment describes. */
module Config {
  import opened Outcomes
  import opened Json
  import opened Text

  /** How the loop moves from one segment to the next: `temp = yamlMap[f]` as written, or
      `temp = temp[f]`. */
  datatype Walk = FromRoot | Nested

  /** `temp[key] = value` (line 40): only a dictionary supports item assignment. */
  function Store(temp: Json, key: string, value: string): (r: Result<Json>)
    ensures r.Ok? <==> temp.JObj?
    ensures r.Ok? ==> r.value.JObj? && r.value.fields.Keys == temp.fields.Keys + {key}
    ensures r.Ok? ==> r.value.fields[key] == JStr(value)
    ensures r.Ok? ==> forall k :: k in temp.fields && k != key ==> r.value.fields[k] == temp.fields[k]
    ensures !r.Ok? ==> r == Raised(TypeError)
  {
    if temp.JObj? then Ok(JObj(temp.fields[key := JStr(value)])) else Raised(TypeError)
  }

  /** `yamlMap[k]` for each `k` of `keys` in turn (line 42), of which only the last is kept:
      the first that fails ends the walk. */
  function Visit(root: Json, keys: seq<string>): (r: Result<()>)
    ensures r.Ok? || r.Raised?
    ensures r.Ok? <==> keys == [] || (root.JObj? && forall i :: 0 <= i < |keys| ==> keys[i] in root.fields)
    decreases |keys|
  {
    if keys == [] then Ok(())
    else
      var _ :- Get(root, keys[0]);
      Visit(root, keys[1..])
  }

  /** The walk from the root succeeds exactly when the root is a dictionary holding every
      key; otherwise a dictionary root fails with KeyError and any other root with TypeError. */
  lemma {:induction false} VisitFails(root: Json, keys: seq<string>)
    ensures Visit(root, keys).Ok? <==> keys == [] || (root.JObj? && forall i :: 0 <= i < |keys| ==> keys[i] in root.fields)
    ensures keys != [] && !root.JObj? ==> Visit(root, keys) == Raised(TypeError)
    ensures root.JObj? && !Visit(root, keys).Ok? ==> Visit(root, keys) == Raised(KeyError)
    decreases |keys|
  {
    if keys != [] {
      VisitFails(root, keys[1..]);
      assert forall i :: 1 <= i < |keys| ==> keys[i] == keys[1..][i - 1];
    }
  }

  /** Lines 33-43 for one property, as written: `fields` is `key.split('.')`. One segment is
      stored in the root; otherwise every segment but the last is looked up in the root, and
      the last is stored in the value of the one before it. */
  function Assign(root: Json, fields: seq<string>, value: string): (r: Result<Json>)
    requires |fields| >= 1
    ensures |fields| == 1 ==> r == Store(root, fields[0], value)
    ensures r.Ok? ==> root.JObj? && r.value.JObj? && r.value.fields.Keys == root.fields.Keys + {TopKey(fields, FromRoot)}
    ensures r.Ok? ==> forall k :: k in root.fields && k != TopKey(fields, FromRoot) ==> r.value.fields[k] == root.fields[k]
    ensures |fields| >= 2 ==>
      var parent := fields[|fields| - 2];
      && (r.Ok? <==> Visit(root, fields[..|fields| - 1]).Ok? && root.JObj? && parent in root.fields
                     && root.fields[parent].JObj?)
      && (r.Ok? ==> r.value.fields[parent] == Store(root.fields[parent], fields[|fields| - 1], value).value)
      && ((Visit(root, fields[..|fields| - 1]).Ok? && root.JObj? && parent in root.fields
           && !root.fields[parent].JObj?) ==> r == Raised(TypeError))
    ensures !r.Ok? ==> r.Raised?
  {
    var n := |fields|;
    if n == 1 then Store(root, fields[0], value)
    else
      var _ :- Visit(root, fields[..n - 1]);
      VisitFails(root, fields[..n - 1]);
      assert fields[..n - 1][n - 2] == fields[n - 2];
      var inner :- Store(root.fields[fields[n - 2]], fields[n - 1], value);
      Ok(JObj(root.fields[fields[n - 2] := inner]))
  }

  /** The corrected step: each segment but the last is looked up in the value of the one
      before it, so the property lands at the end of its whole path. */
  function AssignNested(node: Json, fields: seq<string>, value: string): (r: Result<Json>)
    requires |fields| >= 1
    ensures r.Ok? ==> node.JObj? && r.value.JObj? && r.value.fields.Keys == node.fields.Keys + {fields[0]}
    ensures r.Ok? ==> forall k :: k in node.fields && k != fields[0] ==> r.value.fields[k] == node.fields[k]
    ensures !r.Ok? ==> r == Raised(KeyError) || r == Raised(TypeError)
    decreases |fields|
  {
    if |fields| == 1 then Store(node, fields[0], value)
    else
      var child :- Get(node, fields[0]);
      var inner :- AssignNested(child, fields[1..], value);
      Ok(JObj(node.fields[fields[0] := inner]))
  }

  /** `node[f0][f1]...` along a whole path. */
  function Lookup(node: Json, path: seq<string>): (r: Result<Json>)
    ensures r.Ok? || r.Raised?
    ensures r.Ok? && |path| >= 1 ==> PathExists(node, path)
    decreases |path|
  {
    if path == [] then Ok(node)
    else
      var child :- Get(node, path[0]);
      Lookup(child, path[1..])
  }

  /** Every segment but the last names a dictionary along the path. */
  predicate PathExists(node: Json, fields: seq<string>)
    decreases |fields|
  {
    && node.JObj?
    && (|fields| >= 2 ==> fields[0] in node.fields && PathExists(node.fields[fields[0]], fields[1..]))
  }

  /** The corrected step succeeds exactly when the path leads through dictionaries, and the
      property can then be read back along its whole path. */
  lemma {:induction false} NestedReachesPath(node: Json, fields: seq<string>, value: string)
    requires |fields| >= 1
    ensures AssignNested(node, fields, value).Ok? <==> PathExists(node, fields)
    ensures AssignNested(node, fields, value).Ok? ==>
      Lookup(AssignNested(node, fields, value).value, fields) == Ok(JStr(value))
    decreases |fields|
  {
    if |fields| >= 2 && node.JObj? && fields[0] in node.fields {
      NestedReachesPath(node.fields[fields[0]], fields[1..], value);
    }
  }

  /** With three segments, as written, `a.b.c` needs `a` in the root and writes `root[b][c]`. */
  lemma FromRootLastTwo(root: Json, fields: seq<string>, value: string)
    requires |fields| >= 3 && Visit(root, fields[..|fields| - 2]).Ok?
    ensures Assign(root, fields, value) == Assign(root, fields[|fields| - 2..], value)
  {
    var n := |fields|;
    var tail := fields[n - 2..];
    VisitFails(root, fields[..n - 1]);
    VisitFails(root, fields[..n - 2]);
    VisitFails(root, tail[..1]);
    assert tail[..1][0] == fields[n - 2] && tail[1] == fields[n - 1] && tail[0] == fields[n - 2];
    assert fields[..n - 1][n - 2] == fields[n - 2];
  }

  /** A root where `a.b.c` has a place under its whole path: as written the walk raises
      KeyError, since `b` is looked up in the root; the corrected walk writes `a.b.c`. */
  lemma NestedKeyRaises()
    ensures var root := JObj(map["a" := JObj(map["b" := JObj(map["c" := JStr("1")])])]);
      && Assign(root, ["a", "b", "c"], "2") == Raised(KeyError)
      && AssignNested(root, ["a", "b", "c"], "2").Ok?
      && Lookup(AssignNested(root, ["a", "b", "c"], "2").value, ["a", "b", "c"]) == Ok(JStr("2"))
  {
    var root := JObj(map["a" := JObj(map["b" := JObj(map["c" := JStr("1")])])]);
    VisitFails(root, ["a", "b"]);
    assert ["a", "b", "c"][..2] == ["a", "b"];
    assert ["a", "b"][1] == "b";
    NestedReachesPath(root, ["a", "b", "c"], "2");
    assert ["a", "b", "c"][1..] == ["b", "c"] && ["b", "c"][1..] == ["c"];
  }

  /** A root with a top-level `b`: as written `a.b.c` silently lands in `root[b][c]`. */
  lemma NestedKeyMisplaced()
    ensures var root := JObj(map["a" := JObj(map["b" := JObj(map[])]), "b" := JObj(map[])]);
      var written := Assign(root, ["a", "b", "c"], "2");
      && written.Ok?
      && written.value.fields["b"] == JObj(map["c" := JStr("2")])
      && written.value.fields["a"] == JObj(map["b" := JObj(map[])])
  {
    var root := JObj(map["a" := JObj(map["b" := JObj(map[])]), "b" := JObj(map[])]);
    VisitFails(root, ["a", "b"]);
    assert ["a", "b", "c"][..2] == ["a", "b"];
    assert ["a", "b"][0] == "a" && ["a", "b"][1] == "b";
  }

  /** The top-level key a property changes. */
  function TopKey(fields: seq<string>, walk: Walk): string
    requires |fields| >= 1
  {
    if walk.Nested? || |fields| == 1 then fields[0] else fields[|fields| - 2]
  }

  function Place(root: Json, fields: seq<string>, value: string, walk: Walk): (r: Result<Json>)
    requires |fields| >= 1
    ensures r.Ok? ==> root.JObj? && r.value.JObj? && r.value.fields.Keys == root.fields.Keys + {TopKey(fields, walk)}
    ensures r.Ok? ==> forall k :: k in root.fields && k != TopKey(fields, walk) ==> r.value.fields[k] == root.fields[k]
    ensures !r.Ok? ==> r.Raised?
  {
    if walk == FromRoot then Assign(root, fields, value) else AssignNested(root, fields, value)
  }

  /** The segments of a property key, `key.split('.')`. */
  function Segments(key: string): (fields: seq<string>)
    ensures |fields| >= 1
    ensures Join(fields, ".") == key
  {
    SplitJoin(key, ".", None);
    Split(key, ".", None)
  }

  /** Lines 32-43: the properties in the order the loop meets them, each written into the map
      left by the ones before it; the first failure ends the script before `config.yaml` is
      written. The loop iterates the loaded properties dictionary, so each key comes once; the
      model takes any sequence, and gives the script's result on one that repeats no key. */
  function Generate(root: Json, properties: seq<(string, string)>, walk: Walk): (r: Result<Json>)
    ensures r.Ok? || r.Raised?
    decreases |properties|
  {
    if properties == [] then Ok(root)
    else
      var next :- Place(root, Segments(properties[0].0), properties[0].1, walk);
      Generate(next, properties[1..], walk)
  }

  /** A key of one dot-free segment. */
  lemma SegmentsOne(x: string)
    requires '.' !in x
    ensures Segments(x) == [x]
  {
    forall i: nat | i <= |x|
      ensures !OccursAt(x, ".", i)
    {
      if i + 1 <= |x| {
        assert x[i..i + 1] == [x[i]];
      }
    }
    SplitNoSeparator(x, ".", None);
  }

  /** A key of two dot-free segments. */
  lemma SegmentsTwo(x: string, y: string)
    requires '.' !in x && '.' !in y
    ensures Segments(x + "." + y) == [x, y]
  {
    var s := x + "." + y;
    FirstSeparator(x, '.', y);
    assert s[..|x|] == x && s[|x| + 1..] == y;
    SplitStep(s, ".", None, |x|);
    SegmentsOne(y);
  }

  /** Replaying a file that repeats a key is not the script: the lines `p.q=2`, `p=1`, `p.q=x`
      on `{p: {}}` raise TypeError, while the dictionary of those lines, `p.q` first with
      value `x` and then `p`, writes `{p: "1"}`. */
  lemma RepeatedKeyDiverges()
    ensures var root := JObj(map["p" := JObj(map[])]);
      && Generate(root, [("p.q", "2"), ("p", "1"), ("p.q", "x")], FromRoot) == Raised(TypeError)
      && Generate(root, [("p.q", "x"), ("p", "1")], FromRoot) == Ok(JObj(map["p" := JStr("1")]))
  {
    SegmentsTwo("p", "q");
    SegmentsOne("p");
    assert "p" + "." + "q" == "p.q";
    var root := JObj(map["p" := JObj(map[])]);
    var pq := ["p", "q"];
    assert pq[..1] == ["p"] && pq[0] == "p" && pq[1] == "q";
    VisitFails(root, ["p"]);
    var r1 := Assign(root, pq, "2").value;
    assert r1 == JObj(map["p" := JObj(map["q" := JStr("2")])]);
    var r2 := Assign(r1, ["p"], "1").value;
    assert r2 == JObj(map["p" := JStr("1")]);
    VisitFails(r2, ["p"]);
    assert Assign(r2, pq, "x") == Raised(TypeError);
    var r3 := Assign(root, pq, "x").value;
    assert r3 == JObj(map["p" := JObj(map["q" := JStr("x")])]);
    assert r3.fields["p" := JStr("1")] == map["p" := JStr("1")];
    assert Assign(r3, ["p"], "1") == Ok(r2);
  }

  /** A top-level entry that no property names as its top key keeps its value. */
  lemma {:induction false} GenerateKeeps(root: Json, properties: seq<(string, string)>, walk: Walk, k: string)
    requires root.JObj? && k in root.fields
    requires forall i :: 0 <= i < |properties| ==> TopKey(Segments(properties[i].0), walk) != k
    ensures Generate(root, properties, walk).Ok? ==>
      var r := Generate(root, properties, walk).value; r.JObj? && k in r.fields && r.fields[k] == root.fields[k]
    decreases |properties|
  {
    if properties != [] {
      var next := Place(root, Segments(properties[0].0), properties[0].1, walk);
      if next.Ok? {
        GenerateKeeps(next.value, properties[1..], walk, k);
      }
    }
  }

  /** Where a property's value lands, as the path from the root: as written, its last two
      segments (its only one when there is one); with the corrected walk, its whole path. */
  function Target(fields: seq<string>, walk: Walk): (path: seq<string>)
    requires |fields| >= 1
    ensures 1 <= |path| <= |fields| && path[|path| - 1] == fields[|fields| - 1]
    ensures path[0] == TopKey(fields, walk)
  {
    if walk.Nested? || |fields| == 1 then fields else fields[|fields| - 2..]
  }

  /** Two properties whose values land in the same place, such as `x.b.c` and then `b.c` as
      written: once the first is placed, the second gives the map it would have given alone,
      so the later value is the one that stays. */
  lemma LaterWins(root: Json, key1: string, key2: string, first: string, second: string, walk: Walk)
    requires Target(Segments(key1), walk) == Target(Segments(key2), walk)
    requires Place(root, Segments(key1), first, walk).Ok?
    ensures Generate(root, [(key1, first), (key2, second)], walk) == Place(root, Segments(key2), second, walk)
  {
    var f1, f2 := Segments(key1), Segments(key2);
    var once := Place(root, f1, first, walk).value;
    if walk == FromRoot {
      AssignOverwrites(root, f1, f2, first, second);
    } else {
      assert key1 == Join(f1, ".") == Join(f2, ".") == key2;
      NestedTwice(root, f1, first, second);
    }
    assert [(key1, first), (key2, second)][1..] == [(key2, second)];
    assert Generate(root, [(key1, first), (key2, second)], walk) == Generate(once, [(key2, second)], walk);
    var last := Place(once, f2, second, walk);
    if last.Ok? {
      assert Generate(once, [(key2, second)], walk) == Generate(last.value, [], walk);
    }
  }

  /** The same key written twice: the second value stays. */
  lemma LaterWinsSameKey(root: Json, key: string, first: string, second: string, walk: Walk)
    requires Place(root, Segments(key), first, walk).Ok?
    ensures Generate(root, [(key, first), (key, second)], walk) == Place(root, Segments(key), second, walk)
  {
    LaterWins(root, key, key, first, second, walk);
  }

  /** The walk from the root depends only on whether the root is a dictionary and which keys
      it holds. */
  lemma VisitSameKeys(a: Json, b: Json, keys: seq<string>)
    requires a.JObj? && b.JObj? && a.fields.Keys == b.fields.Keys
    ensures Visit(a, keys) == Visit(b, keys)
  {
    VisitFails(a, keys);
    VisitFails(b, keys);
  }

  /** As written, a property overwrites whatever an earlier property with the same last two
      segments (or the same single segment) wrote. */
  lemma AssignOverwrites(root: Json, f1: seq<string>, f2: seq<string>, first: string, second: string)
    requires |f1| >= 1 && |f2| >= 1 && Target(f1, FromRoot) == Target(f2, FromRoot)
    requires Assign(root, f1, first).Ok?
    ensures Assign(Assign(root, f1, first).value, f2, second) == Assign(root, f2, second)
  {
    var n1, n2 := |f1|, |f2|;
    if n1 == 1 {
      assert f2 == Target(f2, FromRoot);
      AssignTwice(root, f1, first, second);
    } else {
      var once := Assign(root, f1, first).value;
      var parent, last := f1[n1 - 2], f1[n1 - 1];
      assert Target(f1, FromRoot) == [parent, last];
      assert n2 >= 2 && f2[n2 - 2] == parent && f2[n2 - 1] == last;
      assert once.fields.Keys == root.fields.Keys;
      VisitSameKeys(once, root, f2[..n2 - 1]);
      var inner := root.fields[parent].fields;
      assert once.fields[parent] == JObj(inner[last := JStr(first)]);
      assert inner[last := JStr(first)][last := JStr(second)] == inner[last := JStr(second)];
      assert once.fields[parent := JObj(inner[last := JStr(second)])] == root.fields[parent := JObj(inner[last := JStr(second)])];
    }
  }

  lemma AssignTwice(root: Json, fields: seq<string>, first: string, second: string)
    requires |fields| >= 1 && Assign(root, fields, first).Ok?
    ensures Assign(Assign(root, fields, first).value, fields, second) == Assign(root, fields, second)
  {
    var n := |fields|;
    var once := Assign(root, fields, first).value;
    if n == 1 {
      assert once.fields[fields[0] := JStr(second)] == root.fields[fields[0] := JStr(second)];
    } else {
      var prefix, parent, last := fields[..n - 1], fields[n - 2], fields[n - 1];
      VisitFails(root, prefix);
      VisitFails(once, prefix);
      assert prefix[n - 2] == parent;
      var inner := root.fields[parent].fields;
      assert once.fields[parent].fields[last := JStr(second)] == inner[last := JStr(second)];
      assert once.fields[parent := JObj(inner[last := JStr(second)])] == root.fields[parent := JObj(inner[last := JStr(second)])];
    }
  }

  lemma {:induction false} NestedTwice(node: Json, fields: seq<string>, first: string, second: string)
    requires |fields| >= 1 && AssignNested(node, fields, first).Ok?
    ensures AssignNested(AssignNested(node, fields, first).value, fields, second) == AssignNested(node, fields, second)
    decreases |fields|
  {
    var once := AssignNested(node, fields, first).value;
    if |fields| == 1 {
      assert once.fields[fields[0] := JStr(second)] == node.fields[fields[0] := JStr(second)];
    } else {
      var child := node.fields[fields[0]];
      NestedTwice(child, fields[1..], first, second);
      var again := AssignNested(node, fields, second);
      if again.Ok? {
        assert once.fields[fields[0] := again.value.fields[fields[0]]] == again.value.fields;
      }
    }
  }
}
