/** Expansion of `$include` directives: nested loads with a depth limit and one shared visited set. */
module Includes {
  import opened Common
  import opened Json

  const MAX_DEPTH := 5
  const MAX_COUNT := 5

  /** None is a loader error. */
  type Loader = string -> Option<Json>

  datatype IncludeError =
    | BadJson
    | MissingKey
    | TooMany
    | DepthExceeded(key: string)
    | LoadFailed(key: string)
    | Cycle(key: string)
    | NullItem

  /** Go decodes null into a nil map: an object without fields that cannot take an id. */
  predicate IsObject(j: Json) { j.Obj? || j.Null? }

  predicate IsDirective(j: Json) { j.Obj? && "$include" in j.fields }

  function KeyOf(j: Json): string
    requires IsDirective(j)
  {
    if j.fields["$include"].Str? then j.fields["$include"].s else ""
  }

  function Prefixed(j: Json, key: string): Json
    requires j.Obj?
  {
    var id := StringAt(j.fields, "id");
    Obj(j.fields["id" := Str(key + ":" + if id == "" then "anon" else id)])
  }

  /** A payload is an array of sections (null is an empty one) or a single section. */
  function Items(payload: Json): Option<seq<Json>> {
    match payload
    case Arr(xs) => Some(xs)
    case Null => Some([])
    case Obj(_) => Some([payload])
    case _ => None
  }

  // ---- The include tree, without any visited set ----

  /** The in-order flattening of the tree below a key, at most `depth` loads deep; None if some load or item is bad. */
  function Flatten(loader: Loader, key: string, depth: nat): Option<seq<Json>>
    decreases depth, 1, 0
  {
    if depth == 0 || loader(key).None? || Items(loader(key).value).None? then None
    else FlattenItems(loader, key, Items(loader(key).value).value, depth)
  }

  function FlattenItems(loader: Loader, key: string, items: seq<Json>, depth: nat): Option<seq<Json>>
    requires depth > 0
    decreases depth, 0, |items|
  {
    if items == [] then Some([])
    else
      var n := |items| - 1;
      var before := FlattenItems(loader, key, items[..n], depth);
      var last := FlattenItem(loader, key, items[n], depth);
      if before.Some? && last.Some? then Some(before.value + last.value) else None
  }

  function FlattenItem(loader: Loader, key: string, item: Json, depth: nat): Option<seq<Json>>
    requires depth > 0
    decreases depth - 1, 2, 0
  {
    if IsDirective(item) then Flatten(loader, KeyOf(item), depth - 1)
    else if item.Obj? then Some([Prefixed(item, key)])
    else None
  }

  /** The keys loaded by that tree, in order, the root first. */
  function Loads(loader: Loader, key: string, depth: nat): seq<string>
    decreases depth, 1, 0
  {
    [key] +
    if depth == 0 || loader(key).None? || Items(loader(key).value).None? then []
    else LoadsOfItems(loader, Items(loader(key).value).value, depth)
  }

  function LoadsOfItems(loader: Loader, items: seq<Json>, depth: nat): seq<string>
    requires depth > 0
    decreases depth, 0, |items|
  {
    if items == [] then []
    else LoadsOfItems(loader, items[..|items| - 1], depth) + LoadsOfItem(loader, items[|items| - 1], depth)
  }

  function LoadsOfItem(loader: Loader, item: Json, depth: nat): seq<string>
    requires depth > 0
    decreases depth - 1, 2, 0
  {
    if IsDirective(item) then Loads(loader, KeyOf(item), depth - 1) else []
  }

  predicate Distinct(keys: seq<string>) {
    forall i, j :: 0 <= i < j < |keys| ==> keys[i] != keys[j]
  }

  predicate Disjoint(keys: seq<string>, seen: set<string>) {
    forall k :: k in keys ==> k !in seen
  }

  /** `keys` can be visited one after another, starting from `seen`, without meeting one twice. */
  ghost predicate Fresh(keys: seq<string>, seen: set<string>) { Distinct(keys) && Disjoint(keys, seen) }

  lemma FreshPlus(a: seq<string>, b: seq<string>, seen: set<string>)
    ensures Fresh(a + b, seen) <==> Fresh(a, seen) && Fresh(b, seen + SetOf(a))
  {
    if Fresh(a + b, seen) {
      forall i, j | 0 <= i < j < |a| ensures a[i] != a[j] {
        assert (a + b)[i] != (a + b)[j];
      }
      forall i, j | 0 <= i < j < |b| ensures b[i] != b[j] {
        assert (a + b)[|a| + i] != (a + b)[|a| + j];
      }
      forall k | k in b ensures k !in seen + SetOf(a) {
        assert k in a + b;
        var j :| 0 <= j < |b| && b[j] == k;
        forall i | 0 <= i < |a| ensures a[i] != k {
          assert (a + b)[i] != (a + b)[|a| + j];
        }
      }
      assert forall k :: k in a ==> k in a + b;
    }
    if Fresh(a, seen) && Fresh(b, seen + SetOf(a)) {
      forall i, j | 0 <= i < j < |a + b| ensures (a + b)[i] != (a + b)[j] {
        if i < |a| <= j {
          assert b[j - |a|] in b && a[i] in SetOf(a);
        }
      }
    }
  }

  /** The key itself is loaded first, and the rest is fresh once it is visited. */
  lemma FirstLoad(loader: Loader, key: string, depth: nat, seen: set<string>)
    ensures var loads := Loads(loader, key, depth);
      && loads != []
      && (Fresh(loads, seen) <==> key !in seen && Fresh(loads[1..], seen + {key}))
      && SetOf(loads) == {key} + SetOf(loads[1..])
  {
    var loads := Loads(loader, key, depth);
    assert loads == [key] + loads[1..];
    assert key in [key] && SetOf([key]) == {key};
    FreshPlus([key], loads[1..], seen);
  }

  // ---- The expander ----

  class Expander {
    const loader: Loader
    var visited: set<string>

    constructor (loader: Loader)
      ensures this.loader == loader && visited == {}
    {
      this.loader := loader;
      visited := {};
    }

    /**
     Loads one key at the given depth. It succeeds exactly when the tree below the key flattens within
     the depth limit and, the key itself apart, loads no key twice or already visited; the result is then
     the flattening, and the visited set has grown by the keys loaded.
     */
    method LoadInclude(key: string, depth: nat) returns (r: Result<seq<Json>, IncludeError>)
      requires 1 <= depth <= MAX_DEPTH + 1
      requires key in visited
      modifies this
      ensures var tree := Flatten(loader, key, MAX_DEPTH + 1 - depth);
        var loads := Loads(loader, key, MAX_DEPTH + 1 - depth)[1..];
        && (r.Ok? <==> tree.Some? && Fresh(loads, old(visited)))
        && (r.Ok? ==> r.value == tree.value && visited == old(visited) + SetOf(loads))
      decreases MAX_DEPTH + 1 - depth, 0
    {
      if depth > MAX_DEPTH {
        return Err(DepthExceeded(key));
      }
      var payload := loader(key);
      if payload.None? {
        return Err(LoadFailed(key));
      }
      var items := Items(payload.value);
      if items.None? {
        return Err(BadJson);
      }
      ghost var left := MAX_DEPTH + 1 - depth;
      assert Loads(loader, key, left)[1..] == LoadsOfItems(loader, items.value, left);
      r := LoadItems(key, depth, items.value, left);
    }

    /** The items of a loaded payload, in order. */
    method LoadItems(key: string, depth: nat, items: seq<Json>, ghost left: nat) returns (r: Result<seq<Json>, IncludeError>)
      requires 1 <= depth <= MAX_DEPTH && left == MAX_DEPTH + 1 - depth
      modifies this
      ensures var tree := FlattenItems(loader, key, items, left);
        var loads := LoadsOfItems(loader, items, left);
        && (r.Ok? <==> tree.Some? && Fresh(loads, old(visited)))
        && (r.Ok? ==> r.value == tree.value && visited == old(visited) + SetOf(loads))
      decreases MAX_DEPTH - depth, 2
    {
      ghost var before := visited;
      var out: seq<Json> := [];
      for i := 0 to |items|
        invariant SoFar(loader, key, items, i, left, before, visited, out)
      {
        ghost var mid := visited;
        var piece := ExpandItem(key, depth, items[i]);
        if piece.Err? {
          ItemFails(loader, key, items, i, left, before, mid, out);
          return piece;
        }
        ItemJoins(loader, key, items, i, left, before, mid, out, piece.value, visited);
        out := out + piece.value;
      }
      assert items[..|items|] == items;
      return Ok(out);
    }

    /** One item of a payload: a nested directive, checked against the visited set, or a section to rename. */
    method ExpandItem(key: string, depth: nat, item: Json) returns (r: Result<seq<Json>, IncludeError>)
      requires 1 <= depth <= MAX_DEPTH
      modifies this
      ensures var tree := FlattenItem(loader, key, item, MAX_DEPTH + 1 - depth);
        var loads := LoadsOfItem(loader, item, MAX_DEPTH + 1 - depth);
        && (r.Ok? <==> tree.Some? && Fresh(loads, old(visited)))
        && (r.Ok? ==> r.value == tree.value && visited == old(visited) + SetOf(loads))
      decreases MAX_DEPTH - depth, 1
    {
      if !IsObject(item) {
        return Err(BadJson);
      }
      if IsDirective(item) {
        var nestedKey := KeyOf(item);
        FirstLoad(loader, nestedKey, MAX_DEPTH - depth, visited);
        assert LoadsOfItem(loader, item, MAX_DEPTH + 1 - depth) == Loads(loader, nestedKey, MAX_DEPTH - depth);
        if nestedKey in visited {
          return Err(Cycle(nestedKey));
        }
        visited := visited + {nestedKey};
        r := LoadInclude(nestedKey, depth + 1);
        return;
      }
      if item.Null? {
        return Err(NullItem);
      }
      return Ok([Prefixed(item, key)]);
    }

    /** The resolver's loop over the top-level sections, a new visited set for each directive. */
    method ExpandIncludes(sections: seq<Json>) returns (r: Result<seq<Json>, IncludeError>)
      modifies this
      ensures r.Ok? <==> Expandable(loader, sections)
      ensures r.Ok? ==> r.value == Expansion(loader, sections)
    {
      var out: seq<Json> := [];
      var count := 0;
      for i := 0 to |sections|
        invariant count == Directives(sections[..i]) <= MAX_COUNT
        invariant forall k :: 0 <= k < i ==> TopOk(loader, sections[k])
        invariant out == Expansion(loader, sections[..i])
      {
        assert sections[..i + 1][..i] == sections[..i];
        DirectivesGrow(sections, i + 1);
        var section := sections[i];
        if !IsObject(section) {
          return Err(BadJson);
        }
        if !IsDirective(section) {
          out := out + [section];
        } else {
          var key := KeyOf(section);
          if key == "" {
            return Err(MissingKey);
          }
          count := count + 1;
          if count > MAX_COUNT {
            return Err(TooMany);
          }
          visited := {key};
          var expanded := LoadInclude(key, 1);
          var loads := Loads(loader, key, MAX_DEPTH);
          FreshPlus([key], loads[1..], {});
          assert loads == [key] + loads[1..] && SetOf([key]) == {key};
          if expanded.Err? {
            return expanded;
          }
          out := out + expanded.value;
        }
      }
      assert sections[..|sections|] == sections;
      return Ok(out);
    }
  }

  /** Midway through a payload: its first `i` items are flattened into `out`, and their loads are visited. */
  ghost predicate SoFar(loader: Loader, key: string, items: seq<Json>, i: nat, left: nat,
                        before: set<string>, visited: set<string>, out: seq<Json>)
    requires left > 0 && i <= |items|
  {
    && FlattenItems(loader, key, items[..i], left) == Some(out)
    && Fresh(LoadsOfItems(loader, items[..i], left), before)
    && visited == before + SetOf(LoadsOfItems(loader, items[..i], left))
  }

  lemma ItemJoins(loader: Loader, key: string, items: seq<Json>, i: nat, left: nat, before: set<string>, mid: set<string>, out: seq<Json>,
                  piece: seq<Json>, after: set<string>)
    requires left > 0 && i < |items| && SoFar(loader, key, items, i, left, before, mid, out)
    requires FlattenItem(loader, key, items[i], left) == Some(piece) && Fresh(LoadsOfItem(loader, items[i], left), mid)
    requires after == mid + SetOf(LoadsOfItem(loader, items[i], left))
    ensures SoFar(loader, key, items, i + 1, left, before, after, out + piece)
  {
    assert items[..i + 1][..i] == items[..i];
    FreshPlus(LoadsOfItems(loader, items[..i], left), LoadsOfItem(loader, items[i], left), before);
    var loads := LoadsOfItems(loader, items[..i], left);
    assert SetOf(loads + LoadsOfItem(loader, items[i], left)) == SetOf(loads) + SetOf(LoadsOfItem(loader, items[i], left));
  }

  lemma ItemFails(loader: Loader, key: string, items: seq<Json>, i: nat, left: nat, before: set<string>, mid: set<string>, out: seq<Json>)
    requires left > 0 && i < |items| && SoFar(loader, key, items, i, left, before, mid, out)
    requires FlattenItem(loader, key, items[i], left).None? || !Fresh(LoadsOfItem(loader, items[i], left), mid)
    ensures FlattenItems(loader, key, items, left).None? || !Fresh(LoadsOfItems(loader, items, left), before)
  {
    assert items[..i + 1][..i] == items[..i];
    FreshPlus(LoadsOfItems(loader, items[..i], left), LoadsOfItem(loader, items[i], left), before);
    FailureSticks(loader, key, items, i + 1, left, before);
  }

  lemma {:induction false} FailureSticks(loader: Loader, key: string, items: seq<Json>, n: nat, depth: nat, seen: set<string>)
    requires depth > 0 && n <= |items|
    requires FlattenItems(loader, key, items[..n], depth).None? || !Fresh(LoadsOfItems(loader, items[..n], depth), seen)
    ensures FlattenItems(loader, key, items, depth).None? || !Fresh(LoadsOfItems(loader, items, depth), seen)
    decreases |items|
  {
    if n == |items| {
      assert items[..n] == items;
    } else {
      var last := |items| - 1;
      assert items[..last][..n] == items[..n];
      FailureSticks(loader, key, items[..last], n, depth, seen);
      FreshPlus(LoadsOfItems(loader, items[..last], depth), LoadsOfItem(loader, items[last], depth), seen);
    }
  }

  // ---- Whole section lists ----

  /** A top-level section that expands: a plain one, or a directive whose tree loads no key twice. */
  ghost predicate TopOk(loader: Loader, section: Json) {
    && IsObject(section)
    && (IsDirective(section) ==>
         && KeyOf(section) != ""
         && Flatten(loader, KeyOf(section), MAX_DEPTH).Some?
         && Distinct(Loads(loader, KeyOf(section), MAX_DEPTH)))
  }

  function Directives(sections: seq<Json>): nat {
    if sections == [] then 0
    else Directives(sections[..|sections| - 1]) + if IsDirective(sections[|sections| - 1]) then 1 else 0
  }

  lemma {:induction false} DirectivesGrow(sections: seq<Json>, n: nat)
    requires n <= |sections|
    ensures Directives(sections[..n]) <= Directives(sections)
    decreases |sections|
  {
    if n == |sections| {
      assert sections[..n] == sections;
    } else {
      assert sections[..|sections| - 1][..n] == sections[..n];
      DirectivesGrow(sections[..|sections| - 1], n);
    }
  }

  ghost predicate Expandable(loader: Loader, sections: seq<Json>) {
    Directives(sections) <= MAX_COUNT && forall i :: 0 <= i < |sections| ==> TopOk(loader, sections[i])
  }

  ghost function Expansion(loader: Loader, sections: seq<Json>): seq<Json> {
    if sections == [] then []
    else
      var last := sections[|sections| - 1];
      Expansion(loader, sections[..|sections| - 1]) +
      if !IsDirective(last) then [last]
      else
        var tree := Flatten(loader, KeyOf(last), MAX_DEPTH);
        if tree.Some? then tree.value else []
  }

  // ---- What an expansion contains ----

  /** A section that came in through `key`: no directive any more, and its id carries the key. */
  ghost predicate CameThrough(section: Json, keys: seq<string>) {
    section.Obj? && !IsDirective(section) && exists k :: k in keys && k + ":" <= StringAt(section.fields, "id")
  }

  ghost predicate AllCameThrough(sections: seq<Json>, keys: seq<string>) {
    forall i :: 0 <= i < |sections| ==> CameThrough(sections[i], keys)
  }

  /** Everything an include brings in is include-free and named after the key that loaded it. */
  lemma {:induction false} FlattenIsIncludeFree(loader: Loader, key: string, depth: nat)
    requires Flatten(loader, key, depth).Some?
    ensures AllCameThrough(Flatten(loader, key, depth).value, Loads(loader, key, depth))
    decreases depth, 1, 0
  {
    var items := Items(loader(key).value).value;
    FlattenItemsIncludeFree(loader, key, items, depth);
  }

  lemma {:induction false} FlattenItemsIncludeFree(loader: Loader, key: string, items: seq<Json>, depth: nat)
    requires depth > 0 && FlattenItems(loader, key, items, depth).Some?
    ensures AllCameThrough(FlattenItems(loader, key, items, depth).value, [key] + LoadsOfItems(loader, items, depth))
    decreases depth, 0, |items|
  {
    if items != [] {
      var n := |items| - 1;
      var all := [key] + LoadsOfItems(loader, items, depth);
      FlattenItemsIncludeFree(loader, key, items[..n], depth);
      var last := items[n];
      if IsDirective(last) {
        FlattenIsIncludeFree(loader, KeyOf(last), depth - 1);
        assert LoadsOfItem(loader, last, depth) == Loads(loader, KeyOf(last), depth - 1);
        assert LoadsOfItems(loader, items, depth) == LoadsOfItems(loader, items[..n], depth) + LoadsOfItem(loader, last, depth);
      } else {
        assert key in all && key + ":" <= StringAt(Prefixed(last, key).fields, "id");
        assert CameThrough(Prefixed(last, key), all);
      }
    }
  }

  /** After expansion no top-level directive is left. */
  lemma {:induction false} ExpansionIsIncludeFree(loader: Loader, sections: seq<Json>)
    ensures forall i :: 0 <= i < |Expansion(loader, sections)| ==> !IsDirective(Expansion(loader, sections)[i])
  {
    if sections != [] {
      var last := sections[|sections| - 1];
      ExpansionIsIncludeFree(loader, sections[..|sections| - 1]);
      if IsDirective(last) && Flatten(loader, KeyOf(last), MAX_DEPTH).Some? {
        FlattenIsIncludeFree(loader, KeyOf(last), MAX_DEPTH);
        var tree := Flatten(loader, KeyOf(last), MAX_DEPTH).value;
        assert forall i :: 0 <= i < |tree| ==> CameThrough(tree[i], Loads(loader, KeyOf(last), MAX_DEPTH));
      }
    }
  }

  // ---- Cycles ----

  /** Some directive in the payload of `from` names `to`. */
  ghost predicate LeadsTo(loader: Loader, from: string, to: string) {
    loader(from).Some? && Items(loader(from).value).Some? &&
    var items := Items(loader(from).value).value;
    exists i :: 0 <= i < |items| && IsDirective(items[i]) && KeyOf(items[i]) == to
  }

  ghost predicate Path(loader: Loader, path: seq<string>) {
    path != [] && forall i :: 0 <= i < |path| - 1 ==> LeadsTo(loader, path[i], path[i + 1])
  }

  lemma FlattenStep(loader: Loader, from: string, to: string, depth: nat)
    requires LeadsTo(loader, from, to) && Flatten(loader, from, depth).Some?
    ensures depth > 0 && Flatten(loader, to, depth - 1).Some?
  {
    var items := Items(loader(from).value).value;
    var i :| 0 <= i < |items| && IsDirective(items[i]) && KeyOf(items[i]) == to;
    if Flatten(loader, to, depth - 1).None? {
      BadItemFails(loader, from, items, i, depth);
    }
  }

  /** What flattens within a depth leads, along any path, only to what flattens within the depth that is left. */
  lemma {:induction false} FlattenAlong(loader: Loader, path: seq<string>, depth: nat)
    requires Path(loader, path) && Flatten(loader, path[0], depth).Some?
    ensures |path| <= depth && Flatten(loader, path[|path| - 1], depth - (|path| - 1)).Some?
    decreases |path|
  {
    if |path| > 1 {
      assert LeadsTo(loader, path[0], path[1]);
      FlattenStep(loader, path[0], path[1], depth);
      assert forall i :: 0 <= i < |path[1..]| - 1 ==> LeadsTo(loader, path[1..][i], path[1..][i + 1]) by {
        forall i | 0 <= i < |path[1..]| - 1 ensures LeadsTo(loader, path[1..][i], path[1..][i + 1]) {
          assert LeadsTo(loader, path[i + 1], path[i + 2]);
        }
      }
      FlattenAlong(loader, path[1..], depth - 1);
    }
  }

  lemma {:induction false} CycleNeverFlattens(loader: Loader, cycle: seq<string>, depth: nat)
    requires Path(loader, cycle) && |cycle| > 1 && cycle[|cycle| - 1] == cycle[0]
    ensures Flatten(loader, cycle[0], depth).None?
    decreases depth
  {
    if Flatten(loader, cycle[0], depth).Some? {
      FlattenAlong(loader, cycle, depth);
      CycleNeverFlattens(loader, cycle, depth - (|cycle| - 1));
    }
  }

  /** Whatever leads into a cycle of includes, of any length, is refused at any depth. */
  lemma CyclicIncludesNeverFlatten(loader: Loader, way: seq<string>, cycle: seq<string>, depth: nat)
    requires Path(loader, way) && Path(loader, cycle) && |cycle| > 1
    requires way[|way| - 1] == cycle[0] == cycle[|cycle| - 1]
    ensures Flatten(loader, way[0], depth).None?
  {
    if Flatten(loader, way[0], depth).Some? {
      FlattenAlong(loader, way, depth);
      CycleNeverFlattens(loader, cycle, depth - (|way| - 1));
    }
  }

  lemma {:induction false} BadItemFails(loader: Loader, key: string, items: seq<Json>, i: nat, depth: nat)
    requires depth > 0 && i < |items| && FlattenItem(loader, key, items[i], depth).None?
    ensures FlattenItems(loader, key, items, depth).None?
    decreases |items|
  {
    if i < |items| - 1 {
      BadItemFails(loader, key, items[..|items| - 1], i, depth);
    }
  }
}
