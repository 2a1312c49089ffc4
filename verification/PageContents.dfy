/** What a resolved page shows: the value at every place of a section, and which sections there are. */
module PageContents {
  import opened Common
  import opened Json
  import opened Refs
  import opened Resolver
  import opened Validator
  import opened PageTheorems

  // ---- What stands for a reference ----

  predicate HasType(returnType: string, v: Json) {
    && (returnType == "string" ==> v.Str?)
    && (returnType == "number" ==> v.Num?)
    && (returnType == "bool" ==> v.Bool?)
  }

  /** Hydration delivered a value under the key. */
  predicate Delivered(env: Env, key: string) {
    key in env.hydrated && env.hydrated[key] != Null && key !in env.missing
  }

  /** A value of the type that the registry declares, if it declares one. */
  predicate Usable(env: Env, key: string) {
    Delivered(env, key) && (key in env.registry ==> HasType(env.registry[key].returnType, env.hydrated[key]))
  }

  function Text(j: Json): string { if j.Str? then j.s else "" }

  function IdOf(row: Json): string { if row.Obj? && "id" in row.fields && row.fields["id"].Str? then row.fields["id"].s else "" }

  /** The last of the rows with this id. */
  ghost predicate LastWith(items: seq<Json>, id: string, r: nat) {
    r < |items| && IdOf(items[r]) == id && forall q :: r < q < |items| ==> IdOf(items[q]) != id
  }

  /** The i-th row shown is the one that the id at position `from[i]` asks for; every id that some row has is answered, in order. */
  ghost predicate SelectsBy(out: seq<Json>, ids: seq<Json>, items: seq<Json>, from: seq<nat>) {
    && |from| == |out|
    && (forall i, j :: 0 <= i < j < |from| ==> from[i] < from[j])
    && (forall i :: 0 <= i < |from| ==> from[i] < |ids| && Text(ids[from[i]]) != "" && IsRowOf(items, Text(ids[from[i]]), out[i]))
    && (forall k :: 0 <= k < |ids| && Text(ids[k]) != "" && HasRow(items, Text(ids[k])) ==> k in from)
  }

  ghost predicate IsRowOf(items: seq<Json>, id: string, row: Json) { exists r: nat :: LastWith(items, id, r) && items[r] == row }

  ghost predicate HasRow(items: seq<Json>, id: string) { exists r :: 0 <= r < |items| && IdOf(items[r]) == id }

  ghost predicate Selects(out: seq<Json>, ids: seq<Json>, items: seq<Json>) { exists from :: SelectsBy(out, ids, items, from) }

  /** The reference asks for rows by id, and the value has rows. */
  predicate Narrowed(val: Json, m: map<string, Json>) {
    "$ids" in m && m["$ids"].Arr? && m["$ids"].elems != [] && val.Arr? && forall e :: e in val.elems ==> e.Obj? || e.Null?
  }

  /** The value itself, or the rows of it that a list of ids asks for. */
  ghost predicate Shows(v: Json, val: Json, m: map<string, Json>) {
    if Narrowed(val, m) then v.Arr? && Selects(v.elems, m["$ids"].elems, val.elems)
    else v == val
  }

  /**
   What may stand for a reference. With a usable value it is that value, whatever the default; without one it is the
   default; without either it is null, and only for a mistyped value of a source that is not critical.
   */
  ghost predicate Stands(m: map<string, Json>, env: Env, v: Json) {
    && "$ref" in m && m["$ref"].Str? && m["$ref"].s != ""
    && var key := m["$ref"].s;
    && (Usable(env, key) ==> Shows(v, env.hydrated[key], m))
    && (!Usable(env, key) && "$default" in m ==> v == m["$default"])
    && (!Usable(env, key) && "$default" !in m ==> v == Null && Delivered(env, key))
    && (Delivered(env, key) && !Usable(env, key) ==> !env.registry[key].critical)
    && (!Delivered(env, key) ==> "$required" in m ==> m["$required"] != Bool(true))
  }

  lemma RowsNext(items: seq<Json>, last: Json, id: string)
    ensures HasRow(items + [last], id) <==> HasRow(items, id) || IdOf(last) == id
    ensures forall row :: IsRowOf(items + [last], id, row) <==> if IdOf(last) == id then row == last else IsRowOf(items, id, row)
  {
    var all := items + [last];
    assert all[|items|] == last;
    if r :| 0 <= r < |items| && IdOf(items[r]) == id {
      assert all[r] == items[r];
    }
    if IdOf(last) == id {
      assert LastWith(all, id, |items|);
    } else {
      forall r: nat ensures LastWith(all, id, r) <==> LastWith(items, id, r) {
        assert forall q :: 0 <= q < |items| ==> all[q] == items[q];
      }
      forall row ensures IsRowOf(all, id, row) <==> IsRowOf(items, id, row) {
      }
    }
  }

  lemma {:induction false} IndexIsLast(items: seq<Json>, id: string)
    requires forall e :: e in items ==> e.Obj? || e.Null?
    ensures id in IndexById(items) <==> id != "" && HasRow(items, id)
    ensures id in IndexById(items) ==> IsRowOf(items, id, IndexById(items)[id])
  {
    if items != [] {
      var n := |items| - 1;
      assert items[n] in items && forall e :: e in items[..n] ==> e in items;
      IndexIsLast(items[..n], id);
      RowsNext(items[..n], items[n], id);
      assert items[..n] + [items[n]] == items;
    }
  }

  /** One more id adds the row it asks for, if there is one. */
  lemma SelectsNext(out: seq<Json>, ids: seq<Json>, id: Json, items: seq<Json>, from: seq<nat>)
    requires SelectsBy(out, ids, items, from)
    ensures Text(id) == "" || !HasRow(items, Text(id)) ==> SelectsBy(out, ids + [id], items, from)
    ensures forall row :: Text(id) != "" && IsRowOf(items, Text(id), row) ==> SelectsBy(out + [row], ids + [id], items, from + [|ids|])
  {
  }

  lemma {:induction false} PickSelects(ids: seq<Json>, items: seq<Json>) returns (from: seq<nat>)
    requires forall e :: e in items ==> e.Obj? || e.Null?
    ensures SelectsBy(Pick(ids, IndexById(items)), ids, items, from)
  {
    if ids == [] {
      from := [];
    } else {
      var fore, id := ids[..|ids| - 1], ids[|ids| - 1];
      var index := IndexById(items);
      assert fore + [id] == ids;
      from := PickSelects(fore, items);
      SelectsNext(Pick(fore, index), fore, id, items, from);
      IndexIsLast(items, Text(id));
      if Text(id) in index {
        from := from + [|fore|];
      }
    }
  }

  lemma RefStands(m: map<string, Json>, env: Env)
    requires "$ref" in m && ResolveRef(m, env).Some?
    ensures Stands(m, env, ResolveRef(m, env).value)
  {
    var key := StringAt(m, "$ref");
    if Usable(env, key) && "$ids" in m && m["$ids"].Arr? && env.hydrated[key].Arr? {
      var items := env.hydrated[key].elems;
      if forall e :: e in items ==> e.Obj? || e.Null? {
        var from := PickSelects(m["$ids"].elems, items);
      }
    }
  }

  /** The rows selected are determined. */
  lemma SelectedOnce(out: seq<Json>, out': seq<Json>, ids: seq<Json>, items: seq<Json>, from: seq<nat>, from': seq<nat>)
    requires SelectsBy(out, ids, items, from) && SelectsBy(out', ids, items, from')
    ensures out == out'
  {
    forall k: int ensures k in from <==> k in from' {
    }
    SortedUnique(from, from');
    forall i | 0 <= i < |out| ensures out[i] == out'[i] {
      var r: nat :| LastWith(items, Text(ids[from[i]]), r) && items[r] == out[i];
      var q: nat :| LastWith(items, Text(ids[from[i]]), q) && items[q] == out'[i];
      assert r == q;
    }
  }

  lemma StandsOnce(m: map<string, Json>, env: Env, v: Json, w: Json)
    requires Stands(m, env, v) && Stands(m, env, w)
    ensures v == w
  {
    var key := m["$ref"].s;
    if Usable(env, key) && Narrowed(env.hydrated[key], m) {
      var from :| SelectsBy(v.elems, m["$ids"].elems, env.hydrated[key].elems, from);
      var from' :| SelectsBy(w.elems, m["$ids"].elems, env.hydrated[key].elems, from');
      SelectedOnce(v.elems, w.elems, m["$ids"].elems, env.hydrated[key].elems, from, from');
    }
  }

  /** A reference resolves to what may stand for it, and fails only if nothing may. */
  lemma RefResolvesTo(m: map<string, Json>, env: Env, v: Json)
    requires "$ref" in m
    ensures ResolveRef(m, env) == Some(v) <==> Stands(m, env, v)
  {
    if ResolveRef(m, env).Some? {
      RefStands(m, env);
    }
    if Stands(m, env, v) {
      StandsOnce(m, env, v, ResolveRef(m, env).value);
    }
  }

  // ---- Place by place ----

  predicate IsRef(j: Json) { j.Obj? && "$ref" in j.fields }

  /** How far down the path the first reference node is met, if one is. */
  function FirstRef(j: Json, path: seq<Place>): Option<nat>
    decreases |path|
  {
    if IsRef(j) then Some(0)
    else if path == [] || At(j, path[..1]).None? then None
    else
      var below := FirstRef(At(j, path[..1]).value, path[1..]);
      if below.Some? then Some(below.value + 1) else None
  }

  /** The same place: the same scalar, an object with the same keys, an array of the same length, or no place at all. */
  predicate Alike(a: Option<Json>, b: Option<Json>) {
    match (a, b)
    case (Some(x), Some(y)) =>
      if x.Obj? || y.Obj? then x.Obj? && y.Obj? && x.fields.Keys == y.fields.Keys
      else if x.Arr? || y.Arr? then x.Arr? && y.Arr? && |x.elems| == |y.elems|
      else x == y
    case (None, None) => true
    case _ => false
  }

  /** Outside reference nodes nothing changes; at one stands what may stand for it, and below it what that holds there. */
  ghost predicate PlaceIsRight(j: Json, out: Json, env: Env, path: seq<Place>) {
    match FirstRef(j, path)
    case None => Alike(At(out, path), At(j, path))
    case Some(n) =>
      && n <= |path| && At(j, path[..n]).Some? && IsRef(At(j, path[..n]).value) && At(out, path[..n]).Some?
      && Stands(At(j, path[..n]).value.fields, env, At(out, path[..n]).value)
      && At(out, path) == At(At(out, path[..n]).value, path[n..])
  }

  lemma AtStep(j: Json, path: seq<Place>)
    requires path != []
    ensures At(j, path) == if At(j, path[..1]).Some? then At(At(j, path[..1]).value, path[1..]) else None
  {
    assert path[..1][0] == path[0] && path[..1][1..] == [];
  }

  lemma PlaceBelow(j: Json, out: Json, env: Env, path: seq<Place>)
    requires path != [] && !IsRef(j) && At(j, path[..1]).Some? && At(out, path[..1]).Some?
    requires PlaceIsRight(At(j, path[..1]).value, At(out, path[..1]).value, env, path[1..])
    ensures PlaceIsRight(j, out, env, path)
  {
    AtStep(j, path);
    AtStep(out, path);
    var below := FirstRef(At(j, path[..1]).value, path[1..]);
    if below.Some? {
      var n := below.value + 1;
      assert path[..n][..1] == path[..1] && path[..n][1..] == path[1..][..n - 1] && path[n..] == path[1..][n - 1..];
      AtStep(j, path[..n]);
      AtStep(out, path[..n]);
    }
  }

  /** A walk, place by place of the tree. */
  lemma {:induction false} WalkAtPlace(j: Json, env: Env, path: seq<Place>)
    requires Walk(j, env).Some?
    ensures PlaceIsRight(j, Walk(j, env).value, env, path)
    decreases |path|
  {
    var out := Walk(j, env).value;
    if IsRef(j) {
      RefStands(j.fields, env);
      assert path[..0] == [] && path[0..] == path;
    } else if path != [] {
      AtStep(j, path);
      AtStep(out, path);
      assert path[..1][0] == path[0] && path[..1][1..] == [];
      if At(j, path[..1]).Some? {
        var below := At(j, path[..1]).value;
        assert Walk(below, env).Some? && At(out, path[..1]) == Some(Walk(below, env).value);
        WalkAtPlace(below, env, path[1..]);
        PlaceBelow(j, out, env, path);
      }
    }
  }

  // ---- Which sections are shown ----

  /**
   A literal decides for itself; a reference by the delivered value, whatever its default, or else by its default; and
   nothing but the boolean true shows a section.
   */
  ghost predicate Seen(section: map<string, Json>, env: Env) {
    "visible" in section ==>
      match section["visible"]
      case Bool(b) => b
      case Obj(m) =>
        "$ref" in m &&
        var key := Text(m["$ref"]);
        if key in env.hydrated && key !in env.missing then env.hydrated[key] == Bool(true)
        else "$default" in m && m["$default"] == Bool(true)
      case _ => false
  }

  lemma VisibleIff(section: map<string, Json>, env: Env)
    ensures ("visible" !in section || Visible(section["visible"], env)) <==> Seen(section, env)
  {
  }

  /** The section's body resolved. */
  ghost function Resolved(j: Json, env: Env): Option<Json> { Walk(Obj(FieldsOf(j) - {"visible"}), env) }

  /** Shown: the visibility says so, and the rollout of the resolved section admits the request. */
  ghost predicate IsShown(j: Json, env: Env, req: Request) {
    Seen(FieldsOf(j), env) && Resolved(j, env).Some? && Resolved(j, env).value.Obj? && PassesRollout(Resolved(j, env).value.fields, req)
  }

  /** A section of the page: the body with its places as they resolve, and a visibility that is true. */
  ghost predicate SectionIsRight(j: Json, out: Json, env: Env) {
    exists walked: map<string, Json> ::
      out == Obj(walked["visible" := Bool(true)]) && BodyIsRight(Obj(FieldsOf(j) - {"visible"}), Obj(walked), env)
  }

  ghost predicate BodyIsRight(body: Json, out: Json, env: Env) { forall path :: PlaceIsRight(body, out, env, path) }

  lemma SectionPlaces(j: Json, env: Env, req: Request)
    requires ResolveSection(j, env, req).Shown?
    ensures SectionIsRight(j, Obj(ResolveSection(j, env, req).section), env)
  {
    var body := Obj(FieldsOf(j) - {"visible"});
    var walked := Walk(body, env).value;
    forall path ensures PlaceIsRight(body, walked, env, path) {
      WalkAtPlace(body, env, path);
    }
    assert BodyIsRight(body, Obj(walked.fields), env);
  }

  lemma ShownIff(j: Json, env: Env, req: Request)
    requires !ResolveSection(j, env, req).Failed?
    ensures ResolveSection(j, env, req).Shown? <==> IsShown(j, env, req)
  {
    VisibleIff(FieldsOf(j), env);
  }

  /** Something may stand for the reference. */
  ghost predicate CanStand(r: map<string, Json>, env: Env) { exists v :: Stands(r, env, v) }

  /** A section that resolves: an object (null is an empty one) whose references all do, itself an object if it is a reference. */
  ghost predicate SectionResolves(j: Json, env: Env) {
    && (j.Obj? || j.Null?)
    && var body := FieldsOf(j) - {"visible"};
    && (forall r :: r in RefNodes(Obj(body)) ==> CanStand(r, env))
    && ("$ref" in body ==> exists v: Json :: v.Obj? && Stands(body, env, v))
  }

  lemma SectionSucceedsIff(j: Json, env: Env, req: Request)
    ensures !ResolveSection(j, env, req).Failed? <==> SectionResolves(j, env)
  {
    var body := FieldsOf(j) - {"visible"};
    WalkSucceedsIff(Obj(body), env);
    forall r | r in RefNodes(Obj(body)) ensures ResolveRef(r, env).Some? <==> CanStand(r, env) {
      forall v ensures ResolveRef(r, env) == Some(v) <==> Stands(r, env, v) {
        RefResolvesTo(r, env, v);
      }
    }
    if "$ref" in body {
      forall v ensures ResolveRef(body, env) == Some(v) <==> Stands(body, env, v) {
        RefResolvesTo(body, env, v);
      }
    }
  }

  /** Any page, validated or not, resolves exactly when each of its sections does. */
  lemma {:induction false} PageSucceedsIff(sections: seq<Json>, env: Env, req: Request)
    ensures ResolvePage(sections, env, req).Ok? <==> forall s :: s in sections ==> SectionResolves(s, env)
  {
    if sections != [] {
      var fore, last := sections[..|sections| - 1], sections[|sections| - 1];
      assert sections == fore + [last];
      PageSucceedsIff(fore, env, req);
      SectionSucceedsIff(last, env, req);
    }
  }

  ghost predicate PageIsRight(sections: seq<Json>, page: seq<Json>, env: Env, req: Request, kept: seq<nat>) {
    && |kept| == |page|
    && (forall i, j :: 0 <= i < j < |kept| ==> kept[i] < kept[j])
    && (forall k :: k in kept <==> 0 <= k < |sections| && IsShown(sections[k], env, req))
    && (forall i :: 0 <= i < |kept| ==> kept[i] < |sections| && SectionIsRight(sections[kept[i]], page[i], env))
  }

  /** One more section, shown or not. */
  lemma PageNext(sections: seq<Json>, last: Json, page: seq<Json>, out: seq<Json>, env: Env, req: Request, kept: seq<nat>)
    requires PageIsRight(sections, page, env, req, kept)
    requires if IsShown(last, env, req) then |out| == 1 && SectionIsRight(last, out[0], env) else out == []
    ensures PageIsRight(sections + [last], page + out, env, req, kept + if IsShown(last, env, req) then [|sections|] else [])
  {
    var all, now := sections + [last], kept + if IsShown(last, env, req) then [|sections|] else [];
    forall k ensures k in now <==> 0 <= k < |all| && IsShown(all[k], env, req) {
      if 0 <= k < |sections| {
        assert all[k] == sections[k] && (k in kept <==> IsShown(sections[k], env, req));
      }
    }
    forall i | 0 <= i < |kept| ensures kept[i] < |sections| && all[kept[i]] == sections[kept[i]] {
      assert kept[i] in kept;
    }
  }

  /** The page is the sections that are shown, in their order, each with its places as they resolve. */
  lemma {:induction false} PageContents(sections: seq<Json>, env: Env, req: Request) returns (kept: seq<nat>)
    requires ResolvePage(sections, env, req).Ok?
    ensures PageIsRight(sections, ResolvePage(sections, env, req).value, env, req, kept)
  {
    if sections == [] {
      kept := [];
    } else {
      var fore, last := sections[..|sections| - 1], sections[|sections| - 1];
      assert fore + [last] == sections;
      kept := PageContents(fore, env, req);
      var page := ResolvePage(fore, env, req).value;
      ShownIff(last, env, req);
      var outcome := ResolveSection(last, env, req);
      if outcome.Shown? {
        SectionPlaces(last, env, req);
        PageNext(fore, last, page, [Obj(outcome.section)], env, req, kept);
        kept := kept + [|fore|];
      } else {
        PageNext(fore, last, page, [], env, req, kept);
        assert page + [] == page && kept + [] == kept;
      }
    }
  }
}
