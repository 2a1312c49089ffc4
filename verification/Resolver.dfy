/** The page resolver: references, visibility, rollout, sections, pages. */
module Resolver {
  import opened Common
  import opened Json
  import opened Refs
  import Versions

  // ---- Reference resolution ----

  predicate TypeMatches(env: Env, key: string, val: Json) {
    key in env.registry ==>
      match env.registry[key].returnType
      case "string" => val.Str?
      case "number" => val.Num?
      case "bool" => val.Bool?
      case _ => true
  }

  predicate Hit(env: Env, key: string) {
    key in env.hydrated && env.hydrated[key] != Null && key !in env.missing
  }

  /** A JSON array of objects, as an in-process value round-trips to one; null elements read as empty objects. */
  predicate IsRows(val: Json) {
    val.Arr? && forall i :: 0 <= i < |val.elems| ==> val.elems[i].Obj? || val.elems[i].Null?
  }

  function FieldsOf(j: Json): map<string, Json> { if j.Obj? then j.fields else map[] }

  /** The items by their non-empty id; a later item replaces an earlier one. */
  function IndexById(items: seq<Json>): map<string, Json> {
    if items == [] then map[]
    else
      var last := items[|items| - 1];
      var index := IndexById(items[..|items| - 1]);
      if StringAt(FieldsOf(last), "id") != "" then index[StringAt(FieldsOf(last), "id") := Obj(FieldsOf(last))] else index
  }

  function StringOf(j: Json): string { if j.Str? then j.s else "" }

  function Pick(ids: seq<Json>, index: map<string, Json>): seq<Json> {
    if ids == [] then []
    else
      var id := StringOf(ids[|ids| - 1]);
      Pick(ids[..|ids| - 1], index) + if id in index then [index[id]] else []
  }

  function FilterByIds(val: Json, ids: Json): Json {
    if !ids.Arr? || ids.elems == [] || !IsRows(val) then val
    else Arr(Pick(ids.elems, IndexById(val.elems)))
  }

  method FilterByIDs(val: Json, ids: Json) returns (r: Json)
    ensures r == FilterByIds(val, ids)
  {
    if !ids.Arr? || ids.elems == [] || !IsRows(val) {
      return val;
    }
    var items := val.elems;
    var byID: map<string, Json> := map[];
    for i := 0 to |items|
      invariant byID == IndexById(items[..i])
    {
      var id := StringAt(FieldsOf(items[i]), "id");
      assert items[..i + 1][..i] == items[..i];
      if id != "" {
        byID := byID[id := Obj(FieldsOf(items[i]))];
      }
    }
    var out: seq<Json> := [];
    for i := 0 to |ids.elems|
      invariant out == Pick(ids.elems[..i], byID)
    {
      var id := StringOf(ids.elems[i]);
      assert ids.elems[..i + 1][..i] == ids.elems[..i];
      if id in byID {
        out := out + [byID[id]];
      }
    }
    assert items[..|items|] == items && ids.elems[..|ids.elems|] == ids.elems;
    return Arr(out);
  }

  /** Each kept element is a row of the source carrying the id that asked for it, in the order of the ids. */
  lemma {:induction false} PickIsOrdered(ids: seq<Json>, items: seq<Json>) returns (from: seq<nat>)
    requires IsRows(Arr(items))
    ensures var out := Pick(ids, IndexById(items));
      && |from| == |out|
      && (forall i :: 0 <= i < |from| ==> from[i] < |ids| && out[i] in items)
      && (forall i :: 0 <= i < |from| ==> StringAt(FieldsOf(out[i]), "id") == StringOf(ids[from[i]]) != "")
      && (forall i, j :: 0 <= i < j < |from| ==> from[i] < from[j])
      && (forall k :: 0 <= k < |ids| && (exists x :: x in items && StringAt(FieldsOf(x), "id") == StringOf(ids[k]) != "") ==> k in from)
  {
    if ids == [] {
      from := [];
    } else {
      var n := |ids| - 1;
      from := PickIsOrdered(ids[..n], items);
      IndexMember(items, StringOf(ids[n]));
      if StringOf(ids[n]) in IndexById(items) {
        from := from + [n];
      }
    }
  }

  lemma {:induction false} IndexMember(items: seq<Json>, id: string)
    requires IsRows(Arr(items))
    ensures id in IndexById(items) <==> id != "" && exists x :: x in items && StringAt(FieldsOf(x), "id") == id
    ensures id in IndexById(items) ==> IndexById(items)[id] in items && StringAt(FieldsOf(IndexById(items)[id]), "id") == id
  {
    if items != [] {
      var n := |items| - 1;
      IndexMember(items[..n], id);
      assert items == items[..n] + [items[n]];
      assert items[n] in items;
      if StringAt(FieldsOf(items[n]), "id") != "" {
        assert items[n] == Obj(FieldsOf(items[n]));
      }
    }
  }

  /** One `$ref` node: its value, or None when the page must fail. */
  function ResolveRef(m: map<string, Json>, env: Env): Option<Json>
    requires "$ref" in m
  {
    var key := StringAt(m, "$ref");
    if key == "" then None
    else if Hit(env, key) then
      var val := env.hydrated[key];
      if !TypeMatches(env, key, val) then
        if key in env.registry && env.registry[key].critical then None
        else if "$default" in m then Some(m["$default"])
        else Some(Null)
      else if "$ids" in m then Some(FilterByIds(val, m["$ids"]))
      else Some(val)
    else if TrueAt(m, "$required") then None
    else if "$default" in m then Some(m["$default"])
    else None
  }

  /** The whole tree with every `$ref` node replaced; None as soon as one of them fails. */
  function Walk(j: Json, env: Env): Option<Json> {
    match j
    case Obj(m) =>
      if "$ref" in m then ResolveRef(m, env)
      else if forall k :: k in m ==> Walk(m[k], env).Some? then Some(Obj(map k | k in m :: Walk(m[k], env).value))
      else None
    case Arr(xs) =>
      if forall i :: 0 <= i < |xs| ==> Walk(xs[i], env).Some?
      then Some(Arr(seq(|xs|, i requires 0 <= i < |xs| && Walk(xs[i], env).Some? => Walk(xs[i], env).value)))
      else None
    case _ => Some(j)
  }

  predicate Visible(node: Json, env: Env) {
    match node
    case Bool(b) => b
    case Obj(m) =>
      "$ref" in m &&
      var key := StringAt(m, "$ref");
      if key in env.missing || key !in env.hydrated then TrueAt(m, "$default") else env.hydrated[key] == Bool(true)
    case _ => false
  }

  // ---- Rollout ----

  /** 32-bit FNV-1a, reduced to a bucket of a hundred. */
  function Fnv(key: string): bv32 {
    if key == "" then 2166136261
    else (Fnv(key[..|key| - 1]) ^ ((key[|key| - 1] as int % 256) as bv32)) * 16777619
  }

  function Bucket(key: string): (b: nat)
    ensures b < 100
  {
    Fnv(key) as nat % 100
  }

  predicate PassesVersion(rollout: map<string, Json>, req: Request) {
    StringAt(rollout, "min_client_version") != "" ==>
      Versions.SemverGTE(req.appVersion, StringAt(rollout, "min_client_version"))
  }

  predicate PassesShare(rollout: map<string, Json>, bucket: nat) {
    "percentage" in rollout && rollout["percentage"].Num? && 0.0 <= rollout["percentage"].n < 100.0 ==>
      bucket < rollout["percentage"].n.Floor
  }

  predicate PassesRollout(section: map<string, Json>, req: Request) {
    "rollout" in section && section["rollout"].Obj? ==>
      var rollout := section["rollout"].fields;
      PassesVersion(rollout, req) && PassesShare(rollout, Bucket(req.userId + ":" + StringAt(section, "id")))
  }

  // ---- Sections and pages ----

  datatype SectionError = BadSection | RefFailed | NotASection

  /** Failed, dropped (hidden or rolled out to others), or shown. */
  datatype Outcome = Failed(error: SectionError) | Dropped | Shown(section: map<string, Json>)

  /** Sections are JSON objects; null decodes to an empty one. */
  predicate IsSection(j: Json) { j.Obj? || j.Null? }

  function ResolveSection(j: Json, env: Env, req: Request): Outcome {
    if !IsSection(j) then Failed(BadSection)
    else
      var section := FieldsOf(j);
      match Walk(Obj(section - {"visible"}), env)
      case None => Failed(RefFailed)
      case Some(walked) =>
        if !walked.Obj? then Failed(NotASection)
        else if "visible" in section && !Visible(section["visible"], env) then Dropped
        else if !PassesRollout(walked.fields, req) then Dropped
        else Shown(walked.fields["visible" := Bool(true)])
  }

  function ResolvePage(sections: seq<Json>, env: Env, req: Request): Result<seq<Json>, SectionError> {
    if sections == [] then Ok([])
    else
      var n := |sections| - 1;
      match ResolvePage(sections[..n], env, req)
      case Err(e) => Err(e)
      case Ok(page) =>
        match ResolveSection(sections[n], env, req)
        case Failed(e) => Err(e)
        case Dropped => Ok(page)
        case Shown(section) => Ok(page + [Obj(section)])
  }

  /** The resolver's loop over the (already include-free) section list. */
  method Resolve(sections: seq<Json>, env: Env, req: Request) returns (r: Result<seq<Json>, SectionError>)
    ensures r == ResolvePage(sections, env, req)
  {
    var resolved: seq<Json> := [];
    for i := 0 to |sections|
      invariant ResolvePage(sections[..i], env, req) == Ok(resolved)
    {
      assert sections[..i + 1][..i] == sections[..i];
      var outcome := ResolveSection(sections[i], env, req);
      match outcome
      case Failed(e) =>
        FailureSticks(sections, i + 1, env, req);
        return Err(e);
      case Dropped =>
      case Shown(section) =>
        resolved := resolved + [Obj(section)];
    }
    assert sections[..|sections|] == sections;
    return Ok(resolved);
  }

  lemma {:induction false} FailureSticks(sections: seq<Json>, n: nat, env: Env, req: Request)
    requires n <= |sections| && ResolvePage(sections[..n], env, req).Err?
    ensures ResolvePage(sections, env, req) == ResolvePage(sections[..n], env, req)
    decreases |sections|
  {
    var last := |sections| - 1;
    if n == |sections| {
      assert sections[..n] == sections;
    } else {
      assert sections[..last][..n] == sections[..n];
      FailureSticks(sections[..last], n, env, req);
    }
  }
}
