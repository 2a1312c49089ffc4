/** The resolver and its two partners: what extraction fetches and the validator admits is what resolution needs. */
module PageTheorems {
  import opened Common
  import opened Json
  import opened Refs
  import opened Resolver
  import opened Validator
  import Versions

  // ---- The partners meet: extraction, lint and resolution agree ----

  /** The `$ref` nodes of a tree. */
  ghost function RefNodes(j: Json): set<map<string, Json>> {
    match j
    case Obj(m) => if "$ref" in m then {m} else set k, r | k in m && r in RefNodes(m[k]) :: r
    case Arr(xs) => set i, r | 0 <= i < |xs| && r in RefNodes(xs[i]) :: r
    case _ => {}
  }

  /** A walk succeeds exactly when each of its `$ref` nodes does; nothing else can fail it. */
  lemma {:induction false} WalkSucceedsIff(j: Json, env: Env)
    ensures forall r :: r in RefNodes(j) ==> "$ref" in r
    ensures Walk(j, env).Some? <==> forall r :: r in RefNodes(j) ==> "$ref" in r && ResolveRef(r, env).Some?
    ensures j.Obj? && "$ref" !in j.fields && Walk(j, env).Some? ==>
      Walk(j, env).value.Obj? && Walk(j, env).value.fields.Keys == j.fields.Keys
  {
    match j
    case Obj(m) =>
      if "$ref" !in m {
        forall k | k in m
          ensures forall r :: r in RefNodes(m[k]) ==> r in RefNodes(j) && "$ref" in r
          ensures Walk(m[k], env).Some? <==> forall r :: r in RefNodes(m[k]) ==> "$ref" in r && ResolveRef(r, env).Some?
        {
          WalkSucceedsIff(m[k], env);
        }
      }
    case Arr(xs) =>
      forall i | 0 <= i < |xs|
        ensures forall r :: r in RefNodes(xs[i]) ==> r in RefNodes(j) && "$ref" in r
        ensures Walk(xs[i], env).Some? <==> forall r :: r in RefNodes(xs[i]) ==> "$ref" in r && ResolveRef(r, env).Some?
      {
        WalkSucceedsIff(xs[i], env);
      }
    case _ =>
  }

  /** A tree without `$ref` nodes resolves to itself. */
  lemma {:induction false} WalkIsIdentity(j: Json, env: Env)
    requires RefNodes(j) == {}
    ensures Walk(j, env) == Some(j)
  {
    match j
    case Obj(m) =>
      assert "$ref" in m ==> m in RefNodes(j);
      forall k | k in m ensures Walk(m[k], env) == Some(m[k]) {
        assert forall r :: r in RefNodes(m[k]) ==> r in RefNodes(j);
        WalkIsIdentity(m[k], env);
      }
      assert Walk(j, env).value.fields == m;
    case Arr(xs) =>
      forall i | 0 <= i < |xs| ensures Walk(xs[i], env) == Some(xs[i]) {
        assert forall r :: r in RefNodes(xs[i]) ==> r in RefNodes(j);
        WalkIsIdentity(xs[i], env);
      }
      assert Walk(j, env).value.elems == xs;
    case _ =>
  }

  /** Lint looks at the `$ref` nodes and nothing else. */
  lemma {:induction false} LintSeesRefNodes(j: Json, registry: Registry)
    ensures LintOk(j, registry) <==> forall r :: r in RefNodes(j) ==> RefNodeOk(r, registry)
  {
    match j
    case Obj(m) =>
      if "$ref" !in m {
        forall k | k in m
          ensures LintOk(m[k], registry) <==> forall r :: r in RefNodes(m[k]) ==> RefNodeOk(r, registry)
          ensures forall r :: r in RefNodes(m[k]) ==> r in RefNodes(j)
        {
          LintSeesRefNodes(m[k], registry);
        }
      }
    case Arr(xs) =>
      forall i | 0 <= i < |xs|
        ensures LintOk(xs[i], registry) <==> forall r :: r in RefNodes(xs[i]) ==> RefNodeOk(r, registry)
        ensures forall r :: r in RefNodes(xs[i]) ==> r in RefNodes(j)
      {
        LintSeesRefNodes(xs[i], registry);
      }
    case _ =>
  }

  /** Some `$ref` node of the tree names this key. */
  ghost predicate Names(j: Json, key: string) {
    exists r :: r in RefNodes(j) && StringAt(r, "$ref") == key
  }

  /** Extraction returns exactly the non-empty keys of the `$ref` nodes. */
  lemma {:induction false} ExtractionSeesRefNodes(j: Json, key: string)
    ensures key in RefKeys(j) <==> key != "" && Names(j, key)
  {
    match j
    case Obj(m) =>
      if "$ref" in m {
        assert m in RefNodes(j);
      } else {
        forall k | k in m ensures key in RefKeys(m[k]) <==> key != "" && Names(m[k], key) {
          ExtractionSeesRefNodes(m[k], key);
        }
        assert key in RefKeys(j) <==> exists k :: k in m && key in RefKeys(m[k]);
      }
    case Arr(xs) =>
      forall i | 0 <= i < |xs| ensures key in RefKeys(xs[i]) <==> key != "" && Names(xs[i], key) {
        ExtractionSeesRefNodes(xs[i], key);
      }
      assert key in RefKeys(j) <==> exists i :: 0 <= i < |xs| && key in RefKeys(xs[i]);
    case _ =>
  }

  // ---- Validated configs do not go wrong ----

  /** Hydration delivered every key: present, not null, not reported missing, of the declared type. */
  ghost predicate Complete(env: Env, keys: set<string>) {
    forall k :: k in keys ==> Hit(env, k) && TypeMatches(env, k, env.hydrated[k])
  }

  /** A reference with something to stand for it: a value of its type (or a source that may be wrong), or a default. */
  predicate Answered(r: map<string, Json>, env: Env) {
    var key := StringAt(r, "$ref");
    if Hit(env, key) then TypeMatches(env, key, env.hydrated[key]) || !env.registry[key].critical
    else "$default" in r
  }

  /** The lint keeps `$required` and `$default` apart, so a linted reference fails only for lack of an answer. */
  lemma RefResolvesIff(r: map<string, Json>, env: Env)
    requires "$ref" in r && RefNodeOk(r, env.registry)
    ensures ResolveRef(r, env).Some? <==> Answered(r, env)
  {
  }

  /** A value of the type a source declares. */
  function Sample(returnType: string): Json {
    match returnType case "string" => Str("") case "number" => Num(0.0) case _ => Bool(true)
  }

  /** An id that picks a row whenever some row has it. */
  ghost predicate Picks(id: Json) { exists row: map<string, Json> :: Pick([id], IndexById([Obj(row)])) == [Obj(row)] }

  /**
   What the lint is for, reference by reference: it can resolve at all, hydration knows its key, its default stands in
   whenever there is no value, and each of its ids can pick a row.
   */
  ghost predicate Sensible(m: map<string, Json>, registry: Registry)
    requires "$ref" in m
  {
    && (exists env: Env :: env.registry == registry && ResolveRef(m, env).Some?)
    && (IsI18nKey(StringAt(m, "$ref")) || StringAt(m, "$ref") in registry)
    && ("$default" in m ==>
         forall env: Env :: env.registry == registry && !Hit(env, StringAt(m, "$ref")) ==> ResolveRef(m, env) == Some(m["$default"]))
    && ("$ids" in m ==> m["$ids"].Arr? && m["$ids"].elems != [] && forall i :: 0 <= i < |m["$ids"].elems| ==> Picks(m["$ids"].elems[i]))
  }

  lemma PicksIff(id: Json)
    ensures Picks(id) <==> id.Str? && id.s != ""
  {
    if id.Str? && id.s != "" {
      var row := map["id" := id];
      assert IndexById([Obj(row)]) == map[id.s := Obj(row)] by {
        assert [Obj(row)][..0] == [];
      }
      assert [id][..0] == [];
      assert Pick([id], IndexById([Obj(row)])) == [] + [Obj(row)];
    } else if Picks(id) {
      var row: map<string, Json> :| Pick([id], IndexById([Obj(row)])) == [Obj(row)];
      assert [id][..0] == [] && Pick([], IndexById([Obj(row)])) == [];
      IndexMember([Obj(row)], "");
      assert false;
    }
  }

  /** The lint admits exactly the sensible references. */
  lemma LintIsExact(m: map<string, Json>, registry: Registry)
    requires "$ref" in m
    ensures RefNodeOk(m, registry) <==> Sensible(m, registry)
  {
    var key := StringAt(m, "$ref");
    if "$ids" in m && m["$ids"].Arr? {
      forall i | 0 <= i < |m["$ids"].elems| ensures Picks(m["$ids"].elems[i]) <==> m["$ids"].elems[i].Str? && m["$ids"].elems[i].s != "" {
        PicksIff(m["$ids"].elems[i]);
      }
    }
    if key != "" {
      var env := Env(registry, map[key := Sample(if key in registry then registry[key].returnType else "")], {});
      assert ResolveRef(m, env).Some?;
      var bare := Env(registry, map[], {});
      assert !Hit(bare, key);
      assert TrueAt(m, "$required") ==> ResolveRef(m, bare).None?;
    }
  }

  ghost predicate Plain(sections: seq<Json>) {
    forall i :: 0 <= i < |sections| ==> PlainSection(sections[i])
  }

  /** An object that is neither an include nor itself a `$ref` node. */
  predicate PlainSection(j: Json) { j.Obj? && "$include" !in j.fields && "$ref" !in j.fields }

  /** What the resolver walks of a section: everything but its visibility. */
  function Body(j: Json): Json
    requires j.Obj?
  {
    Obj(j.fields - {"visible"})
  }

  ghost predicate SectionAnswered(j: Json, env: Env)
    requires j.Obj?
  {
    forall r :: r in RefNodes(Body(j)) ==> Answered(r, env)
  }

  lemma SectionResolvesIff(j: Json, env: Env, req: Request)
    requires PlainSection(j) && LintOk(j, env.registry)
    ensures ResolveSection(j, env, req).Failed? <==> !SectionAnswered(j, env)
  {
    LintSeesRefNodes(Body(j), env.registry);
    WalkSucceedsIff(Body(j), env);
    forall r | r in RefNodes(Body(j)) ensures ResolveRef(r, env).Some? <==> Answered(r, env) {
      RefResolvesIff(r, env);
    }
  }

  /**
   However much of the hydration failed, a validated page resolves exactly when every reference in the body of some
   section has a value or a default; what its visibility refers to never matters.
   */
  lemma PageResolvesIff(sections: seq<Json>, env: Env, req: Request)
    requires Plain(sections) && Valid(sections, env.registry)
    ensures ResolvePage(sections, env, req).Ok? <==> forall i :: 0 <= i < |sections| ==> SectionAnswered(sections[i], env)
  {
    PrefixResolvesIff(sections, |sections|, env, req);
    assert sections[..|sections|] == sections;
  }

  lemma {:induction false} PrefixResolvesIff(sections: seq<Json>, n: nat, env: Env, req: Request)
    requires n <= |sections| && Plain(sections) && Valid(sections, env.registry)
    ensures ResolvePage(sections[..n], env, req).Ok? <==> forall i :: 0 <= i < n ==> SectionAnswered(sections[i], env)
  {
    if n > 0 {
      var i := n - 1;
      assert sections[..n][..i] == sections[..i];
      PrefixResolvesIff(sections, i, env, req);
      assert SectionOk(sections, env.registry, i);
      SectionResolvesIff(sections[i], env, req);
    }
  }

  /** A staged config whose extracted keys were all hydrated always resolves. */
  lemma ValidatedPageResolves(sections: seq<Json>, env: Env, req: Request)
    requires Plain(sections) && Valid(sections, env.registry)
    requires Complete(env, PageKeys(sections))
    ensures ResolvePage(sections, env, req).Ok?
  {
    PageResolvesIff(sections, env, req);
    forall i, r | 0 <= i < |sections| && r in RefNodes(Body(sections[i])) ensures Answered(r, env) {
      CompleteAnswers(sections[i], r, env);
      assert RefKeys(sections[i]) <= PageKeys(sections) by {
        assert forall k :: k in RefKeys(sections[i]) ==> k in PageKeys(sections);
      }
      assert SectionOk(sections, env.registry, i);
    }
  }

  lemma CompleteAnswers(j: Json, r: map<string, Json>, env: Env)
    requires PlainSection(j) && r in RefNodes(Body(j))
    ensures LintOk(j, env.registry) && Complete(env, RefKeys(j)) ==> Answered(r, env)
  {
    var key := StringAt(r, "$ref");
    if LintOk(j, env.registry) && Complete(env, RefKeys(j)) {
      assert LintOk(Body(j), env.registry);
      LintSeesRefNodes(Body(j), env.registry);
      assert RefNodeOk(r, env.registry) && Names(Body(j), key);
      ExtractionSeesRefNodes(Body(j), key);
      assert key in RefKeys(Obj(j.fields));
    }
  }

  /**
   A config is staged exactly when it has at most twenty sections, at most five include keys, none of them twice, and
   in its other sections only references that make sense.
   */
  lemma StagedIff(sections: seq<Json>, registry: Registry)
    ensures Valid(sections, registry) <==>
      && |sections| <= 20
      && |IncludeKeys(sections, |sections|)| <= 5
      && (forall i, j :: 0 <= i < j < |sections| && IsInclude(sections[i]) && IsInclude(sections[j]) ==>
           sections[i].fields["$include"] != sections[j].fields["$include"])
      && (forall i, r :: 0 <= i < |sections| && !IsInclude(sections[i]) && sections[i].Obj? && r in RefNodes(sections[i]) ==>
           "$ref" in r && Sensible(r, registry))
  {
    forall i | 0 <= i < |sections|
      ensures LintOk(sections[i], registry) <==> forall r :: r in RefNodes(sections[i]) ==> "$ref" in r && Sensible(r, registry)
    {
      LintSeesRefNodes(sections[i], registry);
      WalkSucceedsIff(sections[i], Env(registry, map[], {}));
      forall r | r in RefNodes(sections[i]) ensures RefNodeOk(r, registry) <==> Sensible(r, registry) {
        LintIsExact(r, registry);
      }
    }
    forall i | 0 <= i < |sections|
      ensures SectionOk(sections, registry, i) <==>
        if IsInclude(sections[i]) then forall h :: 0 <= h < i && IsInclude(sections[h]) ==> sections[h].fields["$include"] != sections[i].fields["$include"]
        else sections[i].Obj? ==> LintOk(sections[i], registry)
    {
    }
  }

  /** Hydration knows every key of a validated page: a translation or a registered source. */
  lemma KeysAreKnown(sections: seq<Json>, registry: Registry, key: string)
    requires Plain(sections) && Valid(sections, registry) && key in PageKeys(sections)
    ensures IsI18nKey(key) || key in registry
  {
    var i :| 0 <= i < |sections| && key in RefKeys(sections[i]);
    assert SectionOk(sections, registry, i) && PlainSection(sections[i]);
    LintSeesRefNodes(sections[i], registry);
    ExtractionSeesRefNodes(sections[i], key);
    var r :| r in RefNodes(sections[i]) && StringAt(r, "$ref") == key;
    assert RefNodeOk(r, registry);
  }

  // ---- The page depends only on the extracted keys ----

  ghost predicate AgreeOn(a: Env, b: Env, keys: set<string>) {
    && a.registry == b.registry
    && forall k :: k in keys ==>
         && (k in a.missing <==> k in b.missing)
         && (k in a.hydrated <==> k in b.hydrated)
         && (k in a.hydrated && k in b.hydrated ==> a.hydrated[k] == b.hydrated[k])
  }

  lemma {:induction false} WalkDependsOnKeys(j: Json, a: Env, b: Env)
    requires AgreeOn(a, b, RefKeys(j))
    ensures Walk(j, a) == Walk(j, b)
  {
    match j
    case Obj(m) =>
      if "$ref" !in m {
        forall k | k in m ensures Walk(m[k], a) == Walk(m[k], b) {
          assert forall r :: r in RefKeys(m[k]) ==> r in RefKeys(j);
          WalkDependsOnKeys(m[k], a, b);
        }
        if forall k :: k in m ==> Walk(m[k], a).Some? {
          assert Walk(j, a).value.fields == Walk(j, b).value.fields;
        }
      }
    case Arr(xs) =>
      forall i | 0 <= i < |xs| ensures Walk(xs[i], a) == Walk(xs[i], b) {
        assert forall r :: r in RefKeys(xs[i]) ==> r in RefKeys(j);
        WalkDependsOnKeys(xs[i], a, b);
      }
      if forall i :: 0 <= i < |xs| ==> Walk(xs[i], a).Some? {
        assert Walk(j, a).value.elems == Walk(j, b).value.elems;
      }
    case _ =>
  }

  /** The key `visible` is looked up under; "" is looked up when `$ref` is not a string. */
  ghost function VisibleKeys(section: map<string, Json>): set<string> {
    if "visible" in section && section["visible"].Obj? && "$ref" in section["visible"].fields
    then {StringAt(section["visible"].fields, "$ref")} else {}
  }

  lemma SectionDependsOnKeys(j: Json, a: Env, b: Env, req: Request)
    requires PlainSection(j) && LintOk(j, a.registry) && AgreeOn(a, b, RefKeys(j))
    ensures ResolveSection(j, a, req) == ResolveSection(j, b, req)
  {
    WalkDependsOnKeys(Obj(j.fields - {"visible"}), a, b);
    if VisibleKeys(j.fields) != {} {
      assert LintOk(j.fields["visible"], a.registry);
      assert StringAt(j.fields["visible"].fields, "$ref") in RefKeys(j.fields["visible"]);
    }
  }

  /** Two hydrations that agree on the extracted keys give the same page. */
  lemma PageDependsOnKeys(sections: seq<Json>, a: Env, b: Env, req: Request)
    requires Plain(sections) && Valid(sections, a.registry) && AgreeOn(a, b, PageKeys(sections))
    ensures ResolvePage(sections, a, req) == ResolvePage(sections, b, req)
  {
    PrefixDependsOnKeys(sections, |sections|, a, b, req);
    assert sections[..|sections|] == sections;
  }

  lemma {:induction false} PrefixDependsOnKeys(sections: seq<Json>, n: nat, a: Env, b: Env, req: Request)
    requires n <= |sections| && Plain(sections) && Valid(sections, a.registry) && AgreeOn(a, b, PageKeys(sections))
    ensures ResolvePage(sections[..n], a, req) == ResolvePage(sections[..n], b, req)
  {
    if n > 0 {
      var i := n - 1;
      assert sections[..n][..i] == sections[..i];
      PrefixDependsOnKeys(sections, i, a, b, req);
      assert SectionOk(sections, a.registry, i);
      assert forall k :: k in RefKeys(sections[i]) ==> k in PageKeys(sections);
      SectionDependsOnKeys(sections[i], a, b, req);
    }
  }

  /**
   Why a section must not itself be a `$ref` node: extraction stops at its `$ref`, so the key that
   decides its visibility is fetched exactly when it happens to be the section's own key.
   */
  lemma RefSectionHidesVisibility(section: map<string, Json>)
    requires VisibleKeys(section) != {} && "" !in VisibleKeys(section)
    ensures VisibleKeys(section) <= RefKeys(Obj(section)) <==>
      "$ref" !in section || StringAt(section, "$ref") == StringAt(section["visible"].fields, "$ref")
  {
    var key := StringAt(section["visible"].fields, "$ref");
    if "$ref" !in section {
      assert key in RefKeys(section["visible"]);
    }
  }

  /** The section with its rollout percentage set. */
  function WithShare(section: map<string, Json>, share: real): map<string, Json>
    requires "rollout" in section && section["rollout"].Obj?
  {
    section["rollout" := Obj(section["rollout"].fields["percentage" := Num(share)])]
  }

  /** Raising a rollout percentage, up to or beyond a hundred, takes the section away from nobody who had it. */
  lemma RolloutNested(section: map<string, Json>, more: real, req: Request)
    requires "rollout" in section && section["rollout"].Obj? && PassesRollout(section, req)
    requires var rollout := section["rollout"].fields;
      "percentage" in rollout && rollout["percentage"].Num? && 0.0 <= rollout["percentage"].n <= more
    ensures PassesRollout(WithShare(section, more), req)
  {
    var raised := WithShare(section, more);
    assert StringAt(raised, "id") == StringAt(section, "id");
    assert raised["rollout"].Obj?;
    assert StringAt(raised["rollout"].fields, "min_client_version") == StringAt(section["rollout"].fields, "min_client_version");
  }

  /**
   Who gets a section: everyone without a rollout object; else whoever runs at least the minimum version, to three
   segments, and falls into the share by the hash of user and section id.
   */
  lemma RolloutIff(section: map<string, Json>, req: Request)
    ensures PassesRollout(section, req) <==>
      forall rollout :: "rollout" in section && section["rollout"] == Obj(rollout) ==>
        && (forall v: string :: "min_client_version" in rollout && rollout["min_client_version"] == Str(v) && v != "" ==>
             Versions.Order(Versions.Take3(Versions.SplitVersion(req.appVersion)), Versions.Take3(Versions.SplitVersion(v))) >= 0)
        && (forall p: real :: "percentage" in rollout && rollout["percentage"] == Num(p) && 0.0 <= p < 100.0 ==>
             Bucket(req.userId + ":" + if "id" in section && section["id"].Str? then section["id"].s else "") < p.Floor)
  {
    if "rollout" in section && section["rollout"].Obj? {
      var rollout := section["rollout"].fields;
      Versions.SemverIsOrder(req.appVersion, StringAt(rollout, "min_client_version"));
    }
  }

  /** The buckets a rollout lets through. */
  function Passing(rollout: map<string, Json>): set<nat> { set b: nat | b < 100 && PassesShare(rollout, b) }

  /** A percentage below a hundred lets exactly that many of the hundred buckets through, the lowest; any other lets all. */
  lemma SharePasses(rollout: map<string, Json>)
    ensures if "percentage" in rollout && rollout["percentage"].Num? && 0.0 <= rollout["percentage"].n < 100.0
      then |Passing(rollout)| == rollout["percentage"].n.Floor && (forall b :: b in Passing(rollout) <==> 0 <= b < rollout["percentage"].n.Floor)
      else |Passing(rollout)| == 100
  {
    var share := if "percentage" in rollout && rollout["percentage"].Num? && 0.0 <= rollout["percentage"].n < 100.0
      then rollout["percentage"].n.Floor else 100;
    RangeCount(0, share);
    assert Passing(rollout) == Range(0, share);
  }
}
