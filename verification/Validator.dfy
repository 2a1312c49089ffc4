/** The stage-time validator: which configs may go live. */
module Validator {
  import opened Common
  import opened Json
  import opened Refs

  const MAX_SECTIONS := 20
  const MAX_INCLUDES := 5

  // ---- Stage-time lint ----

  /** What the validator demands of one `$ref` node. */
  predicate RefNodeOk(m: map<string, Json>, registry: Registry) {
    var key := StringAt(m, "$ref");
    && key != ""
    && (IsI18nKey(key) || key in registry)
    && !(TrueAt(m, "$required") && "$default" in m)
    && ("$ids" in m ==> IdsOk(m["$ids"]))
  }

  predicate IdsOk(ids: Json) {
    ids.Arr? && ids.elems != [] && forall i :: 0 <= i < |ids.elems| ==> ids.elems[i].Str? && ids.elems[i].s != ""
  }

  predicate LintOk(j: Json, registry: Registry) {
    match j
    case Obj(m) =>
      if "$ref" in m then RefNodeOk(m, registry) else forall k :: k in m ==> LintOk(m[k], registry)
    case Arr(xs) => forall i :: 0 <= i < |xs| ==> LintOk(xs[i], registry)
    case _ => true
  }

  datatype Problem =
    | BadRef | UnknownRef(key: string) | RequiredWithDefault | BadIds | BadId(index: nat)
    | TooManySections | DuplicateInclude(key: string) | TooManyIncludes

  /** Collects blocking problems; walks only ever add to it. */
  class ValidationResult {
    var errors: seq<Problem>

    constructor ()
      ensures errors == []
    {
      errors := [];
    }

    /** Adds a problem when the check failed. */
    method Check(ok: bool, problem: Problem)
      modifies this
      ensures errors == if ok then old(errors) else old(errors) + [problem]
    {
      if !ok {
        errors := errors + [problem];
      }
    }

    /** The `$ref` node checks: the node is fine exactly when nothing was added. */
    method LintRef(m: map<string, Json>, registry: Registry)
      modifies this
      ensures old(errors) <= errors
      ensures errors == old(errors) <==> RefNodeOk(m, registry)
    {
      var key := StringAt(m, "$ref");
      if key == "" {
        Check(false, BadRef);
        return;
      }
      Check(IsI18nKey(key) || key in registry, UnknownRef(key));
      Check(!(TrueAt(m, "$required") && "$default" in m), RequiredWithDefault);
      if "$ids" in m {
        LintIds(m["$ids"]);
      }
    }

    /** The id list of a reference: a non-empty array of non-empty strings. */
    method LintIds(value: Json)
      modifies this
      ensures old(errors) <= errors
      ensures errors == old(errors) <==> IdsOk(value)
    {
      if !value.Arr? || value.elems == [] {
        Check(false, BadIds);
        return;
      }
      var ids := value.elems;
      ghost var before := errors;
      for i := 0 to |ids|
        invariant before <= errors
        invariant errors == before <==> forall h :: 0 <= h < i ==> ids[h].Str? && ids[h].s != ""
      {
        Check(ids[i].Str? && ids[i].s != "", BadId(i));
      }
    }

    /** Lints every `$ref` node below `node`: clean exactly when nothing was added. */
    method WalkRefs(node: Json, registry: Registry)
      modifies this
      ensures old(errors) <= errors
      ensures errors == old(errors) <==> LintOk(node, registry)
      decreases node
    {
      ghost var before := errors;
      match node
      case Obj(m) =>
        if "$ref" in m {
          LintRef(m, registry);
          return;
        }
        var todo := m.Keys;
        while todo != {}
          invariant todo <= m.Keys && before <= errors
          invariant errors == before <==> forall k :: k in m && k !in todo ==> LintOk(m[k], registry)
          decreases todo
        {
          var k :| k in todo;
          WalkRefs(m[k], registry);
          todo := todo - {k};
        }
      case Arr(xs) =>
        for i := 0 to |xs|
          invariant before <= errors
          invariant errors == before <==> forall h :: 0 <= h < i ==> LintOk(xs[h], registry)
        {
          WalkRefs(xs[i], registry);
        }
      case _ =>
    }
  }

  /** A top-level include, as the validator sees it. */
  predicate IsInclude(j: Json) { j.Obj? && "$include" in j.fields && j.fields["$include"].Str? }

  function IncludeKeys(sections: seq<Json>, n: nat): set<string>
    requires n <= |sections|
  {
    set i | 0 <= i < n && IsInclude(sections[i]) :: sections[i].fields["$include"].s
  }

  predicate SectionOk(sections: seq<Json>, registry: Registry, i: nat)
    requires i < |sections|
  {
    if IsInclude(sections[i]) then sections[i].fields["$include"].s !in IncludeKeys(sections, i)
    else sections[i].Obj? ==> LintOk(sections[i], registry)
  }

  /** What a config must satisfy to be staged (beyond the JSON schema and the action whitelist). */
  predicate Valid(sections: seq<Json>, registry: Registry) {
    && |sections| <= MAX_SECTIONS
    && (forall i :: 0 <= i < |sections| ==> SectionOk(sections, registry, i))
    && |IncludeKeys(sections, |sections|)| <= MAX_INCLUDES
  }

  method Validate(sections: seq<Json>, registry: Registry) returns (res: ValidationResult)
    ensures fresh(res)
    ensures res.errors == [] <==> Valid(sections, registry)
  {
    res := new ValidationResult();
    res.Check(|sections| <= MAX_SECTIONS, TooManySections);
    var includeKeys: set<string> := {};
    for i := 0 to |sections|
      invariant fresh(res)
      invariant includeKeys == IncludeKeys(sections, i)
      invariant res.errors == [] <==> |sections| <= MAX_SECTIONS && forall h :: 0 <= h < i ==> SectionOk(sections, registry, h)
    {
      ghost var before := res.errors;
      if IsInclude(sections[i]) {
        var key := sections[i].fields["$include"].s;
        res.Check(key !in includeKeys, DuplicateInclude(key));
        includeKeys := includeKeys + {key};
      } else if sections[i].Obj? {
        res.WalkRefs(sections[i], registry);
      }
      assert res.errors == [] <==> before == [] && SectionOk(sections, registry, i);
    }
    res.Check(|includeKeys| <= MAX_INCLUDES, TooManyIncludes);
  }
}
