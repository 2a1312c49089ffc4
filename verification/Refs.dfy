/** `$ref` nodes: what a request knows about them, and the extraction of the keys to fetch. */
module Refs {
  import opened Common
  import opened Json

  datatype Source = Source(returnType: string, critical: bool)

  type Registry = map<string, Source>

  /** What the hydrator hands over for one request. */
  datatype Env = Env(registry: Registry, hydrated: map<string, Json>, missing: set<string>)

  datatype Request = Request(userId: string, appVersion: string)

  predicate IsI18nKey(key: string) { "i18n." <= key }

  // ---- Key extraction ----

  /** Every `$ref` key of a tree; a `$ref` node hides what is below it. */
  ghost function RefKeys(j: Json): set<string> {
    match j
    case Obj(m) =>
      if "$ref" in m then (if StringAt(m, "$ref") != "" then {StringAt(m, "$ref")} else {})
      else set k, r | k in m && r in RefKeys(m[k]) :: r
    case Arr(xs) => set i, r | 0 <= i < |xs| && r in RefKeys(xs[i]) :: r
    case _ => {}
  }

  /** The keys collected so far; the walk appends to it. */
  class KeyList {
    var keys: seq<string>

    constructor ()
      ensures keys == []
    {
      keys := [];
    }
  }

  /** The keys below some of the fields of an object, and below the first elements of an array. */
  ghost function FieldKeys(m: map<string, Json>, fields: set<string>): set<string>
    requires fields <= m.Keys
  {
    set k, r | k in fields && r in RefKeys(m[k]) :: r
  }

  ghost function ElemKeys(xs: seq<Json>, n: nat): set<string>
    requires n <= |xs|
  {
    set i, r | 0 <= i < n && r in RefKeys(xs[i]) :: r
  }

  lemma FieldKeysAdd(m: map<string, Json>, fields: set<string>, k: string)
    requires fields <= m.Keys && k in m
    ensures FieldKeys(m, fields + {k}) == FieldKeys(m, fields) + RefKeys(m[k])
  {
  }

  lemma ElemKeysAdd(xs: seq<Json>, n: nat)
    requires n < |xs|
    ensures ElemKeys(xs, n + 1) == ElemKeys(xs, n) + RefKeys(xs[n])
  {
  }

  /** Appends every `$ref` key below `node`, fields in any order. */
  method WalkExtractRefs(node: Json, out: KeyList)
    modifies out
    ensures old(out.keys) <= out.keys
    ensures SetOf(out.keys[|old(out.keys)|..]) == RefKeys(node)
    decreases node
  {
    ghost var before := out.keys;
    match node
    case Obj(m) =>
      if "$ref" in m {
        if StringAt(m, "$ref") != "" {
          out.keys := out.keys + [StringAt(m, "$ref")];
        }
        return;
      }
      var todo := m.Keys;
      while todo != {}
        invariant todo <= m.Keys && before <= out.keys
        invariant SetOf(out.keys[|before|..]) == FieldKeys(m, m.Keys - todo)
        decreases todo
      {
        var k :| k in todo;
        ghost var earlier := out.keys;
        WalkExtractRefs(m[k], out);
        assert out.keys[|before|..] == earlier[|before|..] + out.keys[|earlier|..];
        FieldKeysAdd(m, m.Keys - todo, k);
        assert m.Keys - (todo - {k}) == m.Keys - todo + {k};
        todo := todo - {k};
      }
      assert m.Keys - todo == m.Keys;
    case Arr(xs) =>
      for i := 0 to |xs|
        invariant before <= out.keys
        invariant SetOf(out.keys[|before|..]) == ElemKeys(xs, i)
      {
        ghost var earlier := out.keys;
        WalkExtractRefs(xs[i], out);
        assert out.keys[|before|..] == earlier[|before|..] + out.keys[|earlier|..];
        ElemKeysAdd(xs, i);
      }
    case _ =>
  }

  /** The keys of a whole section list: what the pipeline asks the hydrator for. */
  ghost function PageKeys(sections: seq<Json>): set<string> {
    ElemKeys(sections, |sections|)
  }

  method ExtractRefKeys(sections: seq<Json>) returns (keys: seq<string>)
    ensures SetOf(keys) == PageKeys(sections)
  {
    var out := new KeyList();
    for i := 0 to |sections|
      invariant fresh(out)
      invariant SetOf(out.keys) == ElemKeys(sections, i)
    {
      ghost var earlier := out.keys;
      WalkExtractRefs(sections[i], out);
      assert out.keys == earlier + out.keys[|earlier|..];
      ElemKeysAdd(sections, i);
    }
    return out.keys;
  }
}
