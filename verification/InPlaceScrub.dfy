/** The redaction as it runs: decoded objects are shared maps, and the walk overwrites their entries in place. */
module InPlaceScrub {
  import opened Common
  import opened Json
  import opened Scrub

  /** A decoded JSON object: a map that everyone holding the reference sees change. */
  class Node {
    var fields: map<string, Value>

    constructor (fields: map<string, Value>)
      ensures this.fields == fields
    {
      this.fields := fields;
    }
  }

  datatype Value = Scalar(j: Json) | List(items: seq<Value>) | Ref(node: Node)

  /** The shape of a decoded value: which nodes it is made of. */
  datatype Tree = Leaf | ListOf(kids: seq<Tree>) | NodeOf(node: Node, entries: map<string, Tree>)

  function Nodes(t: Tree): set<Node> {
    match t
    case Leaf => {}
    case ListOf(kids) => set i, n | 0 <= i < |kids| && n in Nodes(kids[i]) :: n
    case NodeOf(node, entries) => {node} + set k, n | k in entries && n in Nodes(entries[k]) :: n
  }

  /** No node occurs twice, as in any freshly decoded document. */
  ghost predicate Apart(t: Tree) {
    match t
    case Leaf => true
    case ListOf(kids) =>
      && (forall i :: 0 <= i < |kids| ==> Apart(kids[i]))
      && (forall i, j :: 0 <= i < j < |kids| ==> Nodes(kids[i]) !! Nodes(kids[j]))
    case NodeOf(node, entries) =>
      && (forall k :: k in entries ==> Apart(entries[k]) && node !in Nodes(entries[k]))
      && (forall k, l :: k in entries && l in entries && k != l ==> Nodes(entries[k]) !! Nodes(entries[l]))
  }

  /** The contents of some nodes at one moment. */
  type Store = map<Node, map<string, Value>>

  ghost function Snap(nodes: set<Node>): Store
    reads nodes
  {
    map n | n in nodes :: n.fields
  }

  /** With these contents, the value, made of the nodes of this shape, stands for the document. */
  ghost predicate Means(h: Store, v: Value, j: Json, t: Tree)
    decreases t
  {
    match t
    case Leaf => v == Scalar(j) && !j.Obj? && !j.Arr?
    case ListOf(kids) =>
      v.List? && j.Arr? && |v.items| == |j.elems| == |kids| &&
      forall i :: 0 <= i < |kids| ==> Means(h, v.items[i], j.elems[i], kids[i])
    case NodeOf(node, entries) =>
      v == Ref(node) && j.Obj? && node in h && h[node].Keys == j.fields.Keys == entries.Keys &&
      forall k :: k in entries ==> Means(h, h[node][k], j.fields[k], entries[k])
  }

  /** The shape after the scrub: what hung below a denied key is cut off. */
  function Pruned(t: Tree, deny: set<string>): Tree {
    match t
    case Leaf => Leaf
    case ListOf(kids) => ListOf(seq(|kids|, i requires 0 <= i < |kids| => Pruned(kids[i], deny)))
    case NodeOf(node, entries) =>
      NodeOf(node, map k | k in entries :: if Denied(k, deny) then Leaf else Pruned(entries[k], deny))
  }

  function EntryAfter(k: string, t: Tree, deny: set<string>): Tree {
    if Denied(k, deny) then Leaf else Pruned(t, deny)
  }

  function FieldAfter(k: string, j: Json, deny: set<string>): Json {
    if Denied(k, deny) then Str(REDACTED) else Scrubbed(j, deny)
  }

  ghost predicate Same(h: Store, h': Store, nodes: set<Node>) {
    forall n :: n in nodes && n in h ==> n in h' && h'[n] == h[n]
  }

  /** What a value means depends on its own nodes only. */
  lemma {:induction false} MeansStays(h: Store, h': Store, v: Value, j: Json, t: Tree)
    requires Means(h, v, j, t) && Same(h, h', Nodes(t))
    ensures Means(h', v, j, t)
    decreases t
  {
    match t
    case Leaf =>
    case ListOf(kids) =>
      forall i | 0 <= i < |kids| ensures Means(h', v.items[i], j.elems[i], kids[i]) {
        assert Nodes(kids[i]) <= Nodes(t);
        MeansStays(h, h', v.items[i], j.elems[i], kids[i]);
      }
    case NodeOf(node, entries) =>
      forall k | k in entries ensures Means(h', h'[node][k], j.fields[k], entries[k]) {
        assert Nodes(entries[k]) <= Nodes(t);
        MeansStays(h, h', h[node][k], j.fields[k], entries[k]);
      }
  }

  lemma {:induction false} PrunedNodes(t: Tree, deny: set<string>)
    ensures Nodes(Pruned(t, deny)) <= Nodes(t)
  {
    match t
    case Leaf =>
    case ListOf(kids) =>
      forall i | 0 <= i < |kids| ensures Nodes(Pruned(kids[i], deny)) <= Nodes(kids[i]) {
        PrunedNodes(kids[i], deny);
      }
    case NodeOf(node, entries) =>
      forall k | k in entries ensures Nodes(EntryAfter(k, entries[k], deny)) <= Nodes(entries[k]) {
        PrunedNodes(entries[k], deny);
      }
  }

  /** A scrubbed value can be scrubbed again. */
  lemma {:induction false} PrunedApart(t: Tree, deny: set<string>)
    requires Apart(t)
    ensures Apart(Pruned(t, deny))
  {
    match t
    case Leaf =>
    case ListOf(kids) =>
      forall i | 0 <= i < |kids| ensures Apart(Pruned(kids[i], deny)) && Nodes(Pruned(kids[i], deny)) <= Nodes(kids[i]) {
        PrunedApart(kids[i], deny);
        PrunedNodes(kids[i], deny);
      }
    case NodeOf(node, entries) =>
      forall k | k in entries
        ensures Apart(EntryAfter(k, entries[k], deny)) && Nodes(EntryAfter(k, entries[k], deny)) <= Nodes(entries[k])
      {
        PrunedApart(entries[k], deny);
        PrunedNodes(entries[k], deny);
      }
  }

  /** One entry of a map: overwritten when denied, walked otherwise. */
  method ScrubEntry(node: Node, k: string, ghost j: Json, ghost t: Tree, ghost all: set<Node>, deny: set<string>) returns (changed: bool)
    requires node in all && Nodes(t) <= all && node !in Nodes(t) && Apart(t)
    requires k in node.fields && Means(Snap(all), node.fields[k], j, t)
    modifies node, Nodes(t)
    ensures node.fields.Keys == old(node.fields.Keys)
    ensures forall l :: l in node.fields && l != k ==> node.fields[l] == old(node.fields[l])
    ensures Same(old(Snap(all)), Snap(all), all - Nodes(t) - {node})
    ensures Means(Snap(all), node.fields[k], FieldAfter(k, j, deny), EntryAfter(k, t, deny))
    ensures changed <==> FieldAfter(k, j, deny) != j
    decreases t, 4
  {
    if Denied(k, deny) {
      if node.fields[k] != Scalar(Str(REDACTED)) {
        node.fields := node.fields[k := Scalar(Str(REDACTED))];
        return true;
      }
      return false;
    }
    changed := ScrubJSONB(node.fields[k], j, t, all, deny);
  }

  /**
   The walk over a decoded value: whoever holds a reference into it sees the scrubbed document afterwards,
   and no node outside it changes. The flag is true exactly when the content changed.
   */
  method ScrubJSONB(v: Value, ghost j: Json, ghost t: Tree, ghost all: set<Node>, deny: set<string>) returns (changed: bool)
    requires Nodes(t) <= all && Apart(t) && Means(Snap(all), v, j, t)
    modifies Nodes(t)
    ensures Means(Snap(all), v, Scrubbed(j, deny), Pruned(t, deny))
    ensures changed <==> Scrubbed(j, deny) != j
    decreases t, 3
  {
    changed := false;
    match v
    case Scalar(_) =>
    case Ref(node) =>
      changed := ScrubNode(node, j, t, all, deny);
    case List(items) =>
      changed := ScrubList(items, j, t, all, deny);
  }

  lemma KidNodes(kids: seq<Tree>, i: nat)
    requires i < |kids|
    ensures Nodes(kids[i]) <= Nodes(ListOf(kids))
  {
  }

  /** Midway through a list: the first `i` elements are scrubbed, the others as at the start. */
  ghost predicate Within(start: Store, h: Store, items: seq<Value>, xs: seq<Json>, kids: seq<Tree>, i: nat, deny: set<string>)
    requires |items| == |xs| == |kids|
  {
    && (forall e :: i <= e < |items| ==> Same(start, h, Nodes(kids[e])))
    && (forall e :: 0 <= e < i && e < |items| ==> Means(h, items[e], Scrubbed(xs[e], deny), Pruned(kids[e], deny)))
  }

  lemma OneElemMore(start: Store, before: Store, after: Store, items: seq<Value>, xs: seq<Json>, kids: seq<Tree>, i: nat, deny: set<string>)
    requires |items| == |xs| == |kids| && i < |items| && Within(start, before, items, xs, kids, i, deny)
    requires forall e :: 0 <= e < |items| && e != i ==> Same(before, after, Nodes(kids[e]))
    requires Means(after, items[i], Scrubbed(xs[i], deny), Pruned(kids[i], deny))
    ensures Within(start, after, items, xs, kids, i + 1, deny)
  {
    forall e | 0 <= e < i ensures Means(after, items[e], Scrubbed(xs[e], deny), Pruned(kids[e], deny)) {
      PrunedNodes(kids[e], deny);
      MeansStays(before, after, items[e], Scrubbed(xs[e], deny), Pruned(kids[e], deny));
    }
  }

  /** One turn of the loop over a list's elements. */
  method ScrubElem(items: seq<Value>, i: nat, ghost start: Store, ghost j: Json, ghost t: Tree, ghost all: set<Node>, deny: set<string>)
    returns (changed: bool)
    requires t.ListOf? && Nodes(t) <= all && Apart(t) && Means(start, List(items), j, t) && i < |items|
    requires Within(start, Snap(all), items, j.elems, t.kids, i, deny)
    modifies Nodes(t)
    ensures Within(start, Snap(all), items, j.elems, t.kids, i + 1, deny)
    ensures changed <==> Scrubbed(j.elems[i], deny) != j.elems[i]
    decreases t, 0
  {
    ghost var before := Snap(all);
    KidNodes(t.kids, i);
    MeansStays(start, before, items[i], j.elems[i], t.kids[i]);
    changed := ScrubJSONB(items[i], j.elems[i], t.kids[i], all, deny);
    ghost var after := Snap(all);
    assert Same(before, after, all - Nodes(t.kids[i]));
    forall e | 0 <= e < |items| && e != i ensures Same(before, after, Nodes(t.kids[e])) {
      KidNodes(t.kids, e);
    }
    OneElemMore(start, before, after, items, j.elems, t.kids, i, deny);
  }

  /** The elements of a list: the list itself stays, what its elements refer to is walked. */
  method ScrubList(items: seq<Value>, ghost j: Json, ghost t: Tree, ghost all: set<Node>, deny: set<string>) returns (changed: bool)
    requires t.ListOf? && Nodes(t) <= all && Apart(t) && Means(Snap(all), List(items), j, t)
    modifies Nodes(t)
    ensures Means(Snap(all), List(items), Scrubbed(j, deny), Pruned(t, deny))
    ensures changed <==> Scrubbed(j, deny) != j
    decreases t, 1
  {
    ghost var start := Snap(all);
    changed := false;
    for i := 0 to |items|
      invariant Within(start, Snap(all), items, j.elems, t.kids, i, deny)
      invariant changed <==> exists e :: 0 <= e < i && Scrubbed(j.elems[e], deny) != j.elems[e]
    {
      var c := ScrubElem(items, i, start, j, t, all, deny);
      changed := changed || c;
    }
    assert Scrubbed(j, deny) == j <==> Scrubbed(j, deny).elems == j.elems;
  }

  /** Midway through a map: the entries of `todo` are as at the start, all others are scrubbed. */
  ghost predicate Midway(start: Store, h: Store, m: map<string, Json>, t: Tree, todo: set<string>, deny: set<string>)
    requires t.NodeOf?
  {
    && t.node in start && t.node in h && start[t.node].Keys == h[t.node].Keys == m.Keys == t.entries.Keys
    && todo <= m.Keys
    && (forall l :: l in todo ==> h[t.node][l] == start[t.node][l] && Same(start, h, Nodes(t.entries[l])))
    && (forall l :: l in m && l !in todo ==> Means(h, h[t.node][l], FieldAfter(l, m[l], deny), EntryAfter(l, t.entries[l], deny)))
  }

  lemma {:induction false} OneEntryMore(start: Store, before: Store, after: Store, m: map<string, Json>, t: Tree,
                                        todo: set<string>, k: string, deny: set<string>)
    requires t.NodeOf? && Apart(t) && k in todo && Midway(start, before, m, t, todo, deny)
    requires t.node in after && after[t.node].Keys == before[t.node].Keys
    requires forall l :: l in m && l != k ==> after[t.node][l] == before[t.node][l]
    requires forall l :: l in m && l != k ==> Same(before, after, Nodes(t.entries[l]))
    requires Means(after, after[t.node][k], FieldAfter(k, m[k], deny), EntryAfter(k, t.entries[k], deny))
    ensures Midway(start, after, m, t, todo - {k}, deny)
  {
    forall l | l in m && l !in todo ensures Means(after, after[t.node][l], FieldAfter(l, m[l], deny), EntryAfter(l, t.entries[l], deny)) {
      PrunedNodes(t.entries[l], deny);
      MeansStays(before, after, before[t.node][l], FieldAfter(l, m[l], deny), EntryAfter(l, t.entries[l], deny));
    }
  }

  lemma EntryNodes(t: Tree, k: string)
    requires t.NodeOf? && k in t.entries
    ensures Nodes(t.entries[k]) <= Nodes(t) && t.node in Nodes(t)
  {
  }

  /** What changes only a node and the nodes below one entry leaves the nodes below the others alone. */
  lemma OtherEntriesStay(before: Store, after: Store, t: Tree, k: string, all: set<Node>)
    requires t.NodeOf? && Apart(t) && Nodes(t) <= all && k in t.entries
    requires Same(before, after, all - Nodes(t.entries[k]) - {t.node})
    ensures forall l :: l in t.entries && l != k ==> Same(before, after, Nodes(t.entries[l]))
  {
    forall l | l in t.entries && l != k ensures Same(before, after, Nodes(t.entries[l])) {
      EntryNodes(t, l);
      assert Nodes(t.entries[l]) !! Nodes(t.entries[k]) && t.node !in Nodes(t.entries[l]);
    }
  }

  /** One turn of the loop over a map's entries. */
  method ScrubNext(node: Node, k: string, ghost start: Store, ghost m: map<string, Json>, ghost t: Tree, ghost todo: set<string>,
                   ghost all: set<Node>, deny: set<string>) returns (changed: bool)
    requires t.NodeOf? && t.node == node && Nodes(t) <= all && Apart(t) && k in todo
    requires Midway(start, Snap(all), m, t, todo, deny) && Means(start, start[node][k], m[k], t.entries[k])
    modifies Nodes(t)
    ensures Midway(start, Snap(all), m, t, todo - {k}, deny)
    ensures changed <==> FieldAfter(k, m[k], deny) != m[k]
    decreases t, 1
  {
    ghost var before := Snap(all);
    EntryReady(start, before, m, t, todo, k, all, deny);
    changed := ScrubEntry(node, k, m[k], t.entries[k], all, deny);
    OtherEntriesStay(before, Snap(all), t, k, all);
    OneEntryMore(start, before, Snap(all), m, t, todo, k, deny);
  }

  lemma EntryReady(start: Store, before: Store, m: map<string, Json>, t: Tree, todo: set<string>, k: string, all: set<Node>, deny: set<string>)
    requires t.NodeOf? && Nodes(t) <= all && Apart(t) && k in todo && Midway(start, before, m, t, todo, deny)
    requires Means(start, start[t.node][k], m[k], t.entries[k])
    ensures t.node in all && Nodes(t.entries[k]) <= Nodes(t) && t.node !in Nodes(t.entries[k]) && Apart(t.entries[k])
    ensures Means(before, before[t.node][k], m[k], t.entries[k])
  {
    EntryNodes(t, k);
    MeansStays(start, before, start[t.node][k], m[k], t.entries[k]);
  }

  /** The entries of a map, in any order. */
  method ScrubNode(node: Node, ghost j: Json, ghost t: Tree, ghost all: set<Node>, deny: set<string>) returns (changed: bool)
    requires t.NodeOf? && Nodes(t) <= all && Apart(t) && Means(Snap(all), Ref(node), j, t)
    modifies Nodes(t)
    ensures Means(Snap(all), Ref(node), Scrubbed(j, deny), Pruned(t, deny))
    ensures changed <==> Scrubbed(j, deny) != j
    decreases t, 2
  {
    ghost var m, start := j.fields, Snap(all);
    changed := false;
    var todo := node.fields.Keys;
    while todo != {}
      invariant Midway(start, Snap(all), m, t, todo, deny)
      invariant changed <==> exists l :: l in m && l !in todo && FieldAfter(l, m[l], deny) != m[l]
      decreases todo
    {
      var k :| k in todo;
      var c := ScrubNext(node, k, start, m, t, todo, all, deny);
      todo := todo - {k};
      changed := changed || c;
    }
    NodeScrubbed(start, Snap(all), j, t, deny);
    NodeChanges(j, deny);
  }

  lemma {:induction false} NodeScrubbed(start: Store, h: Store, j: Json, t: Tree, deny: set<string>)
    requires t.NodeOf? && j.Obj? && Midway(start, h, j.fields, t, {}, deny)
    ensures Means(h, Ref(t.node), Scrubbed(j, deny), Pruned(t, deny))
  {
  }

  lemma {:induction false} NodeChanges(j: Json, deny: set<string>)
    requires j.Obj?
    ensures Scrubbed(j, deny) != j <==> exists l :: l in j.fields && FieldAfter(l, j.fields[l], deny) != j.fields[l]
  {
    assert Scrubbed(j, deny) == j <==> Scrubbed(j, deny).fields == j.fields;
  }

  // ---- Decoding and encoding ----

  /** A fresh value for a document, sharing nothing with anything. */
  method Decode(j: Json) returns (v: Value, ghost t: Tree)
    ensures fresh(Nodes(t)) && Apart(t) && Means(Snap(Nodes(t)), v, j, t)
    decreases j, 3
  {
    match j
    case Obj(m) => v, t := DecodeFields(m, j);
    case Arr(xs) => v, t := DecodeElems(xs, j);
    case _ => v, t := Scalar(j), Leaf;
  }

  /** The elements decoded so far, over the nodes `all`. */
  ghost predicate ElemsSoFar(h: Store, all: set<Node>, items: seq<Value>, xs: seq<Json>, kids: seq<Tree>) {
    && |items| == |kids| <= |xs|
    && all == Nodes(ListOf(kids)) && Apart(ListOf(kids))
    && forall i :: 0 <= i < |kids| ==> Means(h, items[i], xs[i], kids[i])
  }

  lemma {:induction false} NodesSnoc(kids: seq<Tree>, kid: Tree)
    ensures Nodes(ListOf(kids + [kid])) == Nodes(ListOf(kids)) + Nodes(kid)
    ensures forall i :: 0 <= i < |kids| ==> Nodes(kids[i]) <= Nodes(ListOf(kids))
  {
    var more := kids + [kid];
    forall n | n in Nodes(ListOf(kids)) ensures n in Nodes(ListOf(more)) {
      var i :| 0 <= i < |kids| && n in Nodes(kids[i]);
      assert more[i] == kids[i];
    }
    assert more[|kids|] == kid;
  }

  lemma {:induction false} ApartSnoc(kids: seq<Tree>, kid: Tree)
    requires Apart(ListOf(kids)) && Apart(kid) && Nodes(kid) !! Nodes(ListOf(kids))
    ensures Apart(ListOf(kids + [kid]))
  {
  }

  lemma {:induction false} ElemAdded(h: Store, h': Store, all: set<Node>, items: seq<Value>, xs: seq<Json>, kids: seq<Tree>,
                                     item: Value, kid: Tree)
    requires ElemsSoFar(h, all, items, xs, kids) && |kids| < |xs| && Same(h, h', all)
    requires Apart(kid) && Nodes(kid) !! all && Means(h', item, xs[|kids|], kid)
    ensures ElemsSoFar(h', all + Nodes(kid), items + [item], xs, kids + [kid])
  {
    NodesSnoc(kids, kid);
    ApartSnoc(kids, kid);
    forall i | 0 <= i < |kids| ensures Means(h', items[i], xs[i], kids[i]) {
      MeansStays(h, h', items[i], xs[i], kids[i]);
    }
  }

  method DecodeElems(xs: seq<Json>, ghost j: Json) returns (v: Value, ghost t: Tree)
    requires j == Arr(xs)
    ensures fresh(Nodes(t)) && Apart(t) && Means(Snap(Nodes(t)), v, j, t)
    decreases j, 0
  {
    var items: seq<Value> := [];
    ghost var kids: seq<Tree> := [];
    ghost var all: set<Node> := {};
    for i := 0 to |xs|
      invariant |items| == i && fresh(all) && ElemsSoFar(Snap(all), all, items, xs, kids)
    {
      ghost var before := Snap(all);
      var item, kid := Decode(xs[i]);
      ghost var more := all + Nodes(kid);
      MeansStays(Snap(Nodes(kid)), Snap(more), item, xs[i], kid);
      ElemAdded(before, Snap(more), all, items, xs, kids, item, kid);
      items, kids, all := items + [item], kids + [kid], more;
    }
    v, t := List(items), ListOf(kids);
  }

  /** The fields decoded so far, over the nodes `all`. */
  ghost predicate FieldsSoFar(h: Store, all: set<Node>, fields: map<string, Value>, m: map<string, Json>, entries: map<string, Tree>) {
    && fields.Keys == entries.Keys <= m.Keys
    && (forall k :: k in entries ==> Apart(entries[k]) && Nodes(entries[k]) <= all)
    && (forall n :: n in all ==> exists k :: k in entries && n in Nodes(entries[k]))
    && (forall k, l :: k in entries && l in entries && k != l ==> Nodes(entries[k]) !! Nodes(entries[l]))
    && (forall k :: k in entries ==> Means(h, fields[k], m[k], entries[k]))
  }

  lemma {:induction false} FieldAdded(h: Store, h': Store, all: set<Node>, fields: map<string, Value>, m: map<string, Json>,
                                      entries: map<string, Tree>, k: string, item: Value, kid: Tree)
    requires FieldsSoFar(h, all, fields, m, entries) && k in m && k !in entries && Same(h, h', all)
    requires Apart(kid) && Nodes(kid) !! all && Means(h', item, m[k], kid)
    ensures FieldsSoFar(h', all + Nodes(kid), fields[k := item], m, entries[k := kid])
  {
    var more := entries[k := kid];
    forall l | l in entries ensures Means(h', fields[l], m[l], entries[l]) {
      MeansStays(h, h', fields[l], m[l], entries[l]);
    }
    CoverGrows(all, entries, k, kid);
    forall l, o | l in more && o in more && l != o ensures Nodes(more[l]) !! Nodes(more[o]) {
      if l == k {
        assert Nodes(entries[o]) <= all;
      } else if o == k {
        assert Nodes(entries[l]) <= all;
      }
    }
  }

  lemma {:induction false} CoverGrows(all: set<Node>, entries: map<string, Tree>, k: string, kid: Tree)
    requires k !in entries && forall n :: n in all ==> exists l :: l in entries && n in Nodes(entries[l])
    ensures var more := entries[k := kid];
      forall n :: n in all + Nodes(kid) ==> exists l :: l in more && n in Nodes(more[l])
  {
    var more := entries[k := kid];
    forall n | n in all + Nodes(kid) ensures exists l :: l in more && n in Nodes(more[l]) {
      if n in all {
        var l :| l in entries && n in Nodes(entries[l]);
        assert n in Nodes(more[l]);
      } else {
        assert n in Nodes(more[k]);
      }
    }
  }

  /** A new node over the decoded fields. */
  lemma {:induction false} NodeAdded(h: Store, h': Store, all: set<Node>, fields: map<string, Value>, m: map<string, Json>,
                                     entries: map<string, Tree>, node: Node)
    requires FieldsSoFar(h, all, fields, m, entries) && fields.Keys == m.Keys && Same(h, h', all)
    requires node !in all && node in h' && h'[node] == fields
    ensures Nodes(NodeOf(node, entries)) == all + {node}
    ensures Apart(NodeOf(node, entries)) && Means(h', Ref(node), Obj(m), NodeOf(node, entries))
  {
    forall l | l in entries ensures Means(h', fields[l], m[l], entries[l]) {
      MeansStays(h, h', fields[l], m[l], entries[l]);
    }
    assert Nodes(NodeOf(node, entries)) == all + {node};
  }

  /** One more field. */
  method DecodeField(k: string, fields: map<string, Value>, m: map<string, Json>, ghost j: Json,
                     ghost entries: map<string, Tree>, ghost all: set<Node>)
    returns (item: Value, ghost kid: Tree)
    requires j == Obj(m) && k in m && k !in entries && FieldsSoFar(Snap(all), all, fields, m, entries)
    ensures fresh(Nodes(kid)) && FieldsSoFar(Snap(all + Nodes(kid)), all + Nodes(kid), fields[k := item], m, entries[k := kid])
    decreases j, 0
  {
    ghost var before := Snap(all);
    item, kid := Decode(m[k]);
    ghost var after := Snap(all + Nodes(kid));
    MeansStays(Snap(Nodes(kid)), after, item, m[k], kid);
    FieldAdded(before, after, all, fields, m, entries, k, item, kid);
  }

  /** All fields. */
  method DecodeEntries(m: map<string, Json>, ghost j: Json)
    returns (fields: map<string, Value>, ghost entries: map<string, Tree>, ghost all: set<Node>)
    requires j == Obj(m)
    ensures fields.Keys == m.Keys && fresh(all) && FieldsSoFar(Snap(all), all, fields, m, entries)
    decreases j, 1
  {
    fields, entries, all := map[], map[], {};
    var todo := m.Keys;
    while todo != {}
      invariant todo <= m.Keys && fields.Keys == m.Keys - todo && fresh(all)
      invariant FieldsSoFar(Snap(all), all, fields, m, entries)
      decreases todo
    {
      var k :| k in todo;
      var item, kid := DecodeField(k, fields, m, j, entries, all);
      fields, entries, all, todo := fields[k := item], entries[k := kid], all + Nodes(kid), todo - {k};
    }
  }

  method DecodeFields(m: map<string, Json>, ghost j: Json) returns (v: Value, ghost t: Tree)
    requires j == Obj(m)
    ensures fresh(Nodes(t)) && Apart(t) && Means(Snap(Nodes(t)), v, j, t)
    decreases j, 2
  {
    var fields;
    ghost var entries, all;
    fields, entries, all := DecodeEntries(m, j);
    ghost var before := Snap(all);
    var node := new Node(fields);
    NodeAdded(before, Snap(all + {node}), all, fields, m, entries, node);
    v, t := Ref(node), NodeOf(node, entries);
  }

  /** The document a value stands for. */
  method Encode(v: Value, ghost j: Json, ghost t: Tree, ghost all: set<Node>) returns (out: Json)
    requires Nodes(t) <= all && Means(Snap(all), v, j, t)
    ensures out == j
    decreases t, 1
  {
    match v
    case Scalar(a) => out := a;
    case List(items) =>
      var elems: seq<Json> := [];
      for i := 0 to |items|
        invariant elems == j.elems[..i]
      {
        assert Nodes(t.kids[i]) <= Nodes(t);
        var e := Encode(items[i], j.elems[i], t.kids[i], all);
        elems := elems + [e];
      }
      out := Arr(elems);
    case Ref(node) =>
      var fields: map<string, Json> := map[];
      var todo := node.fields.Keys;
      while todo != {}
        invariant todo <= j.fields.Keys && fields.Keys == j.fields.Keys - todo
        invariant forall k :: k in fields ==> fields[k] == j.fields[k]
        decreases todo
      {
        var k :| k in todo;
        EntryNodes(t, k);
        var e := Encode(node.fields[k], j.fields[k], t.entries[k], all);
        fields, todo := fields[k := e], todo - {k};
      }
      out := Obj(fields);
      assert fields == j.fields;
  }

  /** Decode, scrub in place, encode: on documents the walk is the scrub, and the flag says whether it changed anything. */
  method ScrubDocument(j: Json, deny: set<string>) returns (out: Json, changed: bool)
    ensures out == Scrubbed(j, deny)
    ensures changed <==> out != j
  {
    var v, t := Decode(j);
    changed := ScrubJSONB(v, j, t, Nodes(t), deny);
    if !changed {
      return j, false;
    }
    PrunedNodes(t, deny);
    out := Encode(v, Scrubbed(j, deny), Pruned(t, deny), Nodes(t));
  }
}
