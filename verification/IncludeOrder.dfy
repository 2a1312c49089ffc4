/** What an expansion consists of: the plain sections of the include tree, once each, in the order of their places. */
module IncludeOrder {
  import opened Common
  import opened Json
  import opened Includes

  /** A plain section of the tree and the key whose payload holds it. */
  datatype Leaf = Leaf(section: Json, key: string)

  /**
   The plain section at a place below some items: a place is the index of an item and, if that is a directive, a place
   below what it names.
   */
  function LeafIn(loader: Loader, key: string, items: seq<Json>, place: seq<nat>, depth: nat): Option<Leaf>
    decreases |place|, 0
  {
    if place == [] || depth == 0 || place[0] >= |items| then None
    else
      var item := items[place[0]];
      if IsDirective(item) then LeafAt(loader, KeyOf(item), place[1..], depth - 1)
      else if item.Obj? && |place| == 1 then Some(Leaf(item, key))
      else None
  }

  function LeafAt(loader: Loader, key: string, place: seq<nat>, depth: nat): Option<Leaf>
    decreases |place|, 1
  {
    match loader(key)
    case Some(Arr(items)) => LeafIn(loader, key, items, place, depth)
    case Some(Obj(m)) => LeafIn(loader, key, [Obj(m)], place, depth)
    case _ => None
  }

  /** The first index that differs is smaller. */
  predicate Earlier(p: seq<nat>, q: seq<nat>) {
    p != [] && q != [] && (p[0] < q[0] || (p[0] == q[0] && Earlier(p[1..], q[1..])))
  }

  predicate Ascending(places: seq<seq<nat>>) { forall i, j :: 0 <= i < j < |places| ==> Earlier(places[i], places[j]) }

  /** The section as it comes out: its id behind the key, "anon" if it has none, and every other field as it was. */
  ghost predicate Renamed(out: Json, leaf: Leaf) {
    && out.Obj? && leaf.section.Obj?
    && var fields := leaf.section.fields;
    && out.fields.Keys == fields.Keys + {"id"}
    && (forall f :: f in fields && f != "id" ==> out.fields[f] == fields[f])
    && out.fields["id"] == Str(leaf.key + ":" + if "id" in fields && fields["id"].Str? && fields["id"].s != "" then fields["id"].s else "anon")
  }

  /** `out` is the sections at `places`, which are all there are below the items, in order. */
  ghost predicate Lists(loader: Loader, key: string, items: seq<Json>, depth: nat, out: seq<Json>, places: seq<seq<nat>>) {
    && |places| == |out| && Ascending(places)
    && (forall i :: 0 <= i < |out| ==>
         var leaf := LeafIn(loader, key, items, places[i], depth); leaf.Some? && Renamed(out[i], leaf.value))
    && (forall p :: LeafIn(loader, key, items, p, depth).Some? ==> p in places)
  }

  /** Places below a directive, seen from the items it stands among. */
  function Below(n: nat, places: seq<seq<nat>>): seq<seq<nat>> { seq(|places|, i requires 0 <= i < |places| => [n] + places[i]) }

  lemma {:induction false} LeafInPrefix(loader: Loader, key: string, items: seq<Json>, n: nat, place: seq<nat>, depth: nat)
    requires n <= |items|
    ensures LeafIn(loader, key, items[..n], place, depth) ==
      if place != [] && place[0] < n then LeafIn(loader, key, items, place, depth) else None
  {
  }

  /** The last item in order: a directive's own sections, or the one section it is. */
  ghost predicate ListsItem(loader: Loader, key: string, item: Json, depth: nat, out: seq<Json>, own: seq<seq<nat>>)
    requires depth > 0
  {
    && |own| == |out| && Ascending(own)
    && if IsDirective(item) then
         && (forall i :: 0 <= i < |out| ==>
              LeafAt(loader, KeyOf(item), own[i], depth - 1).Some? && Renamed(out[i], LeafAt(loader, KeyOf(item), own[i], depth - 1).value))
         && (forall p :: LeafAt(loader, KeyOf(item), p, depth - 1).Some? ==> p in own)
       else item.Obj? && own == [[]] && Renamed(out[0], Leaf(item, key))
  }

  lemma InBelow(n: nat, own: seq<seq<nat>>, place: seq<nat>)
    requires place != [] && place[0] == n && place[1..] in own
    ensures place in Below(n, own)
  {
    assert place == [n] + place[1..];
    var i :| 0 <= i < |own| && own[i] == place[1..];
    assert Below(n, own)[i] == place;
  }

  lemma BelowAt(n: nat, own: seq<seq<nat>>, i: nat)
    requires i < |own|
    ensures var p := Below(n, own)[i]; p != [] && p[0] == n && p[1..] == own[i]
  {
  }

  lemma AscendingJoin(n: nat, fore: seq<seq<nat>>, own: seq<seq<nat>>)
    requires Ascending(fore) && Ascending(own) && forall i :: 0 <= i < |fore| ==> fore[i] != [] && fore[i][0] < n
    ensures Ascending(fore + Below(n, own))
  {
    var places := fore + Below(n, own);
    forall i, j | 0 <= i < j < |places| ensures Earlier(places[i], places[j]) {
      if i >= |fore| {
        BelowAt(n, own, i - |fore|);
      }
      if j >= |fore| {
        BelowAt(n, own, j - |fore|);
      }
    }
  }

  /** A place in the last item. */
  lemma LeafInLast(loader: Loader, key: string, items: seq<Json>, depth: nat, place: seq<nat>)
    requires items != [] && depth > 0 && place != [] && place[0] == |items| - 1
    ensures var item := items[|items| - 1];
      LeafIn(loader, key, items, place, depth) ==
        if IsDirective(item) then LeafAt(loader, KeyOf(item), place[1..], depth - 1)
        else if item.Obj? && place[1..] == [] then Some(Leaf(item, key)) else None
  {
  }

  /** The sections of the last item join those of the items before it. */
  lemma ListsJoin(loader: Loader, key: string, items: seq<Json>, depth: nat, before: seq<Json>, fore: seq<seq<nat>>,
                  last: seq<Json>, own: seq<seq<nat>>)
    requires items != [] && depth > 0
    requires Lists(loader, key, items[..|items| - 1], depth, before, fore)
    requires ListsItem(loader, key, items[|items| - 1], depth, last, own)
    ensures Lists(loader, key, items, depth, before + last, fore + Below(|items| - 1, own))
  {
    var n := |items| - 1;
    var places := fore + Below(n, own);
    forall i | 0 <= i < |fore|
      ensures fore[i] != [] && fore[i][0] < n && LeafIn(loader, key, items, fore[i], depth) == LeafIn(loader, key, items[..n], fore[i], depth)
    {
      LeafInPrefix(loader, key, items, n, fore[i], depth);
    }
    AscendingJoin(n, fore, own);
    forall i | 0 <= i < |places|
      ensures var leaf := LeafIn(loader, key, items, places[i], depth); leaf.Some? && Renamed((before + last)[i], leaf.value)
    {
      if i >= |fore| {
        BelowAt(n, own, i - |fore|);
        LeafInLast(loader, key, items, depth, places[i]);
      }
    }
    forall p | LeafIn(loader, key, items, p, depth).Some? ensures p in places {
      LeafInPrefix(loader, key, items, n, p, depth);
      if p[0] == n {
        LeafInLast(loader, key, items, depth, p);
        InBelow(n, own, p);
      }
    }
  }

  lemma {:induction false} ItemsInOrder(loader: Loader, key: string, items: seq<Json>, depth: nat) returns (places: seq<seq<nat>>)
    requires depth > 0 && FlattenItems(loader, key, items, depth).Some?
    ensures Lists(loader, key, items, depth, FlattenItems(loader, key, items, depth).value, places)
    decreases depth, 0, |items|
  {
    if items == [] {
      places := [];
    } else {
      var n := |items| - 1;
      var fore := ItemsInOrder(loader, key, items[..n], depth);
      var own: seq<seq<nat>> := [[]];
      if IsDirective(items[n]) {
        own := FlattenInOrder(loader, KeyOf(items[n]), depth - 1);
      }
      places := fore + Below(n, own);
      ListsJoin(loader, key, items, depth, FlattenItems(loader, key, items[..n], depth).value, fore,
                FlattenItem(loader, key, items[n], depth).value, own);
    }
  }

  /** What a key expands to is the plain sections of its tree, once each, in the order of their places, renamed and otherwise unchanged. */
  lemma {:induction false} FlattenInOrder(loader: Loader, key: string, depth: nat) returns (places: seq<seq<nat>>)
    requires Flatten(loader, key, depth).Some?
    ensures var out := Flatten(loader, key, depth).value;
      && |places| == |out| && Ascending(places)
      && (forall i :: 0 <= i < |out| ==>
           LeafAt(loader, key, places[i], depth).Some? && Renamed(out[i], LeafAt(loader, key, places[i], depth).value))
      && (forall p :: LeafAt(loader, key, p, depth).Some? ==> p in places)
    decreases depth, 1, 0
  {
    places := ItemsInOrder(loader, key, Items(loader(key).value).value, depth);
  }

  // ---- When a tree expands ----

  /**
   What is wrong at a place: a key that does not load, or loads no array, object or null, or lies too deep; or an item
   that is no object.
   */
  predicate BadAt(loader: Loader, key: string, place: seq<nat>, depth: nat)
    decreases |place|, 1
  {
    if depth == 0 then place == []
    else
      match loader(key)
      case Some(Arr(items)) => BadIn(loader, items, place, depth)
      case Some(Obj(m)) => BadIn(loader, [Obj(m)], place, depth)
      case Some(Null) => false
      case _ => place == []
  }

  predicate BadIn(loader: Loader, items: seq<Json>, place: seq<nat>, depth: nat)
    requires depth > 0
    decreases |place|, 0
  {
    place != [] && place[0] < |items| &&
    if IsDirective(items[place[0]]) then BadAt(loader, KeyOf(items[place[0]]), place[1..], depth - 1)
    else |place| == 1 && !items[place[0]].Obj?
  }

  ghost predicate Bad(loader: Loader, key: string, depth: nat) { exists p :: BadAt(loader, key, p, depth) }

  ghost predicate BadItems(loader: Loader, items: seq<Json>, depth: nat)
    requires depth > 0
  {
    exists p :: BadIn(loader, items, p, depth)
  }

  lemma BadLast(loader: Loader, items: seq<Json>, depth: nat)
    requires depth > 0 && items != []
    ensures var last := items[|items| - 1];
      BadItems(loader, items, depth) <==>
        || BadItems(loader, items[..|items| - 1], depth)
        || (if IsDirective(last) then Bad(loader, KeyOf(last), depth - 1) else !last.Obj?)
  {
    var n := |items| - 1;
    var fore, last := items[..n], items[n];
    if p :| BadIn(loader, fore, p, depth) {
      assert BadIn(loader, items, p, depth);
    }
    if IsDirective(last) && Bad(loader, KeyOf(last), depth - 1) {
      var less := depth - 1;
      var p :| BadAt(loader, KeyOf(last), p, less);
      assert ([n] + p)[1..] == p && BadIn(loader, items, [n] + p, depth);
    }
    if !last.Obj? {
      assert BadIn(loader, items, [n], depth);
    }
    if p :| BadIn(loader, items, p, depth) {
      if p[0] < n {
        assert BadIn(loader, fore, p, depth);
      } else if IsDirective(last) {
        assert BadAt(loader, KeyOf(last), p[1..], depth - 1);
      }
    }
  }

  lemma {:induction false} ItemsFailIff(loader: Loader, key: string, items: seq<Json>, depth: nat)
    requires depth > 0
    ensures FlattenItems(loader, key, items, depth).None? <==> BadItems(loader, items, depth)
    decreases depth, 0, |items|
  {
    if items != [] {
      var n := |items| - 1;
      ItemsFailIff(loader, key, items[..n], depth);
      if IsDirective(items[n]) {
        FlattenFailsIff(loader, KeyOf(items[n]), depth - 1);
      }
      BadLast(loader, items, depth);
    }
  }

  lemma BadLoad(loader: Loader, key: string, depth: nat)
    ensures Bad(loader, key, depth) <==>
      depth == 0 || match loader(key)
        case Some(Arr(items)) => BadItems(loader, items, depth)
        case Some(Obj(m)) => BadItems(loader, [Obj(m)], depth)
        case Some(Null) => false
        case _ => true
  {
    if depth == 0 {
      assert BadAt(loader, key, [], depth);
    } else {
      match loader(key)
      case Some(Arr(items)) =>
        if p :| BadIn(loader, items, p, depth) {
          assert BadAt(loader, key, p, depth);
        }
        if p :| BadAt(loader, key, p, depth) {
          assert BadIn(loader, items, p, depth);
        }
      case Some(Obj(m)) =>
        if p :| BadIn(loader, [Obj(m)], p, depth) {
          assert BadAt(loader, key, p, depth);
        }
        if p :| BadAt(loader, key, p, depth) {
          assert BadIn(loader, [Obj(m)], p, depth);
        }
      case Some(Null) =>
      case _ => assert BadAt(loader, key, [], depth);
    }
  }

  /** A key fails to expand, within a depth, exactly when something is wrong at some place of its tree. */
  lemma {:induction false} FlattenFailsIff(loader: Loader, key: string, depth: nat)
    ensures Flatten(loader, key, depth).None? <==> Bad(loader, key, depth)
    decreases depth, 1, 0
  {
    BadLoad(loader, key, depth);
    if depth > 0 {
      match loader(key)
      case Some(Arr(items)) => ItemsFailIff(loader, key, items, depth);
      case Some(Obj(m)) => ItemsFailIff(loader, key, [Obj(m)], depth);
      case _ =>
    }
  }

  // ---- Whole section lists ----

  /** A section of the list that stays as it is, or one that a directive of the list brings in. */
  datatype Origin = Own(section: Json) | Included(leaf: Leaf)

  function OriginAt(loader: Loader, sections: seq<Json>, place: seq<nat>): Option<Origin> {
    if place == [] || place[0] >= |sections| then None
    else
      var section := sections[place[0]];
      if !IsDirective(section) then (if |place| == 1 then Some(Own(section)) else None)
      else
        var leaf := LeafAt(loader, KeyOf(section), place[1..], MAX_DEPTH);
        if leaf.Some? then Some(Included(leaf.value)) else None
  }

  ghost predicate ComesFrom(out: Json, origin: Option<Origin>) {
    match origin
    case Some(Own(section)) => out == section
    case Some(Included(leaf)) => Renamed(out, leaf)
    case None => false
  }

  ghost predicate ListsAll(loader: Loader, sections: seq<Json>, out: seq<Json>, places: seq<seq<nat>>) {
    && |places| == |out| && Ascending(places)
    && (forall i :: 0 <= i < |out| ==> Stands(loader, sections, out[i], places[i]))
    && (forall p :: IsPlace(loader, sections, p) ==> p in places)
  }

  ghost predicate Stands(loader: Loader, sections: seq<Json>, out: Json, place: seq<nat>) {
    ComesFrom(out, OriginAt(loader, sections, place))
  }

  predicate IsPlace(loader: Loader, sections: seq<Json>, place: seq<nat>) { OriginAt(loader, sections, place).Some? }

  /** The expanded list is the list's own sections, unchanged, and at each directive the sections of its tree; nothing else, in order. */
  lemma {:induction false} ExpansionInOrder(loader: Loader, sections: seq<Json>) returns (places: seq<seq<nat>>)
    requires forall i :: 0 <= i < |sections| ==> TopOk(loader, sections[i])
    ensures ListsAll(loader, sections, Expansion(loader, sections), places)
  {
    if sections == [] {
      places := [];
    } else {
      var n := |sections| - 1;
      var fore := ExpansionInOrder(loader, sections[..n]);
      var last, own: seq<seq<nat>> := [sections[n]], [[]];
      if IsDirective(sections[n]) {
        assert TopOk(loader, sections[n]);
        own := FlattenInOrder(loader, KeyOf(sections[n]), MAX_DEPTH);
        last := Flatten(loader, KeyOf(sections[n]), MAX_DEPTH).value;
      }
      places := fore + Below(n, own);
      SectionJoins(loader, sections, Expansion(loader, sections[..n]), fore, last, own);
    }
  }

  ghost predicate ListsSection(loader: Loader, section: Json, out: seq<Json>, own: seq<seq<nat>>) {
    && Ascending(own) && |own| == |out|
    && if IsDirective(section) then
         && (forall i :: 0 <= i < |own| ==>
              var leaf := LeafAt(loader, KeyOf(section), own[i], MAX_DEPTH); leaf.Some? && Renamed(out[i], leaf.value))
         && (forall p :: LeafAt(loader, KeyOf(section), p, MAX_DEPTH).Some? ==> p in own)
       else own == [[]] && out == [section]
  }

  lemma OriginInPrefix(loader: Loader, sections: seq<Json>, n: nat, place: seq<nat>)
    requires n <= |sections|
    ensures OriginAt(loader, sections[..n], place) == if place != [] && place[0] < n then OriginAt(loader, sections, place) else None
  {
  }

  lemma OriginInLast(loader: Loader, sections: seq<Json>, place: seq<nat>)
    requires sections != [] && place != [] && place[0] == |sections| - 1
    ensures var section := sections[|sections| - 1];
      OriginAt(loader, sections, place) ==
        if IsDirective(section) then
          var leaf := LeafAt(loader, KeyOf(section), place[1..], MAX_DEPTH);
          if leaf.Some? then Some(Included(leaf.value)) else None
        else if place[1..] == [] then Some(Own(section)) else None
  {
  }

  /** The places of the sections before the last are places of the whole list. */
  lemma ForePlaces(loader: Loader, sections: seq<Json>, before: seq<Json>, fore: seq<seq<nat>>)
    requires sections != [] && ListsAll(loader, sections[..|sections| - 1], before, fore)
    ensures forall i :: 0 <= i < |fore| ==> fore[i] != [] && fore[i][0] < |sections| - 1 && Stands(loader, sections, before[i], fore[i])
    ensures forall p :: IsPlace(loader, sections, p) && p[0] < |sections| - 1 ==> p in fore
  {
    var n := |sections| - 1;
    forall i | 0 <= i < |fore| ensures fore[i] != [] && fore[i][0] < n && Stands(loader, sections, before[i], fore[i]) {
      assert Stands(loader, sections[..n], before[i], fore[i]);
      OriginInPrefix(loader, sections, n, fore[i]);
    }
    forall p | IsPlace(loader, sections, p) && p[0] < n ensures p in fore {
      OriginInPrefix(loader, sections, n, p);
      assert IsPlace(loader, sections[..n], p);
    }
  }

  /** And so are those of the last one. */
  lemma LastPlaces(loader: Loader, sections: seq<Json>, last: seq<Json>, own: seq<seq<nat>>)
    requires sections != [] && ListsSection(loader, sections[|sections| - 1], last, own)
    ensures var places := Below(|sections| - 1, own);
      && (forall i :: 0 <= i < |own| ==> Stands(loader, sections, last[i], places[i]))
      && (forall p :: IsPlace(loader, sections, p) && p[0] == |sections| - 1 ==> p in places)
  {
    var n := |sections| - 1;
    forall i | 0 <= i < |own| ensures Stands(loader, sections, last[i], Below(n, own)[i]) {
      BelowAt(n, own, i);
      OriginInLast(loader, sections, Below(n, own)[i]);
    }
    forall p | IsPlace(loader, sections, p) && p[0] == n ensures p in Below(n, own) {
      OriginInLast(loader, sections, p);
      InBelow(n, own, p);
    }
  }

  lemma PlaceInRange(loader: Loader, sections: seq<Json>, p: seq<nat>)
    requires IsPlace(loader, sections, p)
    ensures p != [] && p[0] <= |sections| - 1
  {
  }

  /** Each section of two lists put together stands at its place, whatever that means. */
  lemma JoinStands(stands: (Json, seq<nat>) -> bool, before: seq<Json>, fore: seq<seq<nat>>, last: seq<Json>, below: seq<seq<nat>>)
    requires |before| == |fore| && |last| == |below|
    requires forall i :: 0 <= i < |fore| ==> stands(before[i], fore[i])
    requires forall i :: 0 <= i < |below| ==> stands(last[i], below[i])
    ensures forall i :: 0 <= i < |fore + below| ==> stands((before + last)[i], (fore + below)[i])
  {
  }

  lemma SectionJoins(loader: Loader, sections: seq<Json>, before: seq<Json>, fore: seq<seq<nat>>, last: seq<Json>, own: seq<seq<nat>>)
    requires sections != [] && ListsSection(loader, sections[|sections| - 1], last, own)
    requires ListsAll(loader, sections[..|sections| - 1], before, fore)
    ensures ListsAll(loader, sections, before + last, fore + Below(|sections| - 1, own))
  {
    var below := Below(|sections| - 1, own);
    var stands := (out, place) => Stands(loader, sections, out, place);
    ForePlaces(loader, sections, before, fore);
    LastPlaces(loader, sections, last, own);
    AscendingJoin(|sections| - 1, fore, own);
    JoinStands(stands, before, fore, last, below);
    assert forall i :: 0 <= i < |fore + below| ==> stands((before + last)[i], (fore + below)[i]);
    forall p | IsPlace(loader, sections, p) ensures p in fore + below {
      PlaceInRange(loader, sections, p);
    }
  }
}
