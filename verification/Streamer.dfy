/** The streaming writer of a user's data export, against a plain serializer (RFC 8259, sections 4 and 5). */
module Streamer {
  import opened Common

  // ---- Documents and their plain text ----

  datatype Scalar = Null | Bool(b: bool) | Num(n: real) | Str(s: string)

  /** A JSON document; members keep their order. */
  datatype Node = Leaf(a: Scalar) | Obj(members: Members) | Arr(elems: Elems)
  datatype Members = NoMembers | Member(key: string, value: Node, rest: Members)
  datatype Elems = NoElems | Elem(value: Node, rest: Elems)

  datatype Token = LBrace | RBrace | LBracket | RBracket | Comma | Colon | Lit(a: Scalar)

  function Separator(first: bool): seq<Token> { if first then [] else [Comma] }

  function Serialize(n: Node): seq<Token> {
    match n
    case Leaf(a) => [Lit(a)]
    case Obj(ms) => [LBrace] + SerializeMembers(ms, true) + [RBrace]
    case Arr(es) => [LBracket] + SerializeElems(es, true) + [RBracket]
  }

  function SerializeMembers(ms: Members, first: bool): seq<Token> {
    match ms
    case NoMembers => []
    case Member(k, v, rest) => Separator(first) + [Lit(Str(k)), Colon] + Serialize(v) + SerializeMembers(rest, false)
  }

  function SerializeElems(es: Elems, first: bool): seq<Token> {
    match es
    case NoElems => []
    case Elem(v, rest) => Separator(first) + Serialize(v) + SerializeElems(rest, false)
  }

  // ---- The grammar, read back ----

  type Parsed<T> = Option<(T, seq<Token>)>

  function ParseValue(ts: seq<Token>): (r: Parsed<Node>)
    ensures r.Some? ==> |r.value.1| < |ts|
    decreases |ts|, 0
  {
    if ts == [] then None
    else match ts[0]
      case Lit(a) => Some((Leaf(a), ts[1..]))
      case LBrace =>
        if |ts| > 1 && ts[1] == RBrace then Some((Obj(NoMembers), ts[2..]))
        else var r := ParseMembers(ts[1..]); if r.Some? then Some((Obj(r.value.0), r.value.1)) else None
      case LBracket =>
        if |ts| > 1 && ts[1] == RBracket then Some((Arr(NoElems), ts[2..]))
        else var r := ParseElems(ts[1..]); if r.Some? then Some((Arr(r.value.0), r.value.1)) else None
      case _ => None
  }

  /** One member or more, up to the closing brace. */
  function ParseMembers(ts: seq<Token>): (r: Parsed<Members>)
    ensures r.Some? ==> |r.value.1| < |ts|
    decreases |ts|, 1
  {
    if |ts| > 1 && ts[0].Lit? && ts[0].a.Str? && ts[1] == Colon then
      var v := ParseValue(ts[2..]);
      if v.None? || v.value.1 == [] then None
      else if v.value.1[0] == RBrace then Some((Member(ts[0].a.s, v.value.0, NoMembers), v.value.1[1..]))
      else if v.value.1[0] == Comma then
        var r := ParseMembers(v.value.1[1..]);
        if r.Some? then Some((Member(ts[0].a.s, v.value.0, r.value.0), r.value.1)) else None
      else None
    else None
  }

  /** One element or more, up to the closing bracket. */
  function ParseElems(ts: seq<Token>): (r: Parsed<Elems>)
    ensures r.Some? ==> |r.value.1| < |ts|
    decreases |ts|, 1
  {
    var v := ParseValue(ts);
    if v.None? || v.value.1 == [] then None
    else if v.value.1[0] == RBracket then Some((Elem(v.value.0, NoElems), v.value.1[1..]))
    else if v.value.1[0] == Comma then
      var r := ParseElems(v.value.1[1..]);
      if r.Some? then Some((Elem(v.value.0, r.value.0), r.value.1)) else None
    else None
  }

  /** A value's text does not start with a closing token. */
  lemma {:induction false} OpensValue(n: Node)
    ensures Serialize(n) != [] && Serialize(n)[0] != RBracket
  {
  }

  /** The first member apart from the others. */
  lemma {:induction false} MembersText(ms: Members, tail: seq<Token>)
    requires ms.Member?
    ensures SerializeMembers(ms, true) + tail == [Lit(Str(ms.key)), Colon] + (Serialize(ms.value) + (SerializeMembers(ms.rest, false) + tail))
    ensures SerializeMembers(ms, false) + tail == [Comma] + (SerializeMembers(ms, true) + tail)
  {
  }

  lemma {:induction false} ElemsText(es: Elems, tail: seq<Token>)
    requires es.Elem?
    ensures SerializeElems(es, true) + tail == Serialize(es.value) + (SerializeElems(es.rest, false) + tail)
    ensures SerializeElems(es, false) + tail == [Comma] + (SerializeElems(es, true) + tail)
  {
  }

  lemma {:induction false} ParseSerializeObject(ms: Members, rest: seq<Token>)
    requires ms != NoMembers ==> ParseMembers(SerializeMembers(ms, true) + ([RBrace] + rest)) == Some((ms, rest))
    ensures ParseValue(Serialize(Obj(ms)) + rest) == Some((Obj(ms), rest))
  {
    var inner := SerializeMembers(ms, true) + ([RBrace] + rest);
    assert Serialize(Obj(ms)) + rest == [LBrace] + inner;
    if ms == NoMembers {
      assert [LBrace] + inner == [LBrace, RBrace] + rest;
    } else {
      MembersText(ms, [RBrace] + rest);
      assert inner[0] == Lit(Str(ms.key));
    }
  }

  lemma {:induction false} ParseSerializeArray(es: Elems, rest: seq<Token>)
    requires es != NoElems ==> ParseElems(SerializeElems(es, true) + ([RBracket] + rest)) == Some((es, rest))
    ensures ParseValue(Serialize(Arr(es)) + rest) == Some((Arr(es), rest))
  {
    var inner := SerializeElems(es, true) + ([RBracket] + rest);
    assert Serialize(Arr(es)) + rest == [LBracket] + inner;
    if es == NoElems {
      assert [LBracket] + inner == [LBracket, RBracket] + rest;
    } else {
      ElemsText(es, [RBracket] + rest);
      OpensValue(es.value);
      assert inner[0] == Serialize(es.value)[0];
    }
  }

  /** Parsing undoes serializing, whatever follows. */
  lemma {:induction false} ParseSerialize(n: Node, rest: seq<Token>)
    ensures ParseValue(Serialize(n) + rest) == Some((n, rest))
    decreases n
  {
    match n
    case Leaf(a) =>
      assert (Serialize(n) + rest)[1..] == rest;
    case Obj(ms) =>
      if ms != NoMembers {
        ParseSerializeMembers(ms, rest);
      }
      ParseSerializeObject(ms, rest);
    case Arr(es) =>
      if es != NoElems {
        ParseSerializeElems(es, rest);
      }
      ParseSerializeArray(es, rest);
  }

  lemma {:induction false} ParseSerializeMembers(ms: Members, rest: seq<Token>)
    requires ms != NoMembers
    ensures ParseMembers(SerializeMembers(ms, true) + ([RBrace] + rest)) == Some((ms, rest))
    decreases ms
  {
    var tail := [RBrace] + rest;
    var after := SerializeMembers(ms.rest, false) + tail;
    MembersText(ms, tail);
    ParseSerialize(ms.value, after);
    if ms.rest == NoMembers {
      assert after == tail && tail[1..] == rest;
    } else {
      MembersText(ms.rest, tail);
      assert after[1..] == SerializeMembers(ms.rest, true) + tail;
      ParseSerializeMembers(ms.rest, rest);
    }
  }

  lemma {:induction false} ParseSerializeElems(es: Elems, rest: seq<Token>)
    requires es != NoElems
    ensures ParseElems(SerializeElems(es, true) + ([RBracket] + rest)) == Some((es, rest))
    decreases es
  {
    var tail := [RBracket] + rest;
    var after := SerializeElems(es.rest, false) + tail;
    ElemsText(es, tail);
    ParseSerialize(es.value, after);
    if es.rest == NoElems {
      assert after == tail && tail[1..] == rest;
    } else {
      ElemsText(es.rest, tail);
      assert after[1..] == SerializeElems(es.rest, true) + tail;
      ParseSerializeElems(es.rest, rest);
    }
  }

  // ---- The sink ----

  /** What a sequence of calls tries to write; `refused` when it stops at a value that does not marshal. */
  datatype Out = Out(text: seq<Token>, refused: bool)

  function Then(a: Out, b: Out): Out { if a.refused then a else Out(a.text + b.text, b.refused) }

  function Plain(text: seq<Token>): Out { Out(text, false) }

  /** Everything written so far, how much more the writer takes before it fails, and the sticky error. */
  datatype Sink = Sink(written: seq<Token>, room: nat, failed: bool)

  function Emit(s: Sink, o: Out): Sink {
    if s.failed then s
    else if |o.text| <= s.room then Sink(s.written + o.text, s.room - |o.text|, o.refused)
    else Sink(s.written + o.text[..s.room], 0, true)
  }

  /** Errors are sticky, so two writes in a row are one write of both texts. */
  lemma EmitThen(s: Sink, a: Out, b: Out)
    ensures Emit(Emit(s, a), b) == Emit(s, Then(a, b))
  {
    if !s.failed && !a.refused {
      if |a.text| <= s.room {
        assert s.written + a.text + b.text == s.written + (a.text + b.text);
        if |a.text| + |b.text| > s.room {
          assert (a.text + b.text)[..s.room] == a.text + b.text[..s.room - |a.text|];
          assert s.written + a.text + b.text[..s.room - |a.text|] == s.written + (a.text + b.text[..s.room - |a.text|]);
        }
      } else {
        assert (a.text + b.text)[..s.room] == a.text[..s.room];
      }
    }
  }

  lemma ThenAssociates(a: Out, b: Out, c: Out)
    ensures Then(Then(a, b), c) == Then(a, Then(b, c))
  {
  }

  // ---- Documents as they are driven ----

  /** A document as a sequence of calls. A value may be one that json.Marshal refuses. */
  datatype Doc = Value(v: Node, refused: bool) | Object(members: DocMembers) | Array(elems: Docs)
  datatype DocMembers = NoDocMembers | DocMember(key: string, value: Doc, rest: DocMembers)
  datatype Docs = NoDocs | DocElem(value: Doc, rest: Docs)

  /** The document meant. */
  function Tree(d: Doc): Node {
    match d
    case Value(v, _) => v
    case Object(ms) => Obj(TreeMembers(ms))
    case Array(ds) => Arr(TreeElems(ds))
  }

  function TreeMembers(ms: DocMembers): Members {
    match ms case NoDocMembers => NoMembers case DocMember(k, v, rest) => Member(k, Tree(v), TreeMembers(rest))
  }

  function TreeElems(ds: Docs): Elems {
    match ds case NoDocs => NoElems case DocElem(v, rest) => Elem(Tree(v), TreeElems(rest))
  }

  predicate Refuses(d: Doc) {
    match d
    case Value(_, refused) => refused
    case Object(ms) => MembersRefuse(ms)
    case Array(ds) => ElemsRefuse(ds)
  }

  predicate MembersRefuse(ms: DocMembers) { ms.DocMember? && (Refuses(ms.value) || MembersRefuse(ms.rest)) }

  predicate ElemsRefuse(ds: Docs) { ds.DocElem? && (Refuses(ds.value) || ElemsRefuse(ds.rest)) }

  /** What the calls write: only `section` and `arrayElem` know about separators, so a container in an array gets none. */
  function Driven(d: Doc): Out {
    match d
    case Value(v, refused) => if refused then Out([], true) else Plain(Serialize(v))
    case Object(ms) => Then(Plain([LBrace]), Then(DrivenMembers(ms, true), Plain([RBrace])))
    case Array(ds) => Then(Plain([LBracket]), Then(DrivenElems(ds, true), Plain([RBracket])))
  }

  function DrivenMembers(ms: DocMembers, first: bool): Out {
    match ms
    case NoDocMembers => Plain([])
    case DocMember(k, v, rest) =>
      Then(Plain(Separator(first) + [Lit(Str(k)), Colon]), Then(Driven(v), DrivenMembers(rest, false)))
  }

  function DrivenElems(ds: Docs, first: bool): Out {
    match ds
    case NoDocs => Plain([])
    case DocElem(d, rest) =>
      if d.Value? then Then(Plain(Separator(first)), Then(Driven(d), DrivenElems(rest, false)))
      else Then(Driven(d), DrivenElems(rest, first))
  }

  /** An array of two elements or more has only plain values as elements. */
  predicate Disciplined(d: Doc) {
    match d
    case Value(_, _) => true
    case Object(ms) => DisciplinedMembers(ms)
    case Array(ds) => DisciplinedElems(ds) && (Size(ds) >= 2 ==> AllValues(ds))
  }

  predicate DisciplinedMembers(ms: DocMembers) { ms.DocMember? ==> Disciplined(ms.value) && DisciplinedMembers(ms.rest) }

  predicate DisciplinedElems(ds: Docs) { ds.DocElem? ==> Disciplined(ds.value) && DisciplinedElems(ds.rest) }

  predicate AllValues(ds: Docs) { ds.DocElem? ==> ds.value.Value? && AllValues(ds.rest) }

  function Size(ds: Docs): nat { if ds.NoDocs? then 0 else 1 + Size(ds.rest) }

  // ---- Disciplined documents are written as they serialize ----

  /** The text is the serialization, or the part of it before a value that does not marshal. */
  predicate Renders(o: Out, text: seq<Token>, refuses: bool) {
    && o.refused == refuses
    && (if refuses then o.text < text else o.text == text)
  }

  lemma {:induction false} DisciplineRenders(d: Doc)
    requires Disciplined(d)
    ensures Renders(Driven(d), Serialize(Tree(d)), Refuses(d))
    decreases d
  {
    match d
    case Value(v, refused) => OpensValue(v);
    case Object(ms) =>
      var body := SerializeMembers(TreeMembers(ms), true);
      DisciplineRendersMembers(ms, true);
      assert [LBrace] + (body + [RBrace]) == Serialize(Tree(d));
    case Array(ds) =>
      var body := SerializeElems(TreeElems(ds), true);
      DisciplineRendersElems(ds, true);
      assert [LBracket] + (body + [RBracket]) == Serialize(Tree(d));
  }

  lemma {:induction false} DisciplineRendersMembers(ms: DocMembers, first: bool)
    requires DisciplinedMembers(ms)
    ensures Renders(DrivenMembers(ms, first), SerializeMembers(TreeMembers(ms), first), MembersRefuse(ms))
    decreases ms
  {
    if ms.DocMember? {
      var head := Separator(first) + [Lit(Str(ms.key)), Colon];
      var value := Serialize(Tree(ms.value));
      var tail := SerializeMembers(TreeMembers(ms.rest), false);
      DisciplineRenders(ms.value);
      DisciplineRendersMembers(ms.rest, false);
      assert head + (value + tail) == SerializeMembers(TreeMembers(ms), first);
    }
  }

  lemma {:induction false} DisciplineRendersElems(ds: Docs, first: bool)
    requires DisciplinedElems(ds) && (AllValues(ds) || (first && Size(ds) < 2))
    ensures Renders(DrivenElems(ds, first), SerializeElems(TreeElems(ds), first), ElemsRefuse(ds))
    decreases ds
  {
    if ds.DocElem? {
      var head := Separator(first);
      var value := Serialize(Tree(ds.value));
      var tail := SerializeElems(TreeElems(ds.rest), false);
      DisciplineRenders(ds.value);
      assert ds.value.Value? || ds.rest == NoDocs;
      DisciplineRendersElems(ds.rest, false);
      assert head + (value + tail) == SerializeElems(TreeElems(ds), first);
    }
  }

  // ---- And only they are ----

  /** The separators that driving leaves out. */
  function Missing(d: Doc): nat {
    match d
    case Value(_, _) => 0
    case Object(ms) => MissingMembers(ms)
    case Array(ds) => MissingElems(ds, true, true)
  }

  function MissingMembers(ms: DocMembers): nat {
    if ms.DocMember? then Missing(ms.value) + MissingMembers(ms.rest) else 0
  }

  /** `first` is what the frame says; `head` is whether the element really is the first. */
  function MissingElems(ds: Docs, first: bool, head: bool): nat {
    if ds.NoDocs? then 0
    else
      var here := if head || (ds.value.Value? && !first) then 0 else 1;
      here + Missing(ds.value) + MissingElems(ds.rest, first && !ds.value.Value?, false)
  }

  lemma {:induction false} TextGap(d: Doc)
    requires !Refuses(d)
    ensures !Driven(d).refused && |Driven(d).text| + Missing(d) == |Serialize(Tree(d))|
    decreases d
  {
    match d
    case Value(_, _) =>
    case Object(ms) => TextGapMembers(ms, true);
    case Array(ds) => TextGapElems(ds, true, true);
  }

  lemma {:induction false} TextGapMembers(ms: DocMembers, first: bool)
    requires !MembersRefuse(ms)
    ensures !DrivenMembers(ms, first).refused
    ensures |DrivenMembers(ms, first).text| + MissingMembers(ms) == |SerializeMembers(TreeMembers(ms), first)|
    decreases ms
  {
    if ms.DocMember? {
      TextGap(ms.value);
      TextGapMembers(ms.rest, false);
    }
  }

  lemma {:induction false} TextGapElems(ds: Docs, first: bool, head: bool)
    requires !ElemsRefuse(ds) && (head ==> first)
    ensures !DrivenElems(ds, first).refused
    ensures |DrivenElems(ds, first).text| + MissingElems(ds, first, head) == |SerializeElems(TreeElems(ds), head)|
    decreases ds
  {
    if ds.DocElem? {
      TextGap(ds.value);
      TextGapElems(ds.rest, first && !ds.value.Value?, false);
    }
  }

  lemma {:induction false} NothingMissing(d: Doc)
    requires Missing(d) == 0
    ensures Disciplined(d)
    decreases d
  {
    match d
    case Value(_, _) =>
    case Object(ms) => NothingMissingMembers(ms);
    case Array(ds) =>
      NothingMissingElems(ds, true, true);
  }

  lemma {:induction false} NothingMissingMembers(ms: DocMembers)
    requires MissingMembers(ms) == 0
    ensures DisciplinedMembers(ms)
    decreases ms
  {
    if ms.DocMember? {
      NothingMissing(ms.value);
      NothingMissingMembers(ms.rest);
    }
  }

  lemma {:induction false} NothingMissingElems(ds: Docs, first: bool, head: bool)
    requires MissingElems(ds, first, head) == 0
    ensures DisciplinedElems(ds)
    ensures !head ==> AllValues(ds) && (first ==> ds == NoDocs)
    ensures head && first && Size(ds) >= 2 ==> AllValues(ds)
    decreases ds
  {
    if ds.DocElem? {
      NothingMissing(ds.value);
      NothingMissingElems(ds.rest, first && !ds.value.Value?, false);
      if head && first && !ds.value.Value? {
        assert ds.rest == NoDocs && Size(ds) == 1 + Size(ds.rest);
      }
    }
  }

  /** The written text is the document's serialization exactly when no array of two or more holds a container. */
  lemma WritesSerializationIff(d: Doc)
    requires !Refuses(d)
    ensures Driven(d) == Plain(Serialize(Tree(d))) <==> Disciplined(d)
  {
    TextGap(d);
    if Disciplined(d) {
      DisciplineRenders(d);
    } else if Missing(d) == 0 {
      NothingMissing(d);
    }
  }

  // ---- Incomplete texts ----

  /** Brackets opened and not closed. */
  function Depth(ts: seq<Token>): int {
    if ts == [] then 0
    else
      var t := ts[|ts| - 1];
      Depth(ts[..|ts| - 1]) + if t in {LBrace, LBracket} then 1 else if t in {RBrace, RBracket} then -1 else 0
  }

  lemma {:induction false} DepthPlus(a: seq<Token>, b: seq<Token>)
    ensures Depth(a + b) == Depth(a) + Depth(b)
  {
    if b == [] {
      assert a + b == a;
    } else {
      assert (a + b)[..|a + b| - 1] == a + b[..|b| - 1];
      DepthPlus(a, b[..|b| - 1]);
    }
  }

  /** Every prefix of the text closes at most what it opens, and the whole closes all of it. */
  ghost predicate Balanced(ts: seq<Token>) {
    Depth(ts) == 0 && forall p :: p <= ts ==> Depth(p) >= 0
  }

  lemma BalancedPlus(a: seq<Token>, b: seq<Token>)
    requires Balanced(a) && Balanced(b)
    ensures Balanced(a + b)
  {
    DepthPlus(a, b);
    forall p | p <= a + b ensures Depth(p) >= 0 {
      if |p| <= |a| {
        assert p == a[..|p|];
        assert p <= a;
      } else {
        assert p == a + b[..|p| - |a|];
        DepthPlus(a, b[..|p| - |a|]);
      }
    }
  }

  lemma BalancedFlat(ts: seq<Token>)
    requires forall t :: t in ts ==> t in {Comma, Colon} || t.Lit?
    ensures Balanced(ts)
  {
    forall p | p <= ts ensures Depth(p) == 0 {
      FlatDepth(p);
    }
  }

  lemma {:induction false} FlatDepth(ts: seq<Token>)
    requires forall t :: t in ts ==> t in {Comma, Colon} || t.Lit?
    ensures Depth(ts) == 0
  {
    if ts != [] {
      assert ts[|ts| - 1] in ts;
      FlatDepth(ts[..|ts| - 1]);
    }
  }

  lemma BalancedWrap(open: Token, body: seq<Token>, close: Token)
    requires Balanced(body) && open in {LBrace, LBracket} && close in {RBrace, RBracket}
    ensures Balanced([open] + body + [close])
    ensures forall p :: p < [open] + body + [close] && p != [] ==> Depth(p) >= 1
  {
    var whole := [open] + body + [close];
    assert [open][..0] == [] && [close][..0] == [];
    assert Depth([open]) == 1 && Depth([close]) == -1;
    DepthPlus([open], body);
    DepthPlus([open] + body, [close]);
    forall p | p < whole && p != [] ensures Depth(p) >= 1 {
      var q := body[..|p| - 1];
      assert p == [open] + q;
      DepthPlus([open], q);
      assert q <= body;
    }
    forall p | p <= whole ensures Depth(p) >= 0 {
      if p == whole {
      } else if p != [] {
        assert p < whole;
      }
    }
  }

  lemma {:induction false} SerializeBalanced(n: Node)
    ensures Balanced(Serialize(n))
    ensures !n.Leaf? ==> forall p :: p < Serialize(n) && p != [] ==> Depth(p) >= 1
    decreases n
  {
    match n
    case Leaf(a) => BalancedFlat([Lit(a)]);
    case Obj(ms) =>
      MembersBalanced(ms, true);
      BalancedWrap(LBrace, SerializeMembers(ms, true), RBrace);
    case Arr(es) =>
      ElemsBalanced(es, true);
      BalancedWrap(LBracket, SerializeElems(es, true), RBracket);
  }

  lemma {:induction false} MembersBalanced(ms: Members, first: bool)
    ensures Balanced(SerializeMembers(ms, first))
    decreases ms
  {
    if ms.Member? {
      var head := Separator(first) + [Lit(Str(ms.key)), Colon];
      BalancedFlat(head);
      SerializeBalanced(ms.value);
      MembersBalanced(ms.rest, false);
      BalancedPlus(head, Serialize(ms.value));
      BalancedPlus(head + Serialize(ms.value), SerializeMembers(ms.rest, false));
    } else {
      BalancedFlat([]);
    }
  }

  lemma {:induction false} ElemsBalanced(es: Elems, first: bool)
    ensures Balanced(SerializeElems(es, first))
    decreases es
  {
    if es.Elem? {
      BalancedFlat(Separator(first));
      SerializeBalanced(es.value);
      ElemsBalanced(es.rest, false);
      BalancedPlus(Separator(first), Serialize(es.value));
      BalancedPlus(Separator(first) + Serialize(es.value), SerializeElems(es.rest, false));
    } else {
      BalancedFlat([]);
    }
  }

  /** A container's text cut short is never the text of any document. */
  lemma CutShortIsNoDocument(n: Node, cut: seq<Token>, other: Node)
    requires !n.Leaf? && cut < Serialize(n)
    ensures cut != Serialize(other)
  {
    SerializeBalanced(n);
    SerializeBalanced(other);
    OpensValue(other);
  }

  // ---- The streamer ----

  function First(frames: seq<bool>): bool { frames == [] || frames[|frames| - 1] }

  function Marked(frames: seq<bool>): seq<bool> { if frames == [] then [] else frames[|frames| - 1 := false] }

  class JsonStreamer {
    var written: seq<Token>
    /** How many more tokens the writer takes before it fails. */
    var room: nat
    var err: bool
    /** One flag a nesting level: nothing written in it yet. */
    var frames: seq<bool>

    function State(): Sink
      reads this
    {
      Sink(written, room, err)
    }

    constructor (room: nat)
      ensures State() == Sink([], room, false) && frames == []
    {
      written, this.room, err, frames := [], room, false, [];
    }

    method WriteRaw(b: seq<Token>)
      modifies this
      ensures State() == Emit(old(State()), Plain(b)) && frames == old(frames)
    {
      if err {
        return;
      }
      if |b| <= room {
        written, room := written + b, room - |b|;
      } else {
        written, room, err := written + b[..room], 0, true;
      }
    }

    method StartObject()
      modifies this
      ensures State() == Emit(old(State()), Plain([LBrace])) && frames == old(frames) + [true]
    {
      WriteRaw([LBrace]);
      frames := frames + [true];
    }

    method EndObject()
      modifies this
      ensures State() == Emit(old(State()), Plain([RBrace]))
      ensures frames == if old(frames) == [] then [] else old(frames)[..|old(frames)| - 1]
    {
      WriteRaw([RBrace]);
      if |frames| > 0 {
        frames := frames[..|frames| - 1];
      }
    }

    method StartArray()
      modifies this
      ensures State() == Emit(old(State()), Plain([LBracket])) && frames == old(frames) + [true]
    {
      WriteRaw([LBracket]);
      frames := frames + [true];
    }

    method EndArray()
      modifies this
      ensures State() == Emit(old(State()), Plain([RBracket]))
      ensures frames == if old(frames) == [] then [] else old(frames)[..|old(frames)| - 1]
    {
      WriteRaw([RBracket]);
      if |frames| > 0 {
        frames := frames[..|frames| - 1];
      }
    }

    method Section(name: string)
      modifies this
      ensures State() == Emit(old(State()), Plain(Separator(First(old(frames))) + [Lit(Str(name)), Colon]))
      ensures frames == Marked(old(frames))
    {
      ghost var start := State();
      ghost var sep := Separator(First(frames));
      if !First(frames) {
        WriteRaw([Comma]);
      }
      EmitNothing(start);
      assert State() == Emit(start, Plain(sep));
      frames := Marked(frames);
      WriteRaw([Lit(Str(name))]);
      EmitThen(start, Plain(sep), Plain([Lit(Str(name))]));
      WriteRaw([Colon]);
      EmitThen(start, Plain(sep + [Lit(Str(name))]), Plain([Colon]));
      assert sep + [Lit(Str(name))] + [Colon] == sep + [Lit(Str(name)), Colon];
    }

    method ArrayElem(v: Node, refused: bool)
      modifies this
      ensures State() == Emit(old(State()), Then(Plain(Separator(First(old(frames)))), Driven(Value(v, refused))))
      ensures frames == Marked(old(frames))
    {
      ghost var start := State();
      ghost var sep := Separator(First(frames));
      if !First(frames) {
        WriteRaw([Comma]);
      }
      EmitNothing(start);
      assert State() == Emit(start, Plain(sep));
      frames := Marked(frames);
      WriteValue(v, refused);
      EmitThen(start, Plain(sep), Driven(Value(v, refused)));
    }

    method WriteValue(v: Node, refused: bool)
      modifies this
      ensures State() == Emit(old(State()), Driven(Value(v, refused))) && frames == old(frames)
    {
      if err {
        return;
      }
      if refused {
        err := true;
        assert written + [] == written;
        return;
      }
      WriteRaw(Serialize(v));
    }

    /** The calls for one document. */
    method Drive(d: Doc)
      modifies this
      ensures State() == Emit(old(State()), Driven(d)) && frames == old(frames)
      decreases d, 0
    {
      ghost var start := State();
      match d
      case Value(v, refused) => WriteValue(v, refused);
      case Object(ms) =>
        StartObject();
        DriveMembers(ms);
        EndObject();
        EmitThen(start, Plain([LBrace]), DrivenMembers(ms, true));
        EmitThen(start, Then(Plain([LBrace]), DrivenMembers(ms, true)), Plain([RBrace]));
        ThenAssociates(Plain([LBrace]), DrivenMembers(ms, true), Plain([RBrace]));
      case Array(ds) =>
        StartArray();
        DriveElems(ds);
        EndArray();
        EmitThen(start, Plain([LBracket]), DrivenElems(ds, true));
        EmitThen(start, Then(Plain([LBracket]), DrivenElems(ds, true)), Plain([RBracket]));
        ThenAssociates(Plain([LBracket]), DrivenElems(ds, true), Plain([RBracket]));
    }

    /** Each member: its name by `section`, then its value. Only the top frame's flag may change. */
    method DriveMembers(ms: DocMembers)
      requires frames != []
      modifies this
      ensures State() == Emit(old(State()), DrivenMembers(ms, First(old(frames))))
      ensures |frames| == |old(frames)| && frames[..|frames| - 1] == old(frames)[..|old(frames)| - 1]
      decreases ms, 1
    {
      ghost var start, first := State(), First(frames);
      match ms
      case NoDocMembers => EmitNothing(start);
      case DocMember(k, v, rest) =>
        Section(k);
        Drive(v);
        DriveMembers(rest);
        ghost var head := Plain(Separator(first) + [Lit(Str(k)), Colon]);
        EmitThen(start, head, Driven(v));
        EmitThen(start, Then(head, Driven(v)), DrivenMembers(rest, false));
        ThenAssociates(head, Driven(v), DrivenMembers(rest, false));
    }

    method DriveElems(ds: Docs)
      requires frames != []
      modifies this
      ensures State() == Emit(old(State()), DrivenElems(ds, First(old(frames))))
      ensures |frames| == |old(frames)| && frames[..|frames| - 1] == old(frames)[..|old(frames)| - 1]
      decreases ds, 1
    {
      ghost var start, first := State(), First(frames);
      match ds
      case NoDocs => EmitNothing(start);
      case DocElem(d, rest) =>
        if d.Value? {
          ArrayElem(d.v, d.refused);
          DriveElems(rest);
          ghost var sep := Plain(Separator(first));
          EmitThen(start, Then(sep, Driven(d)), DrivenElems(rest, false));
          ThenAssociates(sep, Driven(d), DrivenElems(rest, false));
        } else {
          Drive(d);
          DriveElems(rest);
          EmitThen(start, Driven(d), DrivenElems(rest, first));
        }
    }
  }

  lemma EmitNothing(s: Sink)
    ensures Emit(s, Plain([])) == s
  {
  }

  /** A disciplined document on a healthy sink: the whole text, or an error and a text cut short. */
  lemma DrivenOutcome(s: Sink, d: Doc)
    requires !s.failed && Disciplined(d)
    ensures var after := Emit(s, Driven(d));
      var text := Serialize(Tree(d));
      && (after.failed <==> Refuses(d) || s.room < |text|)
      && s.written <= after.written
      && (if after.failed then after.written < s.written + text else after.written == s.written + text)
  {
    DisciplineRenders(d);
  }

  // ---- The export ----

  /** One exporter's run: the document it drives, its row count, and whether the database failed under it. */
  datatype Section = Section(name: string, doc: Doc, rows: nat, fault: bool)

  function FromSections(ss: seq<Section>): DocMembers {
    if ss == [] then NoDocMembers else DocMember(ss[0].name, ss[0].doc, FromSections(ss[1..]))
  }

  function Rows(ss: seq<Section>): nat { if ss == [] then 0 else Rows(ss[..|ss| - 1]) + ss[|ss| - 1].rows }

  /** The root object while it is still open. */
  function Open(ss: seq<Section>): Out { Then(Plain([LBrace]), DrivenMembers(FromSections(ss), true)) }

  lemma {:induction false} DrivenSnoc(ss: seq<Section>, s: Section, first: bool)
    ensures DrivenMembers(FromSections(ss + [s]), first)
         == Then(DrivenMembers(FromSections(ss), first),
                 Then(Plain(Separator(first && ss == []) + [Lit(Str(s.name)), Colon]), Driven(s.doc)))
    decreases |ss|
  {
    var all := ss + [s];
    if ss == [] {
      assert all[1..] == [];
    } else {
      assert all[1..] == ss[1..] + [s];
      DrivenSnoc(ss[1..], s, false);
      var head := Plain(Separator(first) + [Lit(Str(ss[0].name)), Colon]);
      var tail := Then(Plain(Separator(false) + [Lit(Str(s.name)), Colon]), Driven(s.doc));
      var rest := DrivenMembers(FromSections(ss[1..]), false);
      ThenAssociates(Driven(ss[0].doc), rest, tail);
      ThenAssociates(head, Then(Driven(ss[0].doc), rest), tail);
    }
  }

  /** Writing one more section of the root object. */
  lemma SectionStep(s0: Sink, ss: seq<Section>, s: Section)
    ensures Emit(Emit(Emit(s0, Open(ss)), Plain(Separator(ss == []) + [Lit(Str(s.name)), Colon])), Driven(s.doc))
         == Emit(s0, Open(ss + [s]))
  {
    var name := Plain(Separator(ss == []) + [Lit(Str(s.name)), Colon]);
    EmitThen(s0, Open(ss), name);
    EmitThen(s0, Then(Open(ss), name), Driven(s.doc));
    ThenAssociates(Open(ss), name, Driven(s.doc));
    DrivenSnoc(ss, s, true);
    ThenAssociates(Plain([LBrace]), DrivenMembers(FromSections(ss), true), Then(name, Driven(s.doc)));
  }

  lemma {:induction false} SectionsDisciplined(ss: seq<Section>)
    requires forall s :: s in ss ==> Disciplined(s.doc)
    ensures DisciplinedMembers(FromSections(ss))
    ensures MembersRefuse(FromSections(ss)) <==> exists s :: s in ss && Refuses(s.doc)
    decreases |ss|
  {
    if ss != [] {
      assert ss[0] in ss;
      assert forall s :: s in ss ==> s == ss[0] || s in ss[1..];
      assert forall s :: s in ss[1..] ==> s in ss;
      SectionsDisciplined(ss[1..]);
    }
  }

  /** Left open, the root object is no document, however much of it was written. */
  lemma OpenIsNoDocument(room: nat, ss: seq<Section>, other: Node)
    requires forall s :: s in ss ==> Disciplined(s.doc)
    ensures Emit(Sink([], room, false), Open(ss)).written != Serialize(other)
  {
    var ms := FromSections(ss);
    var body := SerializeMembers(TreeMembers(ms), true);
    var whole := Serialize(Tree(Object(ms)));
    SectionsDisciplined(ss);
    DisciplineRendersMembers(ms, true);
    assert whole == [LBrace] + body + [RBrace];
    var text := Open(ss).text;
    assert text <= [LBrace] + body && text < whole;
    var cut := Emit(Sink([], room, false), Open(ss)).written;
    assert cut <= text;
    CutShortIsNoDocument(Obj(TreeMembers(ms)), cut, other);
  }

  /** The three head members, which are always there and always marshal. */
  function Head(exportedAt: Node, userID: string, version: Node): seq<Section> {
    [ Section("exported_at", Value(exportedAt, false), 0, false),
      Section("user_id", Value(Leaf(Str(userID)), false), 0, false),
      Section("schema_version", Value(version, false), 0, false) ]
  }

  lemma {:induction false} FailureSticks(s0: Sink, ss: seq<Section>, rest: seq<Section>)
    requires Emit(s0, Open(ss)).failed
    ensures Emit(s0, Open(ss + rest)).failed
    decreases |rest|
  {
    if rest == [] {
      assert ss + rest == ss;
    } else {
      SectionStep(s0, ss, rest[0]);
      FailureSticks(s0, ss + [rest[0]], rest[1..]);
      assert ss + [rest[0]] + rest[1..] == ss + rest;
    }
  }

  /** Closing the root object: how a whole export ends. */
  lemma ClosedOutcome(room: nat, ss: seq<Section>)
    requires forall s :: s in ss ==> Disciplined(s.doc)
    ensures var after := Emit(Emit(Sink([], room, false), Open(ss)), Plain([RBrace]));
      var text := Serialize(Tree(Object(FromSections(ss))));
      && (after.failed <==> |text| > room || exists s :: s in ss && Refuses(s.doc))
      && (if after.failed then after.written < text else after.written == text)
  {
    var s0 := Sink([], room, false);
    var ms := FromSections(ss);
    SectionsDisciplined(ss);
    EmitThen(s0, Open(ss), Plain([RBrace]));
    ThenAssociates(Plain([LBrace]), DrivenMembers(ms, true), Plain([RBrace]));
    DrivenOutcome(s0, Object(ms));
    assert [] + Serialize(Tree(Object(ms))) == Serialize(Tree(Object(ms)));
  }

  /** A member of the root object whose value always marshals. */
  method WriteMember(js: JsonStreamer, name: string, v: Node, ghost s0: Sink, ghost ss: seq<Section>)
    requires js.State() == Emit(s0, Open(ss)) && js.frames == [ss == []]
    modifies js
    ensures js.State() == Emit(s0, Open(ss + [Section(name, Value(v, false), 0, false)])) && js.frames == [false]
  {
    js.Section(name);
    js.WriteValue(v, false);
    SectionStep(s0, ss, Section(name, Value(v, false), 0, false));
  }

  /** The members before the sections. */
  method WriteHead(js: JsonStreamer, exportedAt: Node, userID: string, version: Node)
    requires js.frames == []
    modifies js
    ensures js.State() == Emit(old(js.State()), Open(Head(exportedAt, userID, version))) && js.frames == [false]
  {
    ghost var s0 := js.State();
    ghost var head := Head(exportedAt, userID, version);
    assert DrivenMembers(FromSections([]), true) == Plain([]);
    js.StartObject();
    WriteMember(js, "exported_at", exportedAt, s0, []);
    assert [] + [head[0]] == [head[0]];
    WriteMember(js, "user_id", Leaf(Str(userID)), s0, [head[0]]);
    assert [head[0]] + [head[1]] == [head[0], head[1]];
    WriteMember(js, "schema_version", version, s0, [head[0], head[1]]);
    assert [head[0], head[1]] + [head[2]] == head;
  }

  /** The section loop; `done` records the sections driven before it stopped. */
  method RunSections(js: JsonStreamer, list: seq<Section>, ghost s0: Sink, ghost head: seq<Section>)
    returns (total: nat, ok: bool, ghost done: seq<Section>)
    requires js.State() == Emit(s0, Open(head)) && js.frames == [false] && head != []
    modifies js
    ensures done <= list && js.State() == Emit(s0, Open(head + done))
    ensures ok ==> done == list && total == Rows(list) && forall s :: s in list ==> !s.fault
    ensures !ok ==> js.err || exists s :: s in list && s.fault
  {
    total := 0;
    assert head + [] == head;
    for i := 0 to |list|
      invariant js.State() == Emit(s0, Open(head + list[..i])) && js.frames == [false]
      invariant total == Rows(list[..i])
      invariant forall s :: s in list[..i] ==> !s.fault
    {
      done := list[..i + 1];
      assert head + done == (head + list[..i]) + [list[i]];
      assert done[..i] == list[..i];
      SectionStep(s0, head + list[..i], list[i]);
      js.Section(list[i].name);
      if js.err {
        return total, false, done;
      }
      js.Drive(list[i].doc);
      if list[i].fault {
        return total, false, done;
      }
      total := total + list[i].rows;
    }
    assert list[..|list|] == list;
    return total, true, list;
  }

  function ExportText(head: seq<Section>, list: seq<Section>): seq<Token> { Serialize(Tree(Object(FromSections(head + list)))) }

  /** Nothing fails: the text fits, every query answers and every value marshals. */
  ghost predicate AllGoesWell(room: nat, head: seq<Section>, list: seq<Section>) {
    |ExportText(head, list)| <= room && forall s :: s in list ==> !s.fault && !Refuses(s.doc)
  }

  ghost predicate NoDocument(written: seq<Token>) { forall other: Node :: written != Serialize(other) }

  /** Sections that drive as the exporters do, behind head members that always marshal. */
  ghost predicate Wellformed(head: seq<Section>, list: seq<Section>) {
    (forall s :: s in head ==> Disciplined(s.doc) && !Refuses(s.doc)) && forall s :: s in list ==> Disciplined(s.doc)
  }

  /** An export that stopped after some of its sections has written no document, and if the writer failed, it could not but fail. */
  lemma StoppedExport(room: nat, head: seq<Section>, list: seq<Section>, done: seq<Section>)
    requires Wellformed(head, list) && done <= list
    ensures var now := Emit(Sink([], room, false), Open(head + done));
      NoDocument(now.written) && (now.failed ==> !AllGoesWell(room, head, list))
  {
    var now := Emit(Sink([], room, false), Open(head + done));
    forall other: Node ensures now.written != Serialize(other) {
      OpenIsNoDocument(room, head + done, other);
    }
    if now.failed {
      assert head + list == (head + done) + list[|done|..];
      FailureSticks(Sink([], room, false), head + done, list[|done|..]);
      ClosedExport(room, head, list);
    }
  }

  /** Closed after all its sections, it succeeds exactly when nothing fails, and otherwise has written no document. */
  lemma ClosedExport(room: nat, head: seq<Section>, list: seq<Section>)
    requires Wellformed(head, list)
    ensures var after := Emit(Emit(Sink([], room, false), Open(head + list)), Plain([RBrace]));
      && (AllGoesWell(room, head, list) ==> !after.failed)
      && (!after.failed && (forall s :: s in list ==> !s.fault) ==> AllGoesWell(room, head, list))
      && (if after.failed then NoDocument(after.written) else after.written == ExportText(head, list))
  {
    var after := Emit(Emit(Sink([], room, false), Open(head + list)), Plain([RBrace]));
    ClosedOutcome(room, head + list);
    if after.failed {
      forall other: Node ensures after.written != Serialize(other) {
        CutShortIsNoDocument(Tree(Object(FromSections(head + list))), after.written, other);
      }
    } else {
      assert forall s :: s in list ==> s in head + list;
    }
  }

  /**
   The export to a writer that takes `room` tokens. `helper` is the answer of the role query, None when it fails.
   The call succeeds exactly when nothing failed, and exactly then what was written is a document.
   */
  method ExportUserData(room: nat, exportedAt: Node, userID: string, version: Node, helper: Option<bool>,
                        base: seq<Section>, helperOnly: seq<Section>)
    returns (written: seq<Token>, total: nat, ok: bool)
    requires forall s :: s in base || s in helperOnly ==> Disciplined(s.doc)
    ensures ok ==> helper.Some?
    ensures helper.Some? ==>
      var list := base + if helper.value then helperOnly else [];
      var head := Head(exportedAt, userID, version);
      && (ok <==> AllGoesWell(room, head, list))
      && (ok ==> written == ExportText(head, list) && total == Rows(list))
    ensures !ok ==> NoDocument(written)
  {
    var js := new JsonStreamer(room);
    ghost var s0 := js.State();
    ghost var head := Head(exportedAt, userID, version);
    WriteHead(js, exportedAt, userID, version);
    if helper.None? {
      assert head + [] == head;
      StoppedExport(room, head, [], []);
      return js.written, 0, false;
    }
    var list := base + if helper.value then helperOnly else [];
    ClosedExport(room, head, list);
    ghost var done;
    total, ok, done := RunSections(js, list, s0, head);
    if !ok {
      StoppedExport(room, head, list, done);
      return js.written, total, false;
    }
    js.EndObject();
    return js.written, total, !js.err;
  }
}
