/** Dotted numeric versions: parsing and ordering. */
module Versions {

  const MAX_INT := 0x7fff_ffff_ffff_ffff

  predicate IsSpace(c: char) {
    c == ' ' || '\t' <= c <= '\r' || c as int == 0x85 || c as int == 0xA0
  }

  predicate IsDigit(c: char) { '0' <= c <= '9' }

  function TrimSpace(s: string): string {
    if s != "" && IsSpace(s[0]) then TrimSpace(s[1..])
    else if s != "" && IsSpace(s[|s| - 1]) then TrimSpace(s[..|s| - 1])
    else s
  }

  /** Everything before the first '-' or '+'. */
  function CutSuffix(s: string): string {
    if s == "" || s[0] == '-' || s[0] == '+' then "" else [s[0]] + CutSuffix(s[1..])
  }

  function Digit(c: char): nat
    requires IsDigit(c)
  {
    c as int - '0' as int
  }

  function Decimal(s: string): nat
    requires forall c :: c in s ==> IsDigit(c)
  {
    if s == "" then 0 else 10 * Decimal(s[..|s| - 1]) + Digit(s[|s| - 1])
  }

  /** A segment's number; anything that is not a number in range counts as zero. */
  function Number(s: string): nat {
    if s == "" || exists c :: c in s && !IsDigit(c) then 0
    else if Decimal(s) <= MAX_INT then Decimal(s) else 0
  }

  function SplitDots(s: string): (parts: seq<string>)
    ensures |parts| >= 1
  {
    if s == "" then [""]
    else
      var rest := SplitDots(s[1..]);
      if s[0] == '.' then [""] + rest else [[s[0]] + rest[0]] + rest[1..]
  }

  function Numbers(parts: seq<string>, trim: bool): seq<nat> {
    seq(|parts|, i requires 0 <= i < |parts| => Number(if trim then TrimSpace(parts[i]) else parts[i]))
  }

  function Segments(v: string): seq<nat> { Numbers(SplitDots(CutSuffix(TrimSpace(v))), true) }

  /** The resolver's own parser: no trimming, and an empty version has no segments. */
  function SplitVersion(v: string): seq<nat> {
    if v == "" then [] else Numbers(SplitDots(CutSuffix(v)), false)
  }

  /** Missing segments read as zero. */
  function At(a: seq<nat>, i: nat): nat { if i < |a| then a[i] else 0 }

  function Longer(a: seq<nat>, b: seq<nat>): nat { if |a| > |b| then |a| else |b| }

  /** `a` comes before `b`: they agree up to a segment where `a` is smaller. */
  ghost predicate Less(a: seq<nat>, b: seq<nat>) {
    exists k: nat :: At(a, k) < At(b, k) && Agree(a, b, k)
  }

  ghost predicate Agree(a: seq<nat>, b: seq<nat>, n: nat) {
    forall j: nat :: j < n ==> At(a, j) == At(b, j)
  }

  ghost predicate Same(a: seq<nat>, b: seq<nat>) {
    forall j: nat :: At(a, j) == At(b, j)
  }

  ghost function Order(a: seq<nat>, b: seq<nat>): int {
    if Less(a, b) then -1 else if Less(b, a) then 1 else 0
  }

  method CompareSegments(a: seq<nat>, b: seq<nat>) returns (r: int)
    ensures r == Order(a, b)
    ensures r == 0 <==> Same(a, b)
  {
    var n := Longer(a, b);
    for i := 0 to n
      invariant Agree(a, b, i)
    {
      var av := At(a, i);
      var bv := At(b, i);
      if av < bv {
        assert Less(a, b);
        return -1;
      }
      if av > bv {
        assert Agree(b, a, i);
        assert Less(b, a);
        LessAsymmetric(b, a);
        return 1;
      }
    }
    assert forall j: nat :: j >= n ==> At(a, j) == 0 && At(b, j) == 0;
    return 0;
  }

  method CompareVersions(a: string, b: string) returns (r: int)
    ensures r == Order(Segments(a), Segments(b))
  {
    r := CompareSegments(Segments(a), Segments(b));
  }

  lemma LessAsymmetric(a: seq<nat>, b: seq<nat>)
    requires Less(a, b)
    ensures !Less(b, a)
  {
  }

  /** Any two versions are ordered one way, the other, or equal in every segment. */
  lemma LessTotal(a: seq<nat>, b: seq<nat>, n: nat)
    ensures Less(a, b) || Less(b, a) || Agree(a, b, n)
  {
    if n > 0 {
      LessTotal(a, b, n - 1);
      if Agree(a, b, n - 1) {
        assert Agree(b, a, n - 1);
        if At(a, n - 1) < At(b, n - 1) {
          assert Less(a, b);
        } else if At(b, n - 1) < At(a, n - 1) {
          assert Less(b, a);
        }
      }
    }
  }

  /** The order is a total preorder whose ties are exactly the versions with the same padded segments. */
  lemma OrderIsTotalPreorder(a: seq<nat>, b: seq<nat>, c: seq<nat>)
    ensures Order(a, a) == 0
    ensures Order(b, a) == -Order(a, b)
    ensures Order(a, b) == 0 <==> Same(a, b)
    ensures Order(a, b) <= 0 && Order(b, c) <= 0 ==> Order(a, c) <= 0
    ensures Order(a, b) < 0 && Order(b, c) <= 0 ==> Order(a, c) < 0
    ensures Order(a, b) <= 0 && Order(b, c) < 0 ==> Order(a, c) < 0
  {
    Ties(a, a);
    Ties(a, b);
    Ties(b, c);
    if Less(a, b) {
      LessAsymmetric(a, b);
    }
    if Less(b, c) {
      LessAsymmetric(b, c);
    }
    if Order(a, b) <= 0 && Order(b, c) <= 0 {
      Transitive(a, b, c);
    }
    if Less(a, c) {
      LessAsymmetric(a, c);
    }
  }

  lemma Ties(a: seq<nat>, b: seq<nat>)
    ensures Order(a, b) == 0 <==> Same(a, b)
  {
    if Order(a, b) == 0 {
      forall j: nat ensures At(a, j) == At(b, j) {
        LessTotal(a, b, j + 1);
      }
    }
  }

  lemma Transitive(a: seq<nat>, b: seq<nat>, c: seq<nat>)
    requires Order(a, b) <= 0 && Order(b, c) <= 0
    ensures Order(a, b) < 0 || Order(b, c) < 0 ==> Less(a, c)
    ensures Same(a, b) && Same(b, c) ==> Same(a, c)
    ensures Less(a, c) || Same(a, c)
  {
    Ties(a, b);
    Ties(b, c);
    if Less(a, b) {
      var k: nat :| At(a, k) < At(b, k) && Agree(a, b, k);
      if Less(b, c) {
        var h: nat :| At(b, h) < At(c, h) && Agree(b, c, h);
        var m := if k < h then k else h;
        assert At(a, m) < At(c, m) && Agree(a, c, m);
      } else {
        assert At(a, k) < At(c, k) && Agree(a, c, k);
      }
    } else if Less(b, c) {
      var h: nat :| At(b, h) < At(c, h) && Agree(b, c, h);
      assert At(a, h) < At(c, h) && Agree(a, c, h);
    }
  }

  /** Trailing zero segments never matter. */
  lemma TrailingZeros(a: seq<nat>, zeros: seq<nat>, b: seq<nat>)
    requires forall z :: z in zeros ==> z == 0
    ensures Order(a + zeros, b) == Order(a, b) && Order(b, a + zeros) == Order(b, a)
  {
    forall i: nat ensures At(a + zeros, i) == At(a, i) {
      if |a| <= i < |a| + |zeros| {
        assert zeros[i - |a|] in zeros;
      }
    }
    SameOrder(a + zeros, a, b);
  }

  lemma SameOrder(a: seq<nat>, a': seq<nat>, b: seq<nat>)
    requires Same(a, a')
    ensures Less(a, b) <==> Less(a', b)
    ensures Less(b, a) <==> Less(b, a')
  {
  }

  function Take3(a: seq<nat>): seq<nat> { if |a| <= 3 then a else a[..3] }

  /** The resolver's client gate looks at three segments only. */
  predicate SemverGTE(a: string, b: string) {
    var x, y := SplitVersion(a), SplitVersion(b);
    if At(x, 0) != At(y, 0) then At(x, 0) > At(y, 0)
    else if At(x, 1) != At(y, 1) then At(x, 1) > At(y, 1)
    else At(x, 2) >= At(y, 2)
  }

  method CheckSemverGTE(a: string, b: string) returns (r: bool)
    ensures r == SemverGTE(a, b)
  {
    var pa := SplitVersion(a);
    var pb := SplitVersion(b);
    for i := 0 to 3
      invariant Agree(pa, pb, i)
    {
      var x := At(pa, i);
      var y := At(pb, i);
      if x > y {
        return true;
      }
      if x < y {
        return false;
      }
    }
    return true;
  }

  /** The first segment that differs decides the order. */
  lemma OrderByFirst(a: seq<nat>, b: seq<nat>, k: nat)
    requires Agree(a, b, k) && At(a, k) != At(b, k)
    ensures Order(a, b) == if At(a, k) < At(b, k) then -1 else 1
  {
    if At(a, k) < At(b, k) {
      assert Less(a, b);
    } else {
      assert Agree(b, a, k) && Less(b, a);
      LessAsymmetric(b, a);
    }
  }

  lemma Take3At(a: seq<nat>, i: nat)
    ensures At(Take3(a), i) == if i < 3 then At(a, i) else 0
  {
  }

  lemma Take3Agrees(a: seq<nat>, b: seq<nat>, k: nat)
    requires k <= 3 && Agree(a, b, k)
    ensures Agree(Take3(a), Take3(b), k)
    ensures k == 3 ==> Same(Take3(a), Take3(b))
  {
    forall i: nat ensures At(Take3(a), i) == if i < 3 then At(a, i) else 0 {
      Take3At(a, i);
    }
    forall i: nat ensures At(Take3(b), i) == if i < 3 then At(b, i) else 0 {
      Take3At(b, i);
    }
  }

  lemma Take3First(a: seq<nat>, b: seq<nat>, k: nat)
    requires k < 3 && Agree(a, b, k) && At(a, k) != At(b, k)
    ensures Order(Take3(a), Take3(b)) == if At(a, k) < At(b, k) then -1 else 1
  {
    Take3Agrees(a, b, k);
    Take3At(a, k);
    Take3At(b, k);
    OrderByFirst(Take3(a), Take3(b), k);
  }

  /** It is the version order cut to three segments. */
  lemma SemverIsOrder(a: string, b: string)
    ensures SemverGTE(a, b) <==> Order(Take3(SplitVersion(a)), Take3(SplitVersion(b))) >= 0
  {
    var x, y := SplitVersion(a), SplitVersion(b);
    if At(x, 0) != At(y, 0) {
      Take3First(x, y, 0);
    } else if At(x, 1) != At(y, 1) {
      Take3First(x, y, 1);
    } else if At(x, 2) != At(y, 2) {
      Take3First(x, y, 2);
    } else {
      Take3Agrees(x, y, 3);
      Ties(Take3(x), Take3(y));
    }
  }
}
