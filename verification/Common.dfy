/** Shared wrappers and counting lemmas. */
module Common {

  datatype Option<+T> = None | Some(value: T)

  datatype Result<+T, +E> = Ok(value: T) | Err(error: E)

  /** A point of a half-open interval. */
  predicate During(t: int, from: int, to: int) { from <= t < to }

  /** ASCII lower case. */
  function LowerChar(c: char): char { if 'A' <= c <= 'Z' then (c as int + 32) as char else c }

  function Lower(s: string): string { seq(|s|, i requires 0 <= i < |s| => LowerChar(s[i])) }

  /** Equal up to the case of ASCII letters. */
  predicate EqualFold(a: string, b: string) { |a| == |b| && forall i :: 0 <= i < |a| ==> EqualLetter(a[i], b[i]) }

  predicate EqualLetter(c: char, d: char) {
    || c == d
    || ('A' <= c <= 'Z' && d as int == c as int + 32)
    || ('A' <= d <= 'Z' && c as int == d as int + 32)
  }

  lemma LowerIff(a: string, b: string)
    ensures Lower(a) == Lower(b) <==> EqualFold(a, b)
  {
    if Lower(a) == Lower(b) {
      assert |Lower(a)| == |a| && |Lower(b)| == |b|;
      forall i | 0 <= i < |a| ensures EqualLetter(a[i], b[i]) {
        assert Lower(a)[i] == LowerChar(a[i]) && Lower(b)[i] == LowerChar(b[i]);
      }
    }
  }

  /** A set included in another has at most as many elements. */
  lemma SubsetCount<T>(small: set<T>, big: set<T>)
    requires small <= big
    ensures |small| <= |big|
  {
    if small != {} {
      var x :| x in small;
      SubsetCount(small - {x}, big - {x});
    }
  }

  /** Two sets that a function matches one to one have equally many elements. */
  lemma {:induction false} MatchedCount<S, T>(a: set<S>, b: set<T>, f: S -> T)
    requires forall x :: x in a ==> f(x) in b
    requires forall x, y :: x in a && y in a && f(x) == f(y) ==> x == y
    requires forall z :: z in b ==> exists x :: x in a && f(x) == z
    ensures |a| == |b|
  {
    if x :| x in a {
      MatchedCount(a - {x}, b - {f(x)}, f);
    } else {
      assert forall z :: z !in b;
    }
  }

  predicate Sorted(s: seq<int>) { forall i, j :: 0 <= i < j < |s| ==> s[i] < s[j] }

  /** Only one ascending listing of a set exists. */
  lemma {:induction false} SortedUnique(a: seq<int>, b: seq<int>)
    requires Sorted(a) && Sorted(b)
    requires forall x :: x in a <==> x in b
    ensures a == b
  {
    forall i | 0 <= i < |a| ensures a[i] in b {
      assert a[i] in a;
    }
    forall i | 0 <= i < |b| ensures b[i] in a {
      assert b[i] in b;
    }
    assert (a != [] ==> a[0] in b) && (b != [] ==> b[0] in a);
    if a != [] && b != [] {
      forall x ensures x in a[1..] <==> x in b[1..] {
        assert x in a <==> x == a[0] || x in a[1..];
        assert x in b <==> x == b[0] || x in b[1..];
        assert a[0] !in a[1..] && b[0] !in b[1..];
      }
      SortedUnique(a[1..], b[1..]);
    }
  }

  /** The numbers from `lo` up to but not including `hi`. */
  function Range(lo: nat, hi: nat): set<nat> { set i: nat | i < hi && During(i, lo, hi) }

  lemma {:induction false} RangeCount(lo: nat, hi: nat)
    requires lo <= hi
    ensures |Range(lo, hi)| == hi - lo
    decreases hi
  {
    if lo < hi {
      RangeCount(lo, hi - 1);
      assert Range(lo, hi) == Range(lo, hi - 1) + {hi - 1};
    } else {
      assert Range(lo, hi) == {};
    }
  }

  ghost function SetOf<T>(s: seq<T>): set<T> { set x | x in s }

  /** The sum of a function over a finite set. */
  ghost function SumOver<K>(keys: set<K>, f: K -> int): int {
    if keys == {} then 0
    else var k :| k in keys; f(k) + SumOver(keys - {k}, f)
  }

  /** The sum may be peeled at any element, not only at the chosen one. */
  lemma {:induction false} SumPeel<K>(keys: set<K>, f: K -> int, x: K)
    requires x in keys
    ensures SumOver(keys, f) == f(x) + SumOver(keys - {x}, f)
  {
    var k :| k in keys && SumOver(keys, f) == f(k) + SumOver(keys - {k}, f);
    if k != x {
      SumPeel(keys - {k}, f, x);
      SumPeel(keys - {x}, f, k);
      assert keys - {k} - {x} == keys - {x} - {k};
    }
  }

  /** Sums of functions that agree on the keys agree. */
  lemma {:induction false} SumAgree<K>(keys: set<K>, f: K -> int, g: K -> int)
    requires forall k :: k in keys ==> f(k) == g(k)
    ensures SumOver(keys, f) == SumOver(keys, g)
  {
    if keys != {} {
      var k :| k in keys;
      SumPeel(keys, f, k);
      SumPeel(keys, g, k);
      SumAgree(keys - {k}, f, g);
    }
  }

  /** The sum of a map's values. */
  ghost function SumMap<K>(m: map<K, int>): int {
    SumOver(m.Keys, k => if k in m then m[k] else 0)
  }

  /** Writing one key changes the sum by the difference at that key. */
  lemma SumMapWrite<K>(m: map<K, int>, k: K, v: int)
    ensures SumMap(m[k := v]) == SumMap(m) + v - if k in m then m[k] else 0
  {
    var f := x => if x in m then m[x] else 0;
    var g := x => if x in m[k := v] then m[k := v][x] else 0;
    var rest := m.Keys - {k};
    assert m[k := v].Keys - {k} == rest;
    SumPeel(m[k := v].Keys, g, k);
    SumAgree(rest, f, g);
    if k in m {
      SumPeel(m.Keys, f, k);
    } else {
      assert rest == m.Keys;
    }
  }

  ghost function Group<T, K>(items: set<T>, key: T -> K, k: K): set<T> {
    set x | x in items && key(x) == k
  }

  lemma MulNext(a: nat, b: nat)
    ensures a * (b + 1) == a * b + a
  {
  }

  /** Items grouped under keys, at most `most` a key, number at most `most` times the keys. */
  lemma {:induction false} GroupCount<T, K>(items: set<T>, keys: set<K>, key: T -> K, most: nat)
    requires forall x :: x in items ==> key(x) in keys
    requires forall k :: k in keys ==> |Group(items, key, k)| <= most
    ensures |items| <= most * |keys|
  {
    if k :| k in keys {
      var here := Group(items, key, k);
      forall k' | k' in keys - {k} ensures |Group(items - here, key, k')| <= most {
        SubsetCount(Group(items - here, key, k'), Group(items, key, k'));
      }
      GroupCount(items - here, keys - {k}, key, most);
      assert items == (items - here) + here;
      MulNext(most, |keys - {k}|);
    } else {
      assert items == {};
    }
  }
}
