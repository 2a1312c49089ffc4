/** The text of versions: printing a list of numbers and parsing it gives the list back. */
module VersionText {
  import opened Versions

  function DigitChar(d: nat): (c: char)
    requires d < 10
    ensures IsDigit(c) && Digit(c) == d
  {
    ('0' as int + d) as char
  }

  function Digits(n: nat): (s: string)
    ensures s != "" && forall c :: c in s ==> IsDigit(c)
  {
    if n < 10 then [DigitChar(n)] else Digits(n / 10) + [DigitChar(n % 10)]
  }

  function Join(parts: seq<string>): string {
    if parts == [] then ""
    else if |parts| == 1 then parts[0]
    else parts[0] + "." + Join(parts[1..])
  }

  function Print(ns: seq<nat>): string { Join(seq(|ns|, i requires 0 <= i < |ns| => Digits(ns[i]))) }

  predicate Blank(s: string) { forall c :: c in s ==> IsSpace(c) }

  /** Nothing, or whatever a '-' or a '+' introduces. */
  predicate IsSuffix(s: string) { s == "" || s[0] == '-' || s[0] == '+' }

  lemma {:induction false} DecimalOfDigits(n: nat)
    ensures Decimal(Digits(n)) == n
  {
    if n >= 10 {
      var s := Digits(n);
      assert s[..|s| - 1] == Digits(n / 10);
      DecimalOfDigits(n / 10);
    } else {
      assert Digits(n)[..0] == "";
    }
  }

  lemma NumberOfDigits(n: nat)
    ensures Number(Digits(n)) == if n <= 0x7fff_ffff_ffff_ffff then n else 0
  {
    DecimalOfDigits(n);
  }

  predicate NoDots(s: string) { forall c :: c in s ==> c != '.' }

  lemma {:induction false} SplitOne(s: string)
    requires NoDots(s)
    ensures SplitDots(s) == [s]
  {
    if s != "" {
      assert s[0] in s && forall c :: c in s[1..] ==> c in s;
      SplitOne(s[1..]);
      assert s == [s[0]] + s[1..];
    }
  }

  lemma {:induction false} SplitHead(s: string, rest: string)
    requires NoDots(s)
    ensures SplitDots(s + "." + rest) == [s] + SplitDots(rest)
  {
    var all := s + "." + rest;
    if s == "" {
      assert all[1..] == rest;
    } else {
      assert s[0] in s && forall c :: c in s[1..] ==> c in s;
      assert all[1..] == s[1..] + "." + rest;
      SplitHead(s[1..], rest);
      assert s == [s[0]] + s[1..];
    }
  }

  /** Splitting undoes joining. */
  lemma {:induction false} SplitJoin(parts: seq<string>)
    requires parts != [] && forall p :: p in parts ==> NoDots(p)
    ensures SplitDots(Join(parts)) == parts
  {
    if |parts| == 1 {
      SplitOne(parts[0]);
    } else {
      SplitHead(parts[0], Join(parts[1..]));
      SplitJoin(parts[1..]);
    }
  }

  lemma {:induction false} CutOff(s: string, suffix: string)
    requires IsSuffix(suffix) && forall c :: c in s ==> c != '-' && c != '+'
    ensures CutSuffix(s + suffix) == s
  {
    if s != "" {
      assert s[0] in s && forall c :: c in s[1..] ==> c in s;
      assert (s + suffix)[1..] == s[1..] + suffix;
      CutOff(s[1..], suffix);
    } else {
      assert s + suffix == suffix;
    }
  }

  lemma {:induction false} TrimFront(pre: string, s: string)
    requires Blank(pre)
    ensures TrimSpace(pre + s) == TrimSpace(s)
  {
    if pre == "" {
      assert pre + s == s;
    } else {
      assert pre[0] in pre && forall c :: c in pre[1..] ==> c in pre;
      assert (pre + s)[1..] == pre[1..] + s;
      TrimFront(pre[1..], s);
    }
  }

  lemma {:induction false} TrimBack(s: string, post: string)
    requires s != "" && !IsSpace(s[0]) && !IsSpace(s[|s| - 1]) && Blank(post)
    ensures TrimSpace(s + post) == s
    decreases |post|
  {
    var all := s + post;
    if post == "" {
      assert all == s;
    } else {
      assert post[|post| - 1] in post && forall c :: c in post[..|post| - 1] ==> c in post;
      assert all[0] == s[0] && all[..|all| - 1] == s + post[..|post| - 1];
      TrimBack(s, post[..|post| - 1]);
    }
  }

  /** Trimming takes blanks only: what is trimmed off the end of a text that begins with no blank is blank. */
  lemma {:induction false} TrimmedPrefix(s: string) returns (post: string)
    requires s != "" && !IsSpace(s[0])
    ensures s == TrimSpace(s) + post && Blank(post) && TrimSpace(s) != ""
    decreases |s|
  {
    if IsSpace(s[|s| - 1]) {
      var fore := TrimmedPrefix(s[..|s| - 1]);
      post := fore + [s[|s| - 1]];
      assert s == s[..|s| - 1] + [s[|s| - 1]];
    } else {
      post := "";
    }
  }

  lemma {:induction false} JoinChars(parts: seq<string>)
    requires forall p, c :: p in parts && c in p ==> IsDigit(c)
    ensures forall c :: c in Join(parts) ==> IsDigit(c) || c == '.'
  {
    if |parts| > 1 {
      JoinChars(parts[1..]);
    } else if |parts| == 1 {
      assert parts[0] in parts;
    }
  }

  lemma {:induction false} JoinEnds(parts: seq<string>)
    requires parts != [] && forall p :: p in parts ==> p != "" && forall c :: c in p ==> IsDigit(c)
    ensures var s := Join(parts); s != "" && IsDigit(s[0]) && IsDigit(s[|s| - 1])
  {
    assert parts[0] in parts && parts[0][0] in parts[0] && parts[0][|parts[0]| - 1] in parts[0];
    if |parts| > 1 {
      assert forall p :: p in parts[1..] ==> p in parts;
      JoinEnds(parts[1..]);
    }
  }

  function Parts(ns: seq<nat>): (parts: seq<string>)
    ensures |parts| == |ns| && forall p :: p in parts ==> p != "" && forall c :: c in p ==> IsDigit(c)
  {
    seq(|ns|, i requires 0 <= i < |ns| => Digits(ns[i]))
  }

  /** The last segment may carry blanks, as the others may not. */
  function Padded(parts: seq<string>, blanks: string): seq<string>
    requires parts != []
  {
    parts[..|parts| - 1] + [parts[|parts| - 1] + blanks]
  }

  lemma {:induction false} JoinPadded(parts: seq<string>, blanks: string)
    requires parts != []
    ensures Join(Padded(parts, blanks)) == Join(parts) + blanks
  {
    var padded := Padded(parts, blanks);
    if |parts| > 1 {
      assert padded[1..] == Padded(parts[1..], blanks);
      JoinPadded(parts[1..], blanks);
    }
  }

  predicate Fitting(ns: seq<nat>) { ns != [] && forall n :: n in ns ==> n <= 0x7fff_ffff_ffff_ffff }

  lemma NumbersBack(ns: seq<nat>, blanks: string)
    requires Fitting(ns) && Blank(blanks)
    ensures Numbers(SplitDots(Join(Padded(Parts(ns), blanks))), true) == ns
  {
    var parts := Parts(ns);
    var padded := Padded(parts, blanks);
    forall p | p in padded ensures NoDots(p) {
      assert p in parts || p == parts[|parts| - 1] + blanks;
      assert parts[|parts| - 1] in parts;
    }
    SplitJoin(padded);
    forall i | 0 <= i < |ns| ensures Number(TrimSpace(padded[i])) == ns[i] {
      var d := Digits(ns[i]);
      assert d[0] in d && d[|d| - 1] in d && ns[i] in ns;
      TrimBack(d, if i == |ns| - 1 then blanks else "");
      assert padded[i] == d + if i == |ns| - 1 then blanks else "";
      NumberOfDigits(ns[i]);
    }
  }

  /** Blanks around a printed version, and any suffix after it, do not matter: its segments are the numbers printed. */
  lemma SegmentsOfPrint(ns: seq<nat>, pre: string, blanks: string, suffix: string)
    requires Fitting(ns) && Blank(pre) && Blank(blanks) && IsSuffix(suffix)
    ensures Segments(pre + Print(ns) + blanks + suffix) == ns
  {
    var s := Print(ns);
    assert s == Join(Parts(ns));
    JoinEnds(Parts(ns));
    JoinChars(Parts(ns));
    JoinPadded(Parts(ns), blanks);
    assert pre + s + blanks + suffix == pre + (s + blanks + suffix);
    TrimFront(pre, s + blanks + suffix);
    if suffix == "" {
      assert s + blanks + suffix == s + blanks;
      TrimBack(s, blanks);
      CutOff(s, "");
      assert s + "" == s;
      NumbersBack(ns, "");
      JoinPadded(Parts(ns), "");
    } else {
      TrimToSuffix(s, blanks, suffix);
      var rest :| IsSuffix(rest) && TrimSpace(s + blanks + suffix) == s + blanks + rest;
      CutOff(s + blanks, rest);
      NumbersBack(ns, blanks);
    }
  }

  /** Trimming does not reach beyond the suffix. */
  lemma TrimToSuffix(s: string, blanks: string, suffix: string)
    requires s != "" && !IsSpace(s[0]) && suffix != "" && IsSuffix(suffix)
    ensures exists rest :: IsSuffix(rest) && TrimSpace(s + blanks + suffix) == s + blanks + rest
  {
    var all := s + blanks + suffix;
    var post := TrimmedPrefix(all);
    forall i | |all| - |post| <= i < |all| ensures IsSpace(all[i]) {
      assert all[i] == post[i - (|all| - |post|)] && all[i] in post;
    }
    assert all[|s + blanks|] == suffix[0];
    var rest := suffix[..|suffix| - |post|];
    assert TrimSpace(all) == all[..|all| - |post|] == s + blanks + rest;
  }

  /** The rollout gate's parser takes a printed version, suffix and all, but no blanks. */
  lemma SplitVersionOfPrint(ns: seq<nat>, suffix: string)
    requires Fitting(ns) && IsSuffix(suffix)
    ensures SplitVersion(Print(ns) + suffix) == ns
  {
    var parts := Parts(ns);
    var s := Print(ns);
    assert s == Join(parts);
    JoinEnds(parts);
    JoinChars(parts);
    CutOff(s, suffix);
    SplitJoin(parts);
    forall i | 0 <= i < |ns| ensures Number(parts[i]) == ns[i] {
      assert ns[i] in ns;
      NumberOfDigits(ns[i]);
    }
  }
}
