/** The OTP limiter: one Redis counter a key, stamped with an expiry by the first hit of a window. */
module RateLimit {
  import opened Common

  const SEND_PHONE_MAX := 3
  const SEND_IP_MAX := 5
  const VERIFY_PHONE_MAX := 5

  /** Windows, in milliseconds. */
  const SEND_WINDOW := 120_000
  const VERIFY_WINDOW := 600_000

  /** A Redis counter; without an expiry it lives until deleted. */
  datatype Counter = Counter(count: nat, expiry: Option<int>)

  predicate Live(c: Option<Counter>, now: int) { c.Some? && (c.value.expiry.Some? ==> now < c.value.expiry.value) }

  /** INCR. */
  function Incr(c: Option<Counter>, now: int): Counter {
    if Live(c, now) then c.value.(count := c.value.count + 1) else Counter(1, None)
  }

  /** INCR and, on the first hit, EXPIRE; `stamped` is whether one of its two tries went through. */
  function Hit(c: Option<Counter>, now: int, window: int, stamped: bool): Counter {
    var n := Incr(c, now);
    if n.count == 1 && stamped then Counter(1, Some(now + window)) else n
  }

  // ---- The limiter ----

  datatype Scope = SendPhone | SendIP | VerifyPhone

  datatype Limited = Limited(retryAfter: int, scope: Scope)

  /** Which of the Redis calls of one hit go through. */
  datatype Net = Net(incr: bool, expire: bool, expireAgain: bool, ttl: bool)

  function PhoneKey(phone: string): string { "otp:send:phone:" + phone }
  function IPKey(ip: string): string { "otp:send:ip:" + ip }
  function VerifyKey(phone: string): string { "otp:verify:phone:" + phone }

  /** The three families of keys never meet, whatever the phones and addresses. */
  lemma KeysApart(p: string, ip: string, v: string)
    ensures PhoneKey(p) != IPKey(ip) && PhoneKey(p) != VerifyKey(v) && IPKey(ip) != VerifyKey(v)
  {
    assert PhoneKey(p)[9] == 'p' && IPKey(ip)[9] == 'i';
    assert PhoneKey(p)[4] == 's' && IPKey(ip)[4] == 's' && VerifyKey(v)[4] == 'v';
  }

  function Lookup(keys: map<string, Counter>, key: string): Option<Counter> {
    if key in keys then Some(keys[key]) else None
  }

  /** What one hit on a key does to the store, and whether it is let through. */
  function Bumped(keys: map<string, Counter>, key: string, now: int, window: int, net: Net): map<string, Counter> {
    if net.incr then keys[key := Hit(Lookup(keys, key), now, window, net.expire || net.expireAgain)] else keys
  }

  predicate Passes(c: Option<Counter>, now: int, max: nat) { Incr(c, now).count <= max }

  predicate LetThrough(keys: map<string, Counter>, key: string, now: int, max: nat, net: Net) {
    net.incr ==> Passes(Lookup(keys, key), now, max)
  }

  /** No window ends later than a full window from now. */
  predicate Timely(c: Option<Counter>, now: int, window: int) {
    c.Some? && c.value.expiry.Some? ==> c.value.expiry.value <= now + window
  }

  class OTPRateLimiter {
    /** False for a limiter without a Redis client. */
    const enabled: bool
    var keys: map<string, Counter>

    constructor (enabled: bool)
      ensures this.enabled == enabled && keys == map[]
    {
      this.enabled, keys := enabled, map[];
    }

    /** A hit that is turned away is told to wait until its window is over, and no longer than a window. */
    method Bump(key: string, max: nat, window: int, scope: Scope, now: int, net: Net) returns (err: Option<Limited>)
      requires window > 0
      modifies this`keys
      ensures keys == Bumped(old(keys), key, now, window, net)
      ensures err.None? <==> LetThrough(old(keys), key, now, max, net)
      ensures !net.incr ==> err.None? && keys == old(keys)
      ensures net.incr ==> key in keys && keys == old(keys)[key := keys[key]] && (err.None? <==> keys[key].count <= max)
      ensures err.Some? ==> err.value.scope == scope && err.value.retryAfter > 0
      ensures err.Some? && Timely(Lookup(old(keys), key), now, window) ==>
        err.value.retryAfter <= window && (keys[key].expiry.Some? ==> !Live(Some(keys[key]), now + err.value.retryAfter))
      ensures err.Some? ==>
        err.value.retryAfter == if net.ttl && keys[key].expiry.Some? && now < keys[key].expiry.value then keys[key].expiry.value - now else window
    {
      if !net.incr {
        return None;
      }
      var c := Incr(Lookup(keys, key), now);
      var n := c.count;
      if n == 1 {
        if net.expire {
          c := c.(expiry := Some(now + window));
        } else if net.expireAgain {
          c := c.(expiry := Some(now + window));
        }
      }
      keys := keys[key := c];
      if n <= max {
        return None;
      }
      var ttl := if c.expiry.Some? then c.expiry.value - now else -1;
      if !net.ttl || ttl <= 0 {
        ttl := window;
      }
      return Some(Limited(ttl, scope));
    }

    /** The phone counter first; the address counter only when the phone passes and there is an address. */
    method CheckSend(phone: string, ip: string, now: int, phoneNet: Net, ipNet: Net) returns (err: Option<Limited>)
      modifies this`keys
      ensures !enabled ==> err.None? && keys == old(keys)
      ensures enabled ==>
        var phoneOk := LetThrough(old(keys), PhoneKey(phone), now, 3, phoneNet);
        var ipOk := ip == "" || LetThrough(old(keys), IPKey(ip), now, 5, ipNet);
        && (err.None? <==> phoneOk && ipOk)
        && (err.Some? ==> err.value.scope == if phoneOk then SendIP else SendPhone)
        && Lookup(keys, PhoneKey(phone)) == Lookup(Bumped(old(keys), PhoneKey(phone), now, 120_000, phoneNet), PhoneKey(phone))
        && Lookup(keys, IPKey(ip)) == (if phoneOk && ip != "" then Lookup(Bumped(old(keys), IPKey(ip), now, 120_000, ipNet), IPKey(ip))
                                       else Lookup(old(keys), IPKey(ip)))
      ensures forall k :: k != PhoneKey(phone) && k != IPKey(ip) ==> Lookup(keys, k) == Lookup(old(keys), k)
    {
      if !enabled {
        return None;
      }
      KeysApart(phone, ip, phone);
      err := Bump(PhoneKey(phone), SEND_PHONE_MAX, SEND_WINDOW, SendPhone, now, phoneNet);
      if err.Some? {
        return;
      }
      if ip != "" {
        err := Bump(IPKey(ip), SEND_IP_MAX, SEND_WINDOW, SendIP, now, ipNet);
      }
    }

    method CheckVerify(phone: string, now: int, net: Net) returns (err: Option<Limited>)
      modifies this`keys
      ensures keys == if enabled then Bumped(old(keys), VerifyKey(phone), now, 600_000, net) else old(keys)
      ensures err.None? <==> !enabled || LetThrough(old(keys), VerifyKey(phone), now, 5, net)
    {
      if !enabled {
        return None;
      }
      err := Bump(VerifyKey(phone), VERIFY_PHONE_MAX, VERIFY_WINDOW, VerifyPhone, now, net);
    }

    /** DEL, when Redis answers: the next attempt opens a fresh window. */
    method ResetVerify(phone: string, up: bool)
      modifies this`keys
      ensures keys == if enabled && up then old(keys) - {VerifyKey(phone)} else old(keys)
    {
      if enabled && up {
        keys := keys - {VerifyKey(phone)};
      }
    }
  }

  /** A hit keeps every window timely, and time passing does too. */
  lemma HitIsTimely(c: Option<Counter>, now: int, later: int, window: int, stamped: bool)
    requires Timely(c, now, window) && now <= later
    ensures Timely(Some(Hit(c, now, window, stamped)), later, window)
  {
  }

  // ---- Hits on one key over time ----

  predicate Clocked(times: seq<int>) { forall i, j :: 0 <= i <= j < |times| ==> times[i] <= times[j] }

  /** The counter after the first n hits, Redis up throughout. */
  function After(times: seq<int>, window: int, n: nat): Option<Counter>
    requires n <= |times|
  {
    if n == 0 then None else Some(Hit(After(times, window, n - 1), times[n - 1], window, true))
  }

  predicate Admitted(times: seq<int>, window: int, max: nat, i: nat)
    requires i < |times|
  {
    Passes(After(times, window, i), times[i], max)
  }

  /** The hit that opened the window in which the i-th hit falls, said from the times alone. */
  function Leader(times: seq<int>, window: int, i: nat): (l: nat)
    requires i < |times|
    ensures l <= i
  {
    if i == 0 then 0
    else
      var l := Leader(times, window, i - 1);
      if times[i] < times[l] + window then l else i
  }

  /** The counter is the position in the window, and the window ends where its leader said, whatever was rejected. */
  lemma {:induction false} CounterIsPosition(times: seq<int>, window: int, i: nat)
    requires window > 0 && Clocked(times) && i < |times|
    ensures var l := Leader(times, window, i);
      && After(times, window, i + 1) == Some(Counter(i - l + 1, Some(times[l] + window)))
      && times[i] < times[l] + window
  {
    if i > 0 {
      CounterIsPosition(times, window, i - 1);
    }
  }

  /** Windows are runs of consecutive hits. */
  lemma {:induction false} SameWindow(times: seq<int>, window: int, i: nat, j: nat)
    requires window > 0 && j < |times| && Leader(times, window, j) <= i <= j
    ensures Leader(times, window, i) == Leader(times, window, j)
    decreases j
  {
    if i < j {
      if Leader(times, window, j) < j {
        SameWindow(times, window, i, j - 1);
      }
    }
  }

  /** The i-th hit passes exactly when it is among the first `max` of its window. */
  lemma AdmittedIff(times: seq<int>, window: int, max: nat, i: nat)
    requires window > 0 && Clocked(times) && i < |times|
    ensures Admitted(times, window, max, i) <==> i - Leader(times, window, i) < max
  {
    CounterIsPosition(times, window, i);
  }

  function WindowHits(times: seq<int>, window: int, l: nat, n: nat): set<nat>
    requires n <= |times|
  {
    set i: nat | i < n && Leader(times, window, i) == l
  }

  lemma {:induction false} WindowIsRange(times: seq<int>, window: int, l: nat, n: nat)
    requires window > 0 && n <= |times|
    ensures exists e: nat :: e >= l && WindowHits(times, window, l, n) == Range(l, e)
  {
    if n == 0 {
      assert WindowHits(times, window, l, n) == Range(l, l);
    } else {
      WindowIsRange(times, window, l, n - 1);
      var e: nat :| e >= l && WindowHits(times, window, l, n - 1) == Range(l, e);
      if Leader(times, window, n - 1) == l {
        forall i: nat | l <= i < n ensures i in WindowHits(times, window, l, n) {
          SameWindow(times, window, i, n - 1);
        }
        assert WindowHits(times, window, l, n) == Range(l, n);
      } else {
        assert WindowHits(times, window, l, n) == WindowHits(times, window, l, n - 1);
      }
    }
  }

  function AdmittedIn(times: seq<int>, window: int, max: nat, hits: set<nat>): set<nat>
    requires forall i :: i in hits ==> i < |times|
  {
    set i | i in hits && Admitted(times, window, max, i)
  }

  /** Each window lets through exactly its first `max` hits: min(hits, max) of them. */
  lemma WindowAdmitsExactly(times: seq<int>, window: int, max: nat, l: nat)
    requires window > 0 && Clocked(times)
    ensures var hits := WindowHits(times, window, l, |times|);
      && (forall i :: i in hits ==> (Admitted(times, window, max, i) <==> i - l < max))
      && |AdmittedIn(times, window, max, hits)| == if |hits| < max then |hits| else max
  {
    var hits := WindowHits(times, window, l, |times|);
    forall i | i in hits ensures Admitted(times, window, max, i) <==> i - l < max {
      AdmittedIff(times, window, max, i);
    }
    WindowIsRange(times, window, l, |times|);
    var e: nat :| e >= l && hits == Range(l, e);
    var top := if e - l < max then e else l + max;
    assert AdmittedIn(times, window, max, hits) == Range(l, top);
    RangeCount(l, e);
    RangeCount(l, top);
  }

  /** The hits with times in [from, from + window). */
  function Between(times: seq<int>, window: int, from: int): set<nat> {
    set i: nat | i < |times| && from <= times[i] < from + window
  }

  /** A later window opens at least a window after an earlier one. */
  lemma {:induction false} LeadersApart(times: seq<int>, window: int, i: nat, j: nat)
    requires window > 0 && Clocked(times) && i < j < |times| && Leader(times, window, i) < Leader(times, window, j)
    ensures i < Leader(times, window, j)
    ensures times[Leader(times, window, j)] >= times[Leader(times, window, i)] + window
    decreases j
  {
    var prev := Leader(times, window, j - 1);
    LeaderGrows(times, window, i, j - 1);
    if i < j - 1 && Leader(times, window, i) < prev {
      LeadersApart(times, window, i, j - 1);
    }
    if Leader(times, window, j) == j {
      assert times[j] >= times[prev] + window;
      assert times[prev] >= times[Leader(times, window, i)];
    }
  }

  lemma {:induction false} LeaderGrows(times: seq<int>, window: int, i: nat, j: nat)
    requires i <= j < |times|
    ensures Leader(times, window, i) <= Leader(times, window, j)
    decreases j
  {
    if i < j {
      LeaderGrows(times, window, i, j - 1);
    }
  }

  /** Hits inside one interval belong to the window of its first hit or to the next one. */
  lemma OnlyTwoWindows(times: seq<int>, window: int, from: int, first: nat, second: nat, i: nat)
    requires window > 0 && Clocked(times)
    requires first in Between(times, window, from) && second in Between(times, window, from) && i in Between(times, window, from)
    requires first <= i && first < second && Leader(times, window, second) > Leader(times, window, first)
    ensures Leader(times, window, i) in {Leader(times, window, first), Leader(times, window, second)}
  {
  }

  lemma {:induction false} FirstOf(s: set<nat>, x: nat) returns (first: nat)
    requires x in s
    ensures first in s && forall y :: y in s ==> first <= y
    decreases x
  {
    if y :| y in s && y < x {
      first := FirstOf(s, y);
    } else {
      first := x;
    }
  }

  /** All in one window. */
  lemma OneWindow(times: seq<int>, window: int, max: nat, l: nat, hits: set<nat>)
    requires window > 0 && Clocked(times)
    requires forall i :: i in hits ==> i < |times| && Admitted(times, window, max, i) && Leader(times, window, i) == l
    ensures hits <= Range(l, l + max) && |hits| <= max
  {
    forall i | i in hits ensures i in Range(l, l + max) {
      AdmittedIff(times, window, max, i);
      assert During(i, l, l + max);
    }
    RangeCount(l, l + max);
    SubsetCount(hits, Range(l, l + max));
  }

  /** Hits of two windows, the opening hit of the first not among them. */
  lemma CountTwo(times: seq<int>, window: int, max: nat, l: nat, m: nat, all: set<nat>)
    requires window > 0 && max > 0 && Clocked(times) && l !in all
    requires forall i :: i in all ==> i < |times| && Admitted(times, window, max, i) && Leader(times, window, i) in {l, m}
    ensures |all| <= 2 * max - 1
  {
    var a := set i | i in all && Leader(times, window, i) == l;
    var b := all - a;
    OneWindow(times, window, max, l, a);
    OneWindow(times, window, max, m, b);
    LessOne(a, l, max);
    assert all == a + b;
  }

  lemma TwoWindows(times: seq<int>, window: int, max: nat, from: int, first: nat, second: nat, all: set<nat>)
    requires window > 0 && max > 0 && Clocked(times)
    requires forall i :: i in all ==> i < |times| && i in Between(times, window, from) && Admitted(times, window, max, i) && first <= i
    requires first in all && second in all && Leader(times, window, second) != Leader(times, window, first)
    ensures |all| <= 2 * max - 1
  {
    LeaderGrows(times, window, first, second);
    var l, m := Leader(times, window, first), Leader(times, window, second);
    forall i | i in all ensures Leader(times, window, i) in {l, m} {
      OnlyTwoWindows(times, window, from, first, second, i);
    }
    LeadersApart(times, window, first, second);
    CountTwo(times, window, max, l, m, all);
  }

  /**
   Any half-open interval of one window's length lets through at most 2 * max - 1 hits: those of two windows,
   less the hit that opened the first, which is too old to be inside when the second is reached.
   */
  lemma IntervalBound(times: seq<int>, window: int, max: nat, from: int)
    requires window > 0 && max > 0 && Clocked(times)
    ensures |AdmittedIn(times, window, max, Between(times, window, from))| <= 2 * max - 1
  {
    var inside := Between(times, window, from);
    var all := AdmittedIn(times, window, max, inside);
    if x :| x in all {
      var first := FirstOf(all, x);
      var l := Leader(times, window, first);
      if second :| second in all && Leader(times, window, second) != l {
        TwoWindows(times, window, max, from, first, second, all);
      } else {
        OneWindow(times, window, max, l, all);
      }
    } else {
      assert all == {};
    }
  }

  lemma LessOne(hits: set<nat>, l: nat, max: nat)
    requires max > 0 && hits <= Range(l, l + max) && l !in hits
    ensures |hits| <= max - 1
  {
    forall i | i in hits ensures i in Range(l + 1, l + max) {
      assert i in Range(l, l + max);
    }
    RangeCount(l + 1, l + max);
    SubsetCount(hits, Range(l + 1, l + max));
  }

  // ---- The laws hold of the limiter's calls ----

  /** One call of Bump on some key. */
  datatype Call = Call(key: string, now: int, net: Net)

  /** The store after a run of calls with one window. */
  function StoreAfter(calls: seq<Call>, window: int): map<string, Counter> {
    if calls == [] then map[]
    else
      var c := calls[|calls| - 1];
      Bumped(StoreAfter(calls[..|calls| - 1], window), c.key, c.now, window, c.net)
  }

  /** The times of the calls on one key. */
  function HitsOn(calls: seq<Call>, key: string): seq<int> {
    if calls == [] then []
    else
      var c := calls[|calls| - 1];
      HitsOn(calls[..|calls| - 1], key) + if c.key == key then [c.now] else []
  }

  /** For calls on this key Redis answers, and one of the two tries to stamp the expiry goes through. */
  ghost predicate UpFor(calls: seq<Call>, key: string) {
    forall i :: 0 <= i < |calls| && calls[i].key == key ==> calls[i].net.incr && (calls[i].net.expire || calls[i].net.expireAgain)
  }

  ghost predicate InOrder(calls: seq<Call>) { forall i, j :: 0 <= i <= j < |calls| ==> calls[i].now <= calls[j].now }

  lemma {:induction false} HitsAreClocked(calls: seq<Call>, key: string)
    requires InOrder(calls)
    ensures var times := HitsOn(calls, key);
      Clocked(times) && forall i :: 0 <= i < |times| ==> calls != [] && times[i] <= calls[|calls| - 1].now
  {
    if calls != [] {
      var fore := calls[..|calls| - 1];
      HitsAreClocked(fore, key);
      assert forall i :: 0 <= i < |HitsOn(fore, key)| ==> HitsOn(fore, key)[i] <= calls[|calls| - 1].now;
    }
  }

  lemma {:induction false} AfterPrefix(times: seq<int>, more: seq<int>, window: int, n: nat)
    requires n <= |times|
    ensures After(times + more, window, n) == After(times, window, n)
  {
    if n > 0 {
      AfterPrefix(times, more, window, n - 1);
    }
  }

  /** Whatever is called for other keys, a key's counter is what its own hits made of it. */
  lemma {:induction false} CounterOfKey(calls: seq<Call>, key: string, window: int)
    requires UpFor(calls, key)
    ensures var times := HitsOn(calls, key); Lookup(StoreAfter(calls, window), key) == After(times, window, |times|)
  {
    if calls != [] {
      var fore, c := calls[..|calls| - 1], calls[|calls| - 1];
      CounterOfKey(fore, key, window);
      if c.key == key {
        var times := HitsOn(fore, key);
        AfterPrefix(times, [c.now], window, |times|);
        assert HitsOn(calls, key) == times + [c.now] && c.net.incr && (c.net.expire || c.net.expireAgain);
      } else {
        assert HitsOn(calls, key) == HitsOn(fore, key);
      }
    }
  }

  lemma {:induction false} HitsSplit(calls: seq<Call>, n: nat, key: string) returns (more: seq<int>)
    requires n <= |calls|
    ensures HitsOn(calls, key) == HitsOn(calls[..n], key) + more
    decreases |calls|
  {
    if n == |calls| {
      assert calls[..n] == calls;
      more := [];
    } else {
      var last := |calls| - 1;
      assert calls[..last][..n] == calls[..n];
      more := HitsSplit(calls[..last], n, key);
      more := more + if calls[last].key == key then [calls[last].now] else [];
    }
  }

  /**
   In any run of calls on any keys, a call that finds Redis up is let through exactly when its hit, the i-th on its key,
   is among the first `max` of its window. So what is said of hits below and above is said of the limiter's answers.
   */
  lemma CallPassesIff(calls: seq<Call>, n: nat, window: int, max: nat)
    requires window > 0 && InOrder(calls) && n < |calls| && UpFor(calls, calls[n].key)
    ensures var c := calls[n];
      var times, i := HitsOn(calls, c.key), |HitsOn(calls[..n], c.key)|;
      && i < |times| && times[i] == c.now
      && (LetThrough(StoreAfter(calls[..n], window), c.key, c.now, max, c.net) <==> i - Leader(times, window, i) < max)
      && (LetThrough(StoreAfter(calls[..n], window), c.key, c.now, max, c.net) <==> Admitted(times, window, max, i))
  {
    var c := calls[n];
    var i := |HitsOn(calls[..n], c.key)|;
    var more := HitsSplit(calls, n + 1, c.key);
    assert calls[..n + 1][..n] == calls[..n];
    HitsAreClocked(calls, c.key);
    CounterOfKey(calls[..n], c.key, window);
    AfterPrefix(HitsOn(calls[..n], c.key), [c.now] + more, window, i);
    assert HitsOn(calls, c.key) == HitsOn(calls[..n], c.key) + ([c.now] + more);
    AdmittedIff(HitsOn(calls, c.key), window, max, i);
  }

  /** Which hit on its key a call is. */
  function HitIndex(calls: seq<Call>, n: nat): nat
    requires n < |calls|
  {
    |HitsOn(calls[..n], calls[n].key)|
  }

  /** The calls on the key that are answered with no error, among those whose hits are in `hits`. */
  function AnsweredNone(calls: seq<Call>, key: string, window: int, max: nat, hits: set<nat>): set<nat> {
    set n: nat | n < |calls| && calls[n].key == key && HitIndex(calls, n) in hits
      && LetThrough(StoreAfter(calls[..n], window), key, calls[n].now, max, calls[n].net)
  }

  /** A call on the key takes one place among its hits. */
  lemma PlaceOfCall(calls: seq<Call>, n: nat, m: nat)
    requires n < m < |calls| && calls[n].key == calls[m].key
    ensures HitIndex(calls, n) < HitIndex(calls, m)
  {
    assert calls[..m][..n + 1] == calls[..n + 1] && calls[..n + 1][..n] == calls[..n];
    var more := HitsSplit(calls[..m], n + 1, calls[n].key);
  }

  lemma {:induction false} CallOfHit(calls: seq<Call>, key: string, i: nat) returns (n: nat)
    requires i < |HitsOn(calls, key)|
    ensures n < |calls| && calls[n].key == key && HitIndex(calls, n) == i
  {
    var last := |calls| - 1;
    if i < |HitsOn(calls[..last], key)| {
      n := CallOfHit(calls[..last], key, i);
      assert calls[..last][..n] == calls[..n];
    } else {
      n := last;
    }
  }

  /** Among any of a key's hits, as many calls are answered with no error as hits are admitted. */
  lemma AnswersAreAdmissions(calls: seq<Call>, key: string, window: int, max: nat, hits: set<nat>)
    requires window > 0 && InOrder(calls) && UpFor(calls, key) && forall i :: i in hits ==> i < |HitsOn(calls, key)|
    ensures |AnsweredNone(calls, key, window, max, hits)| == |AdmittedIn(HitsOn(calls, key), window, max, hits)|
  {
    var passing := AnsweredNone(calls, key, window, max, hits);
    var admitted := AdmittedIn(HitsOn(calls, key), window, max, hits);
    var place := (n: nat) => if n < |calls| then HitIndex(calls, n) else 0;
    forall n | n in passing ensures place(n) in admitted {
      CallPassesIff(calls, n, window, max);
    }
    forall n, m | n in passing && m in passing && place(n) == place(m) ensures n == m {
      if n < m {
        PlaceOfCall(calls, n, m);
      } else if m < n {
        PlaceOfCall(calls, m, n);
      }
    }
    forall i | i in admitted ensures exists n :: n in passing && place(n) == i {
      var n := CallOfHit(calls, key, i);
      CallPassesIff(calls, n, window, max);
      assert n in passing && place(n) == i;
    }
    MatchedCount<nat, nat>(passing, admitted, place);
  }

  /** So no interval of a window's length sees more than 2 * max - 1 calls on a key answered with no error. */
  lemma AnswersInInterval(calls: seq<Call>, key: string, window: int, max: nat, from: int)
    requires window > 0 && max > 0 && InOrder(calls) && UpFor(calls, key)
    ensures |AnsweredNone(calls, key, window, max, Between(HitsOn(calls, key), window, from))| <= 2 * max - 1
  {
    HitsAreClocked(calls, key);
    AnswersAreAdmissions(calls, key, window, max, Between(HitsOn(calls, key), window, from));
    IntervalBound(HitsOn(calls, key), window, max, from);
  }

  /** And of the calls of one window, min(hits, max) are. */
  lemma AnswersInWindow(calls: seq<Call>, key: string, window: int, max: nat, l: nat)
    requires window > 0 && InOrder(calls) && UpFor(calls, key)
    ensures var times := HitsOn(calls, key);
      var hits := WindowHits(times, window, l, |times|);
      |AnsweredNone(calls, key, window, max, hits)| == if |hits| < max then |hits| else max
  {
    var times := HitsOn(calls, key);
    HitsAreClocked(calls, key);
    AnswersAreAdmissions(calls, key, window, max, WindowHits(times, window, l, |times|));
    WindowAdmitsExactly(times, window, max, l);
  }

  /** A Redis call that goes through in all its parts. */
  const UP := Net(true, true, true, true)

  /** Of four requests for one phone within two minutes the first three are let through; after them, so is a fifth. */
  lemma ThreeCodesInTwoMinutes(phone: string, t0: int, t1: int, t2: int, t3: int, t4: int)
    requires t0 <= t1 <= t2 <= t3 < t0 + 120_000 <= t4
    ensures var key := PhoneKey(phone);
      var calls := [Call(key, t0, UP), Call(key, t1, UP), Call(key, t2, UP), Call(key, t3, UP), Call(key, t4, UP)];
      forall n :: 0 <= n < 5 ==>
        (LetThrough(StoreAfter(calls[..n], SEND_WINDOW), key, calls[n].now, SEND_PHONE_MAX, UP) <==> n != 3)
  {
    var key := PhoneKey(phone);
    var calls := [Call(key, t0, UP), Call(key, t1, UP), Call(key, t2, UP), Call(key, t3, UP), Call(key, t4, UP)];
    AllHits(key, calls);
    var times := HitsOn(calls, key);
    FiveLeaders(times);
    forall n | 0 <= n < 5 ensures LetThrough(StoreAfter(calls[..n], SEND_WINDOW), key, calls[n].now, SEND_PHONE_MAX, UP) <==> n != 3 {
      CallPassesIff(calls, n, SEND_WINDOW, SEND_PHONE_MAX);
      AllHits(key, calls[..n]);
    }
  }

  lemma {:induction false} AllHits(key: string, calls: seq<Call>)
    requires forall i :: 0 <= i < |calls| ==> calls[i].key == key
    ensures |HitsOn(calls, key)| == |calls| && forall i :: 0 <= i < |calls| ==> HitsOn(calls, key)[i] == calls[i].now
  {
    if calls != [] {
      AllHits(key, calls[..|calls| - 1]);
    }
  }

  lemma FiveLeaders(times: seq<int>)
    requires |times| == 5 && Clocked(times) && times[3] < times[0] + SEND_WINDOW <= times[4]
    ensures Leader(times, SEND_WINDOW, 4) == 4 && forall i :: 0 <= i < 4 ==> Leader(times, SEND_WINDOW, i) == 0
  {
    assert Leader(times, SEND_WINDOW, 0) == 0 && Leader(times, SEND_WINDOW, 1) == 0;
    assert Leader(times, SEND_WINDOW, 2) == 0 && Leader(times, SEND_WINDOW, 3) == 0;
  }

  // ---- The bound is reached ----

  /** One hit at 0, max - 1 just before its window ends, then max right after: all of them pass. */
  function Burst(window: int, max: nat): seq<int>
    requires max > 0
  {
    seq(2 * max, i => if i == 0 then 0 else if i < max then window - 1 else window)
  }

  lemma {:induction false} BurstLeader(window: int, max: nat, i: nat)
    requires window > 1 && max > 0 && i < 2 * max
    ensures Leader(Burst(window, max), window, i) == if i < max then 0 else max
  {
    if i > 0 {
      BurstLeader(window, max, i - 1);
    }
  }

  /** So a window of this limiter does not slide: 2 * max - 1 hits pass within one window's length. */
  lemma BoundIsReached(window: int, max: nat)
    requires window > 1 && max > 0
    ensures Clocked(Burst(window, max))
    ensures |AdmittedIn(Burst(window, max), window, max, Between(Burst(window, max), window, window - 1))| == 2 * max - 1
  {
    var times := Burst(window, max);
    var inside := Between(times, window, window - 1);
    forall i: nat | i < 2 * max ensures Admitted(times, window, max, i) {
      BurstLeader(window, max, i);
      AdmittedIff(times, window, max, i);
    }
    forall i: nat ensures i in inside <==> i in Range(1, 2 * max) {
      assert During(i, 1, 2 * max) <==> 1 <= i < 2 * max;
    }
    assert AdmittedIn(times, window, max, inside) == Range(1, 2 * max);
    RangeCount(1, 2 * max);
  }

  // ---- A lost expiry ----

  /** The counter after further hits, Redis up. */
  function Onward(c: Counter, times: seq<int>, window: int): Counter {
    if times == [] then c else Hit(Some(Onward(c, times[..|times| - 1], window)), times[|times| - 1], window, true)
  }

  /** When both tries to stamp the first hit fail, the key lets max hits through once and nothing ever after. */
  lemma {:induction false} UnstampedIsForever(now: int, times: seq<int>, window: int, max: nat)
    ensures var c := Onward(Hit(None, now, window, false), times, window);
      c == Counter(|times| + 1, None) && (c.count <= max <==> |times| < max)
  {
    if times != [] {
      UnstampedIsForever(now, times[..|times| - 1], window, max);
    }
  }
}
