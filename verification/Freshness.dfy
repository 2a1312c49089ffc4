/** How old a value served by a single source can be, over any run of requests sharing Redis. */
module Freshness {
  import opened Common
  import opened Json
  import opened Hydrator

  /** One call for one source, by some request at some time. */
  datatype Call = Call(job: Job, src: SourceDef, answer: Answer<Json>)

  /** A value the source itself gave, and to whom. */
  datatype Fetched = Fetched(key: string, caller: Request, value: Json, at: int)

  datatype State = State(cache: Cache, log: seq<Fetched>)

  function FateOfCall(reg: Registry, s: State, c: Call): Fate {
    OneFate(Cached(s.cache, reg, c.job, c.src.key), c.src.critical, c.answer)
  }

  function Step(reg: Registry, s: State, c: Call): State {
    State(OneCache(s.cache, reg, c.job, c.src, c.answer),
          if Cached(s.cache, reg, c.job, c.src.key).None? && c.answer.Got?
          then s.log + [Fetched(c.src.key, c.job.rc, c.answer.value, c.job.now)]
          else s.log)
  }

  /** The state after the first n calls, from an empty Redis. */
  function Run(reg: Registry, calls: seq<Call>, n: nat): State
    requires n <= |calls|
  {
    if n == 0 then State(map[], []) else Step(reg, Run(reg, calls, n - 1), calls[n - 1])
  }

  /** Calls for registered sources, in the order of their times. */
  ghost predicate Calls(reg: Registry, calls: seq<Call>) {
    && WellKeyed(reg)
    && (forall i :: 0 <= i < |calls| ==> calls[i].src.key in reg && calls[i].src == reg[calls[i].src.key])
    && (forall i, j :: 0 <= i <= j < |calls| ==> calls[i].job.now <= calls[j].job.now)
  }

  /** An entry stems from a fetch for its own key and scope, one TTL before it expires. */
  ghost predicate Stems(reg: Registry, f: Fetched, ck: (string, string), e: Entry, now: int) {
    ck.0 in reg && f.key == ck.0 && ck == CacheKey(reg, f.caller, f.key) && f.value == e.value && f.at == e.expiry - reg[ck.0].ttl && f.at <= now
  }

  ghost predicate Inv(reg: Registry, s: State, now: int) {
    forall ck :: ck in s.cache ==> exists f :: f in s.log && Stems(reg, f, ck, s.cache[ck], now)
  }

  lemma StepKeepsInv(reg: Registry, s: State, c: Call, now: int)
    requires WellKeyed(reg) && c.src.key in reg && c.src == reg[c.src.key] && now <= c.job.now && Inv(reg, s, now)
    ensures Inv(reg, Step(reg, s, c), c.job.now)
  {
    var t := Step(reg, s, c);
    forall ck | ck in t.cache ensures exists f :: f in t.log && Stems(reg, f, ck, t.cache[ck], c.job.now) {
      if ck in s.cache && t.cache[ck] == s.cache[ck] {
        var f :| f in s.log && Stems(reg, f, ck, s.cache[ck], now);
        assert f in t.log && Stems(reg, f, ck, t.cache[ck], c.job.now);
      } else {
        var f := Fetched(c.src.key, c.job.rc, c.answer.value, c.job.now);
        assert f == t.log[|s.log|] && f in t.log;
        assert Stems(reg, f, ck, t.cache[ck], c.job.now);
      }
    }
  }

  lemma {:induction false} RunKeepsInv(reg: Registry, calls: seq<Call>, n: nat)
    requires Calls(reg, calls) && 0 < n <= |calls|
    ensures Inv(reg, Run(reg, calls, n), calls[n - 1].job.now)
  {
    if n > 1 {
      RunKeepsInv(reg, calls, n - 1);
      StepKeepsInv(reg, Run(reg, calls, n - 1), calls[n - 1], calls[n - 2].job.now);
    } else {
      StepKeepsInv(reg, Run(reg, calls, 0), calls[0], calls[0].job.now);
    }
  }

  /**
   The fetch a served value comes from: same key and value, this call's own or younger than the TTL, and asked for by the
   same user or, for a source that is not user-scoped, from the same zone.
   */
  ghost predicate Recent(f: Fetched, c: Call, v: Json) {
    && f.key == c.src.key && f.value == v
    && (if c.src.userScoped then SameUser(f.caller.userId, c.job.rc.userId) else f.caller.zone == c.job.rc.zone)
    && f.at <= c.job.now && (f.at == c.job.now || c.job.now - f.at < c.src.ttl)
  }

  /** Whatever a call serves, the source gave within its TTL, and to the same user: nobody sees another user's value. */
  lemma ServedIsRecent(reg: Registry, calls: seq<Call>, i: nat) returns (f: Fetched)
    requires Calls(reg, calls) && i < |calls| && FateOfCall(reg, Run(reg, calls, i), calls[i]).Found?
    ensures f in Run(reg, calls, i + 1).log && Recent(f, calls[i], FateOfCall(reg, Run(reg, calls, i), calls[i]).v)
  {
    var s, c := Run(reg, calls, i), calls[i];
    var cached := Cached(s.cache, reg, c.job, c.src.key);
    if cached.Some? {
      var ck := CacheKey(reg, c.job.rc, c.src.key);
      if i > 0 {
        RunKeepsInv(reg, calls, i);
        f :| f in s.log && Stems(reg, f, ck, s.cache[ck], calls[i - 1].job.now);
        EntriesAreShared(reg, f.caller, c.job.rc, f.key);
      }
    } else {
      f := Fetched(c.src.key, c.job.rc, c.answer.value, c.job.now);
      assert f == Run(reg, calls, i + 1).log[|s.log|];
    }
  }

  /** A call whose SET goes through spares the source every later call of the same user (zone) that Redis answers within the TTL. */
  lemma CacheSpares(reg: Registry, s: State, c: Call, later: Call)
    requires WellKeyed(reg) && c.src.key in reg && c.src == reg[c.src.key] && later.src == c.src
    requires FateOfCall(reg, s, c).Found? && Cached(s.cache, reg, c.job, c.src.key).None?
    requires c.src.key in c.job.writable && c.src.key in later.job.readable
    requires if c.src.userScoped then SameUser(later.job.rc.userId, c.job.rc.userId) else later.job.rc.zone == c.job.rc.zone
    requires later.job.now < c.job.now + c.src.ttl && c.src.ttl > 0
    ensures FateOfCall(reg, Step(reg, s, c), later) == FateOfCall(reg, s, c)
    ensures Step(reg, Step(reg, s, c), later) == Step(reg, s, c)
  {
    EntriesAreShared(reg, c.job.rc, later.job.rc, c.src.key);
  }
}
