/** Fetching the values a page's references name: Redis first, then each source or batch, with partial failure. */
module Hydrator {
  import opened Common
  import opened Json
  import Refs

  const I18N_BATCH := "i18n"

  /** In milliseconds. */
  const DEFAULT_BATCH_TTL := 30_000

  /** A registered source, fetched on its own or as part of a batch. */
  datatype SourceDef =
    SourceDef(key: string, returnType: string, batch: string, hasFetch: bool, userScoped: bool, critical: bool, ttl: int)

  type Registry = map<string, SourceDef>

  /** The caller; the zone is the rounded position. */
  datatype Request = Request(userId: string, zone: string)

  datatype Entry = Entry(value: Json, expiry: int)

  /** Entries by reference key and scope. */
  type Cache = map<(string, string), Entry>

  /** A request at an instant, and the keys whose Redis GET and SET go through. */
  datatype Job = Job(rc: Request, now: int, readable: set<string>, writable: set<string>)

  /** An upstream answer; a failure may be a deadline or a cancellation: the time budget's, the source's own, or the task group's. */
  datatype Answer<+T> = Got(value: T) | Failed(deadline: bool)

  type Batch = map<string, Json>

  ghost predicate WellKeyed(reg: Registry) { forall k :: k in reg ==> reg[k].key == k }

  function Scope(rc: Request, userScoped: bool): string {
    if userScoped then (if rc.userId == "" then "guest" else rc.userId) else rc.zone
  }

  function CacheKey(reg: Registry, rc: Request, k: string): (string, string) {
    (k, Scope(rc, k in reg && reg[k].userScoped))
  }

  /** The same user; whoever has no id counts as "guest". */
  predicate SameUser(a: string, b: string) {
    a == b || ((a == "" || a == "guest") && (b == "" || b == "guest"))
  }

  /** Two requests share a cache entry of a user-scoped source exactly when they are the same user's, and else by their zone. */
  lemma EntriesAreShared(reg: Registry, a: Request, b: Request, k: string)
    ensures CacheKey(reg, a, k) == CacheKey(reg, b, k) <==>
      if k in reg && reg[k].userScoped then SameUser(a.userId, b.userId) else a.zone == b.zone
  {
  }

  function Lookup(cache: Cache, ck: (string, string)): Option<Entry> { if ck in cache then Some(cache[ck]) else None }

  function Cached(cache: Cache, reg: Registry, job: Job, k: string): Option<Json> {
    var e := Lookup(cache, CacheKey(reg, job.rc, k));
    if k in job.readable && e.Some? && job.now < e.value.expiry then Some(e.value.value) else None
  }

  predicate Critical(reg: Registry, k: string) { k in reg && reg[k].critical }

  // ---- Lists of keys ----

  predicate NoDuplicates(s: seq<string>) { forall i, j :: 0 <= i < j < |s| ==> s[i] != s[j] }

  function Dedupe(s: seq<string>): seq<string> {
    if s == [] then []
    else
      var d := Dedupe(s[..|s| - 1]);
      if s[|s| - 1] in d then d else d + [s[|s| - 1]]
  }

  /** `a` is met before `b` is. */
  ghost predicate MetBefore(s: seq<string>, a: string, b: string) { exists p :: 0 <= p < |s| && s[p] == a && b !in s[..p + 1] }

  /** Each key once, in the order in which the keys are first met. */
  lemma {:induction false} DedupeKeeps(s: seq<string>)
    ensures NoDuplicates(Dedupe(s))
    ensures forall k :: k in Dedupe(s) <==> k in s
    ensures forall i, j :: 0 <= i < j < |Dedupe(s)| ==> MetBefore(s, Dedupe(s)[i], Dedupe(s)[j])
  {
    if s != [] {
      var fore := s[..|s| - 1];
      DedupeKeeps(fore);
      assert s == fore + [s[|s| - 1]];
      forall i, j | 0 <= i < j < |Dedupe(s)| ensures MetBefore(s, Dedupe(s)[i], Dedupe(s)[j]) {
        MetInPrefix(fore, s[|s| - 1], Dedupe(s)[i], Dedupe(s)[j]);
      }
    }
  }

  lemma MetInPrefix(s: seq<string>, last: string, a: string, b: string)
    ensures a in s && b !in s ==> MetBefore(s, a, b)
    ensures MetBefore(s, a, b) ==> MetBefore(s + [last], a, b)
  {
    if MetBefore(s, a, b) {
      var p :| 0 <= p < |s| && s[p] == a && b !in s[..p + 1];
      assert (s + [last])[..p + 1] == s[..p + 1];
    }
  }

  method DedupeStrings(s: seq<string>) returns (out: seq<string>)
    ensures out == Dedupe(s)
  {
    var seen: set<string> := {};
    out := [];
    for i := 0 to |s|
      invariant out == Dedupe(s[..i])
      invariant forall k :: k in seen <==> k in out
    {
      assert s[..i + 1][..i] == s[..i];
      if s[i] !in seen {
        seen := seen + {s[i]};
        out := out + [s[i]];
      }
    }
    assert s[..|s|] == s;
  }

  // ---- What becomes of a key ----

  /** Which batch serves the key; "" for a source of its own. */
  function BatchOf(reg: Registry, k: string): string {
    if Refs.IsI18nKey(k) then I18N_BATCH else if k in reg then reg[k].batch else ""
  }

  predicate Eligible(reg: Registry, k: string) {
    Refs.IsI18nKey(k) || (k in reg && (reg[k].batch != "" || reg[k].hasFetch))
  }

  /** Unknown, found, not found, or dropped because its task failed the whole request. */
  datatype Fate = Skipped | Found(v: Json) | Missed | Lost(deadline: bool)

  function OneFate(cached: Option<Json>, critical: bool, a: Answer<Json>): Fate {
    if cached.Some? then Found(cached.value)
    else match a
      case Got(v) => Found(v)
      case Failed(d) => if critical then Lost(d) else Missed
  }

  /** The keys of a batch that Redis does not answer. */
  function Pending(cache: Cache, reg: Registry, job: Job, keys: seq<string>): seq<string> {
    if keys == [] then []
    else
      var k := keys[|keys| - 1];
      Pending(cache, reg, job, keys[..|keys| - 1]) + if Cached(cache, reg, job, k).None? then [k] else []
  }

  lemma {:induction false} PendingIs(cache: Cache, reg: Registry, job: Job, keys: seq<string>)
    ensures var r := Pending(cache, reg, job, keys);
      && (forall k :: k in r <==> k in keys && Cached(cache, reg, job, k).None?)
      && (NoDuplicates(keys) ==> NoDuplicates(r))
  {
    if keys != [] {
      PendingIs(cache, reg, job, keys[..|keys| - 1]);
      assert keys == keys[..|keys| - 1] + [keys[|keys| - 1]];
    }
  }

  predicate Delivered(m: Batch, k: string) { k in m && m[k] != Null }

  predicate AnyCritical(reg: Registry, keys: seq<string>) { exists k :: k in keys && Critical(reg, k) }

  function BatchFate(cached: Option<Json>, k: string, registered: bool, critical: bool, a: Answer<Batch>): Fate {
    if !registered then Missed
    else if a.Failed? && critical then Lost(a.deadline)
    else if cached.Some? then Found(cached.value)
    else if a.Got? && Delivered(a.value, k) then Found(a.value[k])
    else Missed
  }

  /** Whether the batch fails the request, and why. */
  function BatchFailure(reg: Registry, registered: bool, pending: seq<string>, a: Answer<Batch>): Option<bool> {
    if registered && a.Failed? && AnyCritical(reg, pending) then Some(a.deadline) else None
  }

  /** The batch's keys divided into values and missing keys, each by its fate. */
  ghost predicate Splits(cache: Cache, reg: Registry, job: Job, keys: seq<string>, registered: bool, a: Answer<Batch>,
                         values: Batch, missing: seq<string>) {
    && NoDuplicates(missing)
    && (forall k :: k in values || k in missing ==> k in keys)
    && (forall k :: k in keys ==>
         match BatchFate(Cached(cache, reg, job, k), k, registered, false, a)
         case Found(v) => k in values && values[k] == v && k !in missing
         case _ => k !in values && k in missing)
  }

  /** What Redis answered of a batch's keys. */
  ghost predicate AreHits(cache: Cache, reg: Registry, job: Job, keys: seq<string>, hits: Batch) {
    && (forall k :: k in hits <==> k in keys && Cached(cache, reg, job, k).Some?)
    && (forall k :: k in hits ==> Cached(cache, reg, job, k) == Some(hits[k]))
  }

  /** Redis's hits merged with what a fetch delivered of the pending keys. */
  ghost predicate Merged(hits: Batch, pending: seq<string>, m: Batch, values: Batch, missing: seq<string>) {
    && (forall k :: k in values <==> k in hits || (k in pending && Delivered(m, k)))
    && (forall k :: k in hits ==> values[k] == hits[k])
    && (forall k :: k in pending && Delivered(m, k) ==> values[k] == m[k])
    && (forall k :: k in missing <==> k in pending && !Delivered(m, k))
    && NoDuplicates(missing)
  }

  lemma MergedNext(hits: Batch, pending: seq<string>, m: Batch, values: Batch, missing: seq<string>, k: string)
    requires Merged(hits, pending, m, values, missing) && k !in pending && k !in hits
    ensures Delivered(m, k) ==> Merged(hits, pending + [k], m, values[k := m[k]], missing)
    ensures !Delivered(m, k) ==> Merged(hits, pending + [k], m, values, missing + [k])
  {
  }

  lemma MergedSplits(cache: Cache, reg: Registry, job: Job, keys: seq<string>, a: Answer<Batch>, hits: Batch,
                     values: Batch, missing: seq<string>)
    requires AreHits(cache, reg, job, keys, hits) && a.Got? && Merged(hits, Pending(cache, reg, job, keys), a.value, values, missing)
    ensures Splits(cache, reg, job, keys, true, a, values, missing)
  {
    PendingIs(cache, reg, job, keys);
  }

  function BatchTtl(reg: Registry, k: string): int { if k in reg && reg[k].ttl > 0 then reg[k].ttl else DEFAULT_BATCH_TTL }

  function Written(cache: Cache, ck: (string, string), v: Json, ttl: int, now: int, goesThrough: bool): Cache {
    if goesThrough && ttl > 0 then cache[ck := Entry(v, now + ttl)] else cache
  }

  /** A fetched value is cached; a cached one is left alone. */
  function OneCache(cache: Cache, reg: Registry, job: Job, src: SourceDef, a: Answer<Json>): Cache {
    if Cached(cache, reg, job, src.key).None? && a.Got? then
      Written(cache, CacheKey(reg, job.rc, src.key), a.value, src.ttl, job.now, src.key in job.writable)
    else cache
  }

  function BatchCache(cache: Cache, reg: Registry, job: Job, pending: seq<string>, m: Batch): Cache {
    if pending == [] then cache
    else
      var k := pending[|pending| - 1];
      var before := BatchCache(cache, reg, job, pending[..|pending| - 1], m);
      if Delivered(m, k) then Written(before, CacheKey(reg, job.rc, k), m[k], BatchTtl(reg, k), job.now, k in job.writable)
      else before
  }

  // ---- A whole request ----

  /** Everything a request's outcome depends on; `keys` are the requested keys without duplicates. */
  datatype Ask = Ask(reg: Registry, batches: set<string>, cache: Cache, job: Job, keys: seq<string>,
                     direct: string -> Answer<Json>, fetch: (string, seq<string>) -> Answer<Batch>)

  /** The requested keys of one batch (of the sources with a fetch of their own, for ""), in order. */
  function Members(reg: Registry, keys: seq<string>, b: string): seq<string> {
    if keys == [] then []
    else
      var k := keys[|keys| - 1];
      Members(reg, keys[..|keys| - 1], b) + if Eligible(reg, k) && BatchOf(reg, k) == b then [k] else []
  }

  lemma {:induction false} MembersAre(reg: Registry, keys: seq<string>, b: string)
    ensures var r := Members(reg, keys, b);
      && (forall k :: k in r <==> k in keys && Eligible(reg, k) && BatchOf(reg, k) == b)
      && (NoDuplicates(keys) ==> NoDuplicates(r))
  {
    if keys != [] {
      MembersAre(reg, keys[..|keys| - 1], b);
      assert keys == keys[..|keys| - 1] + [keys[|keys| - 1]];
    }
  }

  function AskPending(q: Ask, b: string): seq<string> { Pending(q.cache, q.reg, q.job, Members(q.reg, q.keys, b)) }

  function FateOf(q: Ask, k: string): Fate {
    var cached := Cached(q.cache, q.reg, q.job, k);
    var b := BatchOf(q.reg, k);
    if !Eligible(q.reg, k) then Skipped
    else if b == "" then OneFate(cached, Critical(q.reg, k), q.direct(k))
    else
      var pending := AskPending(q, b);
      BatchFate(cached, k, b in q.batches, AnyCritical(q.reg, pending), q.fetch(b, pending))
  }

  /** What the request writes to Redis for a key, if anything. */
  function EntryOf(q: Ask, k: string): Option<Entry> {
    var b := BatchOf(q.reg, k);
    if !Eligible(q.reg, k) || k !in q.job.writable || Cached(q.cache, q.reg, q.job, k).Some? then None
    else if b == "" then
      if q.direct(k).Got? && k in q.reg && q.reg[k].ttl > 0 then Some(Entry(q.direct(k).value, q.job.now + q.reg[k].ttl)) else None
    else
      var a := q.fetch(b, AskPending(q, b));
      if b in q.batches && a.Got? && Delivered(a.value, k) then Some(Entry(a.value[k], q.job.now + BatchTtl(q.reg, k))) else None
  }

  /** What a request caches for a key is what it serves: fetched, not from Redis, and for as long as the source says. */
  lemma CachedIsServed(q: Ask, k: string)
    requires k in q.keys
    ensures var own := BatchOf(q.reg, k) == "";
      var ttl := if k in q.reg && (own || q.reg[k].ttl > 0) then q.reg[k].ttl else 30_000;
      EntryOf(q, k) ==
        if FateOf(q, k).Found? && Cached(q.cache, q.reg, q.job, k).None? && k in q.job.writable && ttl > 0
        then Some(Entry(FateOf(q, k).v, q.job.now + ttl)) else None
  {
  }

  /** The cache once the tasks of the keys in `done` have run. */
  ghost predicate CacheIs(q: Ask, cache: Cache, done: set<string>) {
    forall ck: (string, string) :: EntryIs(q, cache, done, ck)
  }

  predicate EntryIs(q: Ask, cache: Cache, done: set<string>, ck: (string, string)) {
    Lookup(cache, ck) ==
      if ck.0 in done && ck == CacheKey(q.reg, q.job.rc, ck.0) && EntryOf(q, ck.0).Some? then EntryOf(q, ck.0)
      else Lookup(q.cache, ck)
  }

  /** One step of a task on the shared result. */
  datatype Op = Add(k: string, v: Json) | Miss(k: string)

  ghost predicate Fits(q: Ask, op: Op) {
    match op case Add(k, v) => FateOf(q, k) == Found(v) case Miss(k) => FateOf(q, k) == Missed
  }

  /** The steps are those of the keys in `done`. */
  ghost predicate OpsAre(q: Ask, ops: set<Op>, done: set<string>) {
    && (forall op :: op in ops ==> op.k in done && Fits(q, op))
    && (forall k :: k in done && FateOf(q, k).Found? ==> Add(k, FateOf(q, k).v) in ops)
    && (forall k :: k in done && FateOf(q, k).Missed? ==> Miss(k) in ops)
  }

  /** The failures are those of the keys in `done`. */
  ghost predicate FailuresAre(q: Ask, failures: seq<bool>, done: set<string>) {
    && (forall d :: d in failures ==> exists k :: k in done && FateOf(q, k) == Lost(d))
    && (forall k :: k in done && FateOf(q, k).Lost? ==> FateOf(q, k).deadline in failures)
  }

  /** Tasks of other keys do not touch what Redis answers for a key. */
  lemma CachedUntouched(q: Ask, cache: Cache, done: set<string>, k: string)
    requires CacheIs(q, cache, done) && k !in done
    ensures Cached(cache, q.reg, q.job, k) == Cached(q.cache, q.reg, q.job, k)
  {
    assert EntryIs(q, cache, done, CacheKey(q.reg, q.job.rc, k));
  }

  lemma {:induction false} PendingUntouched(q: Ask, cache: Cache, done: set<string>, keys: seq<string>)
    requires CacheIs(q, cache, done) && forall k :: k in keys ==> k !in done
    ensures Pending(cache, q.reg, q.job, keys) == Pending(q.cache, q.reg, q.job, keys)
  {
    if keys != [] {
      assert keys[|keys| - 1] in keys;
      CachedUntouched(q, cache, done, keys[|keys| - 1]);
      PendingUntouched(q, cache, done, keys[..|keys| - 1]);
    }
  }

  lemma OneCacheIs(q: Ask, cache: Cache, done: set<string>, src: SourceDef)
    requires CacheIs(q, cache, done) && src.key !in done
    requires src.key in q.reg && q.reg[src.key] == src && Eligible(q.reg, src.key) && BatchOf(q.reg, src.key) == ""
    ensures CacheIs(q, OneCache(cache, q.reg, q.job, src, q.direct(src.key)), done + {src.key})
  {
    CachedUntouched(q, cache, done, src.key);
    forall ck: (string, string) ensures EntryIs(q, OneCache(cache, q.reg, q.job, src, q.direct(src.key)), done + {src.key}, ck) {
      assert EntryIs(q, cache, done, ck);
    }
  }

  lemma {:induction false} BatchCacheAt(cache: Cache, reg: Registry, job: Job, pending: seq<string>, m: Batch, ck: (string, string))
    ensures Lookup(BatchCache(cache, reg, job, pending, m), ck) ==
      if ck.0 in pending && ck == CacheKey(reg, job.rc, ck.0) && Delivered(m, ck.0) && ck.0 in job.writable
      then Some(Entry(m[ck.0], job.now + BatchTtl(reg, ck.0)))
      else Lookup(cache, ck)
  {
    if pending != [] {
      BatchCacheAt(cache, reg, job, pending[..|pending| - 1], m, ck);
      assert pending == pending[..|pending| - 1] + [pending[|pending| - 1]];
    }
  }

  function AfterBatch(q: Ask, cache: Cache, b: string): Cache {
    var a := q.fetch(b, AskPending(q, b));
    if b in q.batches && a.Got? then BatchCache(cache, q.reg, q.job, AskPending(q, b), a.value) else cache
  }

  lemma BatchEntry(q: Ask, b: string, k: string)
    requires b != "" && k in Members(q.reg, q.keys, b)
    ensures var a := q.fetch(b, AskPending(q, b));
      EntryOf(q, k) == if k in AskPending(q, b) && k in q.job.writable && b in q.batches && a.Got? && Delivered(a.value, k)
                       then Some(Entry(a.value[k], q.job.now + BatchTtl(q.reg, k))) else None
  {
    MembersAre(q.reg, q.keys, b);
    assert Eligible(q.reg, k) && BatchOf(q.reg, k) == b;
    PendingMember(q, b, k);
  }

  lemma PendingMember(q: Ask, b: string, k: string)
    requires k in Members(q.reg, q.keys, b)
    ensures k in AskPending(q, b) <==> Cached(q.cache, q.reg, q.job, k).None?
  {
    PendingIs(q.cache, q.reg, q.job, Members(q.reg, q.keys, b));
  }

  lemma PendingInMembers(q: Ask, b: string, k: string)
    requires k in AskPending(q, b)
    ensures k in Members(q.reg, q.keys, b)
  {
    PendingIs(q.cache, q.reg, q.job, Members(q.reg, q.keys, b));
  }

  /** The fetch delivered the pending key and its SET goes through. */
  predicate DeliversTo(q: Ask, b: string, k: string) {
    var a := q.fetch(b, AskPending(q, b));
    k in AskPending(q, b) && k in q.job.writable && b in q.batches && a.Got? && Delivered(a.value, k)
  }

  lemma AfterBatchLookup(q: Ask, cache: Cache, b: string, ck: (string, string))
    ensures Lookup(AfterBatch(q, cache, b), ck) ==
      if DeliversTo(q, b, ck.0) && ck == CacheKey(q.reg, q.job.rc, ck.0)
      then Some(Entry(q.fetch(b, AskPending(q, b)).value[ck.0], q.job.now + BatchTtl(q.reg, ck.0)))
      else Lookup(cache, ck)
  {
    var pending := AskPending(q, b);
    var a := q.fetch(b, pending);
    if b in q.batches && a.Got? {
      BatchCacheAt(cache, q.reg, q.job, pending, a.value, ck);
    }
  }

  lemma AfterBatchAt(q: Ask, cache: Cache, b: string, ck: (string, string))
    requires b != ""
    ensures Lookup(AfterBatch(q, cache, b), ck) ==
      if ck.0 in Members(q.reg, q.keys, b) && ck == CacheKey(q.reg, q.job.rc, ck.0) && EntryOf(q, ck.0).Some? then EntryOf(q, ck.0)
      else Lookup(cache, ck)
  {
    AfterBatchLookup(q, cache, b, ck);
    if ck.0 in Members(q.reg, q.keys, b) {
      BatchEntry(q, b, ck.0);
      assert EntryOf(q, ck.0).Some? <==> DeliversTo(q, b, ck.0);
    } else if DeliversTo(q, b, ck.0) {
      PendingInMembers(q, b, ck.0);
      assert false;
    }
  }

  lemma BatchCacheIs(q: Ask, cache: Cache, done: set<string>, b: string)
    requires CacheIs(q, cache, done) && b != ""
    ensures CacheIs(q, AfterBatch(q, cache, b), done + SetOf(Members(q.reg, q.keys, b)))
  {
    var members := Members(q.reg, q.keys, b);
    var after := AfterBatch(q, cache, b);
    forall ck: (string, string) ensures EntryIs(q, after, done + SetOf(members), ck) {
      AfterBatchAt(q, cache, b, ck);
      assert EntryIs(q, cache, done, ck);
      assert ck.0 in done + SetOf(members) <==> ck.0 in done || ck.0 in members;
    }
  }

  /** The i-th source of its own is registered under a key that had no turn yet. */
  lemma OwnTurn(q: Ask, perKey: seq<SourceDef>, i: nat)
    requires IsOwn(q.reg, q.keys, perKey) && i < |perKey| && NoDuplicates(q.keys) && WellKeyed(q.reg)
    ensures var own, src := Members(q.reg, q.keys, ""), perKey[i];
      && i < |own| && src.key == own[i] && src.key !in SetOf(own[..i]) && SetOf(own[..i + 1]) == SetOf(own[..i]) + {src.key}
      && src.key in q.reg && q.reg[src.key] == src && Eligible(q.reg, src.key) && BatchOf(q.reg, src.key) == ""
  {
    var own := Members(q.reg, q.keys, "");
    MembersAre(q.reg, q.keys, "");
    assert own[i] in own;
    KeyTurn(own, i);
  }

  lemma KeyTurn(keys: seq<string>, i: nat)
    requires NoDuplicates(keys) && i < |keys|
    ensures keys[i] !in SetOf(keys[..i]) && SetOf(keys[..i + 1]) == SetOf(keys[..i]) + {keys[i]}
  {
    assert keys[..i + 1] == keys[..i] + [keys[i]];
  }

  /** The task of a source of its own finds what the request found. */
  lemma OwnFate(q: Ask, cache: Cache, done: set<string>, src: SourceDef)
    requires CacheIs(q, cache, done) && src.key !in done
    requires src.key in q.reg && q.reg[src.key] == src && Eligible(q.reg, src.key) && BatchOf(q.reg, src.key) == ""
    ensures FateOf(q, src.key) == OneFate(Cached(cache, q.reg, q.job, src.key), src.critical, q.direct(src.key))
    ensures !FateOf(q, src.key).Skipped?
  {
    CachedUntouched(q, cache, done, src.key);
  }

  /** What a key's own task adds to the effects of those before. */
  lemma OwnEffects(q: Ask, ops: set<Op>, failures: seq<bool>, done: set<string>, k: string)
    requires OpsAre(q, ops, done) && FailuresAre(q, failures, done)
    ensures match FateOf(q, k)
      case Lost(d) => OpsAre(q, ops, done + {k}) && FailuresAre(q, failures + [d], done + {k})
      case Missed => OpsAre(q, ops + {Miss(k)}, done + {k}) && FailuresAre(q, failures, done + {k})
      case Found(v) => OpsAre(q, ops + {Add(k, v)}, done + {k}) && FailuresAre(q, failures, done + {k})
      case Skipped => true
  {
  }

  // ---- Classification ----

  ghost predicate IsOwn(reg: Registry, keys: seq<string>, perKey: seq<SourceDef>) {
    var own := Members(reg, keys, "");
    |perKey| == |own| && forall i :: 0 <= i < |perKey| ==> own[i] in reg && perKey[i] == reg[own[i]]
  }

  ghost predicate IsBatched(reg: Registry, keys: seq<string>, batched: map<string, seq<string>>) {
    forall b :: if b != "" && Members(reg, keys, b) != [] then b in batched && batched[b] == Members(reg, keys, b) else b !in batched
  }

  function Join(batched: map<string, seq<string>>, b: string, k: string): map<string, seq<string>> {
    batched[b := (if b in batched then batched[b] else []) + [k]]
  }

  class Hydrator {
    const reg: Registry
    const batches: set<string>
    var cache: Cache

    constructor (reg: Registry, batches: set<string>)
      ensures this.reg == reg && this.batches == batches && cache == map[]
    {
      this.reg, this.batches, cache := reg, batches, map[];
    }

    method CacheGet(job: Job, k: string) returns (v: Option<Json>)
      ensures v == Cached(cache, reg, job, k)
    {
      var ck := CacheKey(reg, job.rc, k);
      if k !in job.readable || ck !in cache || job.now >= cache[ck].expiry {
        return None;
      }
      return Some(cache[ck].value);
    }

    method CacheSet(job: Job, k: string, v: Json, ttl: int)
      modifies this`cache
      ensures cache == Written(old(cache), CacheKey(reg, job.rc, k), v, ttl, job.now, k in job.writable)
    {
      if k !in job.writable || ttl <= 0 {
        return;
      }
      cache := cache[CacheKey(reg, job.rc, k) := Entry(v, job.now + ttl)];
    }

    /** One source: Redis, else the fetch, written through. */
    method FetchOne(job: Job, src: SourceDef, answer: Answer<Json>) returns (fate: Fate)
      modifies this`cache
      ensures fate == OneFate(Cached(old(cache), reg, job, src.key), src.critical, answer)
      ensures cache == OneCache(old(cache), reg, job, src, answer)
    {
      var hit := CacheGet(job, src.key);
      if hit.Some? {
        return Found(hit.value);
      }
      if answer.Failed? {
        if src.critical {
          return Lost(answer.deadline);
        }
        return Missed;
      }
      CacheSet(job, src.key, answer.value, src.ttl);
      return Found(answer.value);
    }

    /** The keys Redis answers, and the others in order. */
    method ReadBatch(job: Job, keys: seq<string>) returns (values: Batch, pending: seq<string>)
      ensures pending == Pending(cache, reg, job, keys) && AreHits(cache, reg, job, keys, values)
    {
      values, pending := map[], [];
      for i := 0 to |keys|
        invariant pending == Pending(cache, reg, job, keys[..i]) && AreHits(cache, reg, job, keys[..i], values)
      {
        assert keys[..i + 1][..i] == keys[..i];
        var hit := CacheGet(job, keys[i]);
        if hit.Some? {
          values := values[keys[i] := hit.value];
        } else {
          pending := pending + [keys[i]];
        }
      }
      assert keys[..|keys|] == keys;
      PendingIs(cache, reg, job, keys);
    }

    /** A fetched batch, cached and merged key by key. */
    method MergeBatch(job: Job, hits: Batch, pending: seq<string>, m: Batch) returns (values: Batch, missing: seq<string>)
      requires NoDuplicates(pending) && forall k :: k in pending ==> k !in hits
      modifies this`cache
      ensures Merged(hits, pending, m, values, missing)
      ensures cache == BatchCache(old(cache), reg, job, pending, m)
    {
      values, missing := hits, [];
      for i := 0 to |pending|
        invariant cache == BatchCache(old(cache), reg, job, pending[..i], m)
        invariant Merged(hits, pending[..i], m, values, missing)
      {
        var k := pending[i];
        assert pending[..i + 1][..i] == pending[..i] && pending[..i + 1] == pending[..i] + [k];
        assert k !in pending[..i];
        MergedNext(hits, pending[..i], m, values, missing, k);
        if k !in m || m[k] == Null {
          missing := missing + [k];
        } else {
          values := values[k := m[k]];
          CacheSet(job, k, m[k], BatchTtl(reg, k));
        }
      }
      assert pending[..|pending|] == pending;
    }

    /** Whether a key of the list is critical. */
    method FindCritical(keys: seq<string>) returns (found: bool)
      ensures found <==> AnyCritical(reg, keys)
    {
      for i := 0 to |keys|
        invariant forall h :: 0 <= h < i ==> !Critical(reg, keys[h])
      {
        if Critical(reg, keys[i]) {
          return true;
        }
      }
      return false;
    }

    /** All keys of one batch: Redis key by key, then one fetch for the rest. */
    method FetchBatch(job: Job, name: string, keys: seq<string>, fetch: seq<string> -> Answer<Batch>)
      returns (values: Batch, missing: seq<string>, failed: Option<bool>)
      requires NoDuplicates(keys)
      modifies this`cache
      ensures var pending := Pending(old(cache), reg, job, keys);
        var a := fetch(pending);
        && failed == BatchFailure(reg, name in batches, pending, a)
        && (failed.None? ==> Splits(old(cache), reg, job, keys, name in batches, a, values, missing))
        && cache == if name in batches && a.Got? then BatchCache(old(cache), reg, job, pending, a.value) else old(cache)
    {
      PendingIs(cache, reg, job, keys);
      if name !in batches {
        return map[], keys, None;
      }
      var pending;
      values, pending := ReadBatch(job, keys);
      ghost var hits, start := values, cache;
      ghost var a0 := fetch(pending);
      if |pending| == 0 {
        return values, [], None;
      }
      var a := fetch(pending);
      if a.Failed? {
        var critical := FindCritical(pending);
        if critical {
          return values, [], Some(a.deadline);
        }
        return values, pending, None;
      }
      values, missing := MergeBatch(job, values, pending, a.value);
      MergedSplits(start, reg, job, keys, a, hits, values, missing);
      return values, missing, None;
    }

    /** The requested keys by task: sources with a fetch of their own, and batches. */
    method Classify(keys: seq<string>) returns (perKey: seq<SourceDef>, batched: map<string, seq<string>>)
      ensures IsOwn(reg, keys, perKey) && IsBatched(reg, keys, batched)
    {
      perKey, batched := [], map[];
      for i := 0 to |keys|
        invariant IsOwn(reg, keys[..i], perKey) && IsBatched(reg, keys[..i], batched)
      {
        var k := keys[i];
        assert keys[..i + 1] == keys[..i] + [k];
        if Refs.IsI18nKey(k) {
          batched := Join(batched, I18N_BATCH, k);
          continue;
        }
        if k !in reg {
          continue;
        }
        var src := reg[k];
        if src.batch != "" {
          batched := Join(batched, src.batch, k);
          continue;
        }
        if src.hasFetch {
          perKey := perKey + [src];
        }
      }
      assert keys[..|keys|] == keys;
    }

    /** The tasks of the sources with a fetch of their own. */
    method RunOwn(ghost q: Ask, job: Job, perKey: seq<SourceDef>, direct: string -> Answer<Json>)
      returns (ops: set<Op>, failures: seq<bool>)
      requires q.reg == reg && q.job == job && q.direct == direct && CacheIs(q, cache, {}) && NoDuplicates(q.keys) && WellKeyed(reg)
      requires IsOwn(reg, q.keys, perKey)
      modifies this`cache
      ensures var own := SetOf(Members(reg, q.keys, ""));
        OpsAre(q, ops, own) && FailuresAre(q, failures, own) && CacheIs(q, cache, own)
    {
      ghost var own := Members(reg, q.keys, "");
      MembersAre(reg, q.keys, "");
      ops, failures := {}, [];
      assert SetOf(own[..0]) == {};
      for i := 0 to |perKey|
        invariant OpsAre(q, ops, SetOf(own[..i])) && FailuresAre(q, failures, SetOf(own[..i]))
        invariant CacheIs(q, cache, SetOf(own[..i]))
      {
        var src := perKey[i];
        OwnTurn(q, perKey, i);
        OwnFate(q, cache, SetOf(own[..i]), src);
        OneCacheIs(q, cache, SetOf(own[..i]), src);
        var fate := FetchOne(job, src, direct(src.key));
        OwnEffects(q, ops, failures, SetOf(own[..i]), src.key);
        match fate
        case Lost(d) => failures := failures + [d];
        case Missed => ops := ops + {Miss(src.key)};
        case Found(v) => ops := ops + {Add(src.key, v)};
      }
      assert own[..|own|] == own;
    }

    /** The task of one batch. */
    method RunBatch(ghost q: Ask, job: Job, b: string, members: seq<string>, fetch: seq<string> -> Answer<Batch>,
                    ops0: set<Op>, failures0: seq<bool>, ghost done: set<string>)
      returns (ops: set<Op>, failures: seq<bool>)
      requires q.reg == reg && q.batches == batches && q.job == job && NoDuplicates(q.keys) && b != ""
      requires members == Members(reg, q.keys, b) && members != [] && forall k :: k in members ==> k !in done
      requires forall p :: fetch(p) == q.fetch(b, p)
      requires TasksDone(q, ops0, failures0, cache, done)
      modifies this`cache
      ensures TasksDone(q, ops, failures, cache, done + SetOf(members))
    {
      MembersAre(reg, q.keys, b);
      BatchStart(q, cache, done, b);
      ghost var before := cache;
      var values, missing, failed := FetchBatch(job, b, members, fetch);
      BatchEnd(q, ops0, failures0, before, done, b, values, missing, failed);
      if failed.Some? {
        ops, failures := ops0, failures0 + [failed.value];
      } else {
        ops, failures := ops0 + OpsOf(values, missing), failures0;
      }
    }

    /** The tasks of the batches, in the arbitrary order of a map's iteration. */
    method RunBatches(ghost q: Ask, job: Job, batched: map<string, seq<string>>, fetch: (string, seq<string>) -> Answer<Batch>,
                      ops0: set<Op>, failures0: seq<bool>)
      returns (ops: set<Op>, failures: seq<bool>)
      requires q.reg == reg && q.batches == batches && q.job == job && q.fetch == fetch && NoDuplicates(q.keys)
      requires IsBatched(reg, q.keys, batched)
      requires TasksDone(q, ops0, failures0, cache, SetOf(Members(reg, q.keys, "")))
      modifies this`cache
      ensures TasksDone(q, ops, failures, cache, EligibleKeys(q))
    {
      ops, failures := ops0, failures0;
      ghost var done := SetOf(Members(reg, q.keys, ""));
      MembersAre(reg, q.keys, "");
      NamesOf(q, batched);
      var todo := batched.Keys;
      while todo != {}
        invariant todo <= batched.Keys
        invariant forall k :: k in done <==> k in EligibleKeys(q) && BatchOf(reg, k) !in todo
        invariant TasksDone(q, ops, failures, cache, done)
        decreases todo
      {
        var b :| b in todo;
        MembersAre(reg, q.keys, b);
        ops, failures := RunBatch(q, job, b, batched[b], p => fetch(b, p), ops, failures, done);
        done := done + SetOf(batched[b]);
        todo := todo - {b};
      }
      assert done == EligibleKeys(q);
    }

    /** The shared map and list under the steps of all tasks, taken in any order whatever. */
    static method Settle(ops: set<Op>) returns (result: map<string, Json>, missing: seq<string>)
      requires forall a, b :: a in ops && b in ops && a.k == b.k ==> a == b
      ensures forall k :: k in result <==> exists v :: Add(k, v) in ops
      ensures forall k :: k in result ==> Add(k, result[k]) in ops
      ensures NoDuplicates(missing) && forall k :: k in missing <==> Miss(k) in ops
    {
      result, missing := map[], [];
      var todo := ops;
      while todo != {}
        invariant todo <= ops
        invariant forall k :: k in result ==> Add(k, result[k]) in ops - todo
        invariant forall k, v :: Add(k, v) in ops - todo ==> k in result
        invariant NoDuplicates(missing) && forall k :: k in missing <==> Miss(k) in ops - todo
        decreases todo
      {
        var op :| op in todo;
        todo := todo - {op};
        match op
        case Add(k, v) => result := result[k := v];
        case Miss(k) => missing := missing + [k];
      }
    }

    /**
     Every requested key to its fate, whatever the order of the tasks; `parentDone` is whether the caller's own context
     is over, and `first` a key of the task that failed first.
     */
    method Hydrate(job: Job, refKeys: seq<string>, parentDone: bool,
                   direct: string -> Answer<Json>, fetch: (string, seq<string>) -> Answer<Batch>)
      returns (result: map<string, Json>, missing: seq<string>, err: bool, ghost first: Option<string>)
      requires WellKeyed(reg)
      modifies this`cache
      ensures var q := Ask(reg, batches, old(cache), job, Dedupe(refKeys), direct, fetch);
        && IsHydrated(q, refKeys, parentDone, result, missing, err, first)
        && CacheIs(q, cache, EligibleKeys(q))
    {
      var keys := DedupeStrings(refKeys);
      DedupeKeeps(refKeys);
      var perKey, batched := Classify(keys);
      ghost var q := Ask(reg, batches, cache, job, keys, direct, fetch);
      assert CacheIs(q, cache, {}) by {
        forall ck: (string, string) ensures EntryIs(q, cache, {}, ck) {
        }
      }
      var ops, failures := RunOwn(q, job, perKey, direct);
      ops, failures := RunBatches(q, job, batched, fetch, ops, failures);
      result, missing := Settle(ops);
      OpsTell(q, ops, refKeys, result, missing);
      err, first := false, None;
      if failures != [] {
        var i :| 0 <= i < |failures|;
        var d := failures[i];
        assert d in failures;
        ghost var k :| k in EligibleKeys(q) && FateOf(q, k) == Lost(d);
        err, first := !d || parentDone, Some(k);
      }
    }
  }

  /** The settled map and list are the found and the missed keys. */
  lemma OpsTell(q: Ask, ops: set<Op>, refKeys: seq<string>, result: map<string, Json>, missing: seq<string>)
    requires Requested(q, refKeys) && OpsAre(q, ops, EligibleKeys(q))
    requires forall k :: k in result <==> exists v :: Add(k, v) in ops
    requires forall k :: k in result ==> Add(k, result[k]) in ops
    requires forall k :: k in missing <==> Miss(k) in ops
    ensures forall k :: k in result <==> k in refKeys && FateOf(q, k).Found?
    ensures forall k :: k in result ==> FateOf(q, k) == Found(result[k])
    ensures forall k :: k in missing <==> k in refKeys && FateOf(q, k).Missed?
  {
    forall k ensures k in result <==> k in refKeys && FateOf(q, k).Found? {
      if k in refKeys && FateOf(q, k).Found? {
        assert Add(k, FateOf(q, k).v) in ops;
      }
    }
    forall k ensures k in missing <==> k in refKeys && FateOf(q, k).Missed? {
      assert Miss(k) in ops ==> Fits(q, Miss(k));
    }
  }

  ghost predicate Requested(q: Ask, refKeys: seq<string>) { forall k :: k in q.keys <==> k in refKeys }

  /** What a request promises: keys by their fates, and an error by the failure that came first. */
  ghost predicate IsHydrated(q: Ask, refKeys: seq<string>, parentDone: bool,
                             result: map<string, Json>, missing: seq<string>, err: bool, first: Option<string>) {
    && (forall k :: k in result <==> k in refKeys && FateOf(q, k).Found?)
    && (forall k :: k in result ==> FateOf(q, k) == Found(result[k]))
    && (forall k :: k in missing <==> k in refKeys && FateOf(q, k).Missed?)
    && NoDuplicates(missing)
    && (first.None? <==> forall k :: k in refKeys ==> !FateOf(q, k).Lost?)
    && (first.Some? ==> first.value in refKeys && FateOf(q, first.value).Lost?)
    && (err <==> first.Some? && (parentDone || FateOf(q, first.value) == Lost(false)))
  }

  /** The steps a batch's task takes on the shared result. */
  function OpsOf(values: Batch, missing: seq<string>): set<Op> {
    (set k | k in values :: Add(k, values[k])) + (set k | k in missing :: Miss(k))
  }

  function EligibleKeys(q: Ask): set<string> { set k | k in q.keys && Eligible(q.reg, k) }

  ghost predicate TasksDone(q: Ask, ops: set<Op>, failures: seq<bool>, cache: Cache, done: set<string>) {
    OpsAre(q, ops, done) && FailuresAre(q, failures, done) && CacheIs(q, cache, done)
  }

  lemma NamesOf(q: Ask, batched: map<string, seq<string>>)
    requires IsBatched(q.reg, q.keys, batched)
    ensures forall k :: k in EligibleKeys(q) ==> BatchOf(q.reg, k) == "" || BatchOf(q.reg, k) in batched
    ensures "" !in batched
  {
    forall k | k in EligibleKeys(q) ensures BatchOf(q.reg, k) == "" || BatchOf(q.reg, k) in batched {
      MembersAre(q.reg, q.keys, BatchOf(q.reg, k));
      assert k in Members(q.reg, q.keys, BatchOf(q.reg, k));
    }
  }

  /** A batch's task sees in Redis what was there at the start. */
  lemma BatchStart(q: Ask, cache: Cache, done: set<string>, b: string)
    requires CacheIs(q, cache, done) && forall k :: k in Members(q.reg, q.keys, b) ==> k !in done
    ensures Pending(cache, q.reg, q.job, Members(q.reg, q.keys, b)) == AskPending(q, b)
    ensures forall k :: k in Members(q.reg, q.keys, b) ==> Cached(cache, q.reg, q.job, k) == Cached(q.cache, q.reg, q.job, k)
  {
    PendingUntouched(q, cache, done, Members(q.reg, q.keys, b));
    forall k | k in Members(q.reg, q.keys, b) ensures Cached(cache, q.reg, q.job, k) == Cached(q.cache, q.reg, q.job, k) {
      CachedUntouched(q, cache, done, k);
    }
  }

  /** What a batch's task leaves behind is what its keys' fates say. */
  lemma BatchEnd(q: Ask, ops: set<Op>, failures: seq<bool>, before: Cache, done: set<string>, b: string,
                 values: Batch, missing: seq<string>, failed: Option<bool>)
    requires TasksDone(q, ops, failures, before, done) && b != "" && Members(q.reg, q.keys, b) != []
    requires forall k :: k in Members(q.reg, q.keys, b) ==> k !in done
    requires failed == BatchFailure(q.reg, b in q.batches, AskPending(q, b), q.fetch(b, AskPending(q, b)))
    requires failed.None? ==>
      Splits(before, q.reg, q.job, Members(q.reg, q.keys, b), b in q.batches, q.fetch(b, AskPending(q, b)), values, missing)
    ensures TasksDone(q, if failed.Some? then ops else ops + OpsOf(values, missing),
                      if failed.Some? then failures + [failed.value] else failures,
                      AfterBatch(q, before, b), done + SetOf(Members(q.reg, q.keys, b)))
  {
    var members := Members(q.reg, q.keys, b);
    BatchCacheIs(q, before, done, b);
    if failed.Some? {
      forall k | k in members ensures FateOf(q, k) == Lost(failed.value) {
        MembersAre(q.reg, q.keys, b);
      }
      LostBatch(q, ops, failures, done, members, failed.value);
    } else {
      var a := q.fetch(b, AskPending(q, b));
      forall k | k in members
        ensures FateOf(q, k) == BatchFate(Cached(before, q.reg, q.job, k), k, b in q.batches, false, a)
      {
        MembersAre(q.reg, q.keys, b);
        CachedUntouched(q, before, done, k);
      }
      KeptBatch(q, ops, failures, done, members, values, missing);
    }
  }

  lemma LostBatch(q: Ask, ops: set<Op>, failures: seq<bool>, done: set<string>, members: seq<string>, d: bool)
    requires OpsAre(q, ops, done) && FailuresAre(q, failures, done) && members != []
    requires forall k :: k in members ==> FateOf(q, k) == Lost(d)
    ensures OpsAre(q, ops, done + SetOf(members)) && FailuresAre(q, failures + [d], done + SetOf(members))
  {
    assert members[0] in members;
  }

  lemma KeptBatch(q: Ask, ops: set<Op>, failures: seq<bool>, done: set<string>, members: seq<string>, values: Batch, missing: seq<string>)
    requires OpsAre(q, ops, done) && FailuresAre(q, failures, done)
    requires forall k :: k in values || k in missing ==> k in members
    requires forall k :: k in members ==>
      if k in values then k !in missing && FateOf(q, k) == Found(values[k]) else k in missing && FateOf(q, k) == Missed
    ensures OpsAre(q, ops + OpsOf(values, missing), done + SetOf(members)) && FailuresAre(q, failures, done + SetOf(members))
  {
  }

  // ---- When keys are lost ----

  /** The answer a key's task depends on: the key's own source's, or its batch's. */
  function FailsUpstream(q: Ask, k: string): Option<bool> {
    var b := BatchOf(q.reg, k);
    if b == "" then (if q.direct(k).Failed? then Some(q.direct(k).deadline) else None)
    else
      var a := q.fetch(b, AskPending(q, b));
      if b in q.batches && a.Failed? then Some(a.deadline) else None
  }

  /** A critical key that Redis does not answer, fetched by the same task as `k`. */
  predicate HangsOn(q: Ask, k: string, p: string) {
    && p in q.keys && Eligible(q.reg, p) && Critical(q.reg, p) && Cached(q.cache, q.reg, q.job, p).None?
    && (if BatchOf(q.reg, k) == "" then p == k else BatchOf(q.reg, p) == BatchOf(q.reg, k))
  }

  /** Said on registry, cache and answers alone: the key's fetch failed and a critical key hung on it. */
  ghost predicate Fatal(q: Ask, k: string) {
    Eligible(q.reg, k) && FailsUpstream(q, k).Some? && exists p :: HangsOn(q, k, p)
  }

  /** The failure was a deadline or a cancellation, whosesoever. */
  ghost predicate ByDeadline(q: Ask, k: string) { FailsUpstream(q, k) == Some(true) }

  lemma OwnLostIff(q: Ask, k: string)
    requires k in q.keys && BatchOf(q.reg, k) == ""
    ensures FateOf(q, k).Lost? <==> Fatal(q, k)
  {
    assert HangsOn(q, k, k) <==> Eligible(q.reg, k) && Critical(q.reg, k) && Cached(q.cache, q.reg, q.job, k).None?;
  }

  lemma PendingHangs(q: Ask, k: string)
    requires BatchOf(q.reg, k) != ""
    ensures AnyCritical(q.reg, AskPending(q, BatchOf(q.reg, k))) <==> exists p :: HangsOn(q, k, p)
  {
    var b := BatchOf(q.reg, k);
    MembersAre(q.reg, q.keys, b);
    PendingIs(q.cache, q.reg, q.job, Members(q.reg, q.keys, b));
    forall p ensures p in AskPending(q, b) && Critical(q.reg, p) <==> HangsOn(q, k, p) {
    }
  }

  lemma LostIff(q: Ask, k: string)
    requires k in q.keys
    ensures FateOf(q, k).Lost? <==> Fatal(q, k)
    ensures FateOf(q, k).Lost? ==> (FateOf(q, k).deadline <==> ByDeadline(q, k))
  {
    if BatchOf(q.reg, k) == "" {
      OwnLostIff(q, k);
    } else {
      PendingHangs(q, k);
    }
  }

  // ---- Consequences ----

  /** A request leaves alone what a request of another user, or for what is not user-scoped from another zone, may read. */
  lemma OthersEntriesStay(q: Ask, cache: Cache, done: set<string>, other: Request, k: string)
    requires CacheIs(q, cache, done)
    requires if k in q.reg && q.reg[k].userScoped then !SameUser(other.userId, q.job.rc.userId) else other.zone != q.job.rc.zone
    ensures Lookup(cache, CacheKey(q.reg, other, k)) == Lookup(q.cache, CacheKey(q.reg, other, k))
  {
    var ck := CacheKey(q.reg, other, k);
    EntriesAreShared(q.reg, other, q.job.rc, k);
    assert EntryIs(q, cache, done, ck);
  }

  /** Whether a value or a report of its absence comes out for every key that some source serves. */
  ghost predicate Accounted(q: Ask, refKeys: seq<string>, result: map<string, Json>, missing: seq<string>) {
    forall k :: k in refKeys && (Refs.IsI18nKey(k) || (k in q.reg && (q.reg[k].batch != "" || q.reg[k].hasFetch))) ==>
      k in result || k in missing
  }

  /** Found and missing keys are apart and served by a source, and they are all of those exactly when no fetch failed a critical key. */
  lemma CoverageIff(q: Ask, refKeys: seq<string>, parentDone: bool,
                    result: map<string, Json>, missing: seq<string>, err: bool, first: Option<string>)
    requires Requested(q, refKeys) && IsHydrated(q, refKeys, parentDone, result, missing, err, first)
    ensures forall k :: k in result ==> k !in missing
    ensures forall k :: k in result || k in missing ==>
      k in refKeys && (Refs.IsI18nKey(k) || (k in q.reg && (q.reg[k].batch != "" || q.reg[k].hasFetch)))
    ensures Accounted(q, refKeys, result, missing) <==> forall k :: k in refKeys ==> !Fatal(q, k)
  {
    forall k | k in refKeys ensures Eligible(q.reg, k) <==> !FateOf(q, k).Skipped? {
    }
    forall k | k in refKeys ensures FateOf(q, k).Lost? <==> Fatal(q, k) {
      LostIff(q, k);
    }
    if Accounted(q, refKeys, result, missing) {
      forall k | k in refKeys ensures !Fatal(q, k) {
        assert Eligible(q.reg, k) ==> k in result || k in missing;
      }
    }
  }

  /**
   When success is reported although keys are lost: exactly when the first fatal failure was a deadline or cancellation and
   the caller's context is not over. So never if no fatal failure is, and always if all are.
   */
  lemma SilentLossIff(q: Ask, refKeys: seq<string>, parentDone: bool,
                      result: map<string, Json>, missing: seq<string>, err: bool, first: Option<string>)
    requires Requested(q, refKeys) && IsHydrated(q, refKeys, parentDone, result, missing, err, first)
    ensures !err && !Accounted(q, refKeys, result, missing) <==> first.Some? && ByDeadline(q, first.value) && !parentDone
    ensures !err && !Accounted(q, refKeys, result, missing) ==> exists k :: k in refKeys && Fatal(q, k) && ByDeadline(q, k)
    ensures !parentDone && (exists k :: k in refKeys && Fatal(q, k)) && (forall k :: k in refKeys && Fatal(q, k) ==> ByDeadline(q, k)) ==>
      !err && !Accounted(q, refKeys, result, missing)
  {
    CoverageIff(q, refKeys, parentDone, result, missing, err, first);
    forall k | k in refKeys
      ensures FateOf(q, k).Lost? <==> Fatal(q, k)
      ensures FateOf(q, k).Lost? ==> (FateOf(q, k).deadline <==> ByDeadline(q, k))
    {
      LostIff(q, k);
    }
  }

  lemma HasMember(s: seq<string>)
    ensures s != [] ==> exists k :: k in s
  {
    if s != [] {
      assert s[0] in s;
    }
  }

  /** It does happen: one critical source that answers with a deadline error, and the request succeeds with nothing found and nothing missing. */
  method DeadlineLosesCriticalKey(key: string, rc: Request) returns (result: map<string, Json>, missing: seq<string>, err: bool)
    requires !Refs.IsI18nKey(key)
    ensures result == map[] && missing == [] && !err
  {
    var h := new Hydrator(map[key := SourceDef(key, "string", "", true, false, true, DEFAULT_BATCH_TTL)], {});
    var job := Job(rc, 0, {key}, {key});
    ghost var q := Ask(h.reg, {}, map[], job, Dedupe([key]), k => Failed(true), (b, ks) => Failed(true));
    ghost var first;
    result, missing, err, first := h.Hydrate(job, [key], false, k => Failed(true), (b, ks) => Failed(true));
    assert forall k :: k in [key] ==> FateOf(q, k) == Lost(true);
    HasMember(missing);
    assert result.Keys == {};
  }

  /** What Redis holds for the requested keys is what the sources would answer; nothing is cached for a key a batch omits. */
  ghost predicate Coherent(q: Ask, truth: map<string, Json>) {
    forall k :: k in q.keys && Cached(q.cache, q.reg, q.job, k).Some? ==>
      Present(q.reg, truth, k) && Cached(q.cache, q.reg, q.job, k) == Some(truth[k])
  }

  /** The key has a value; a batch's null is none. */
  predicate Present(reg: Registry, truth: map<string, Json>, k: string) {
    k in truth && (BatchOf(reg, k) == "" || truth[k] != Null)
  }

  /** Every source asked on its own answers with its value, and every batch with the values its keys have. */
  ghost predicate Answers(q: Ask, truth: map<string, Json>) {
    && (forall k :: k in q.keys && Eligible(q.reg, k) && BatchOf(q.reg, k) == "" ==>
         q.direct(k).Got? && k in truth && q.direct(k).value == truth[k])
    && (forall b, ks :: b in q.batches ==> q.fetch(b, ks).Got? && Delivers(q.fetch(b, ks).value, ks, truth))
  }

  ghost predicate Delivers(m: Batch, ks: seq<string>, truth: map<string, Json>) {
    forall k :: k in ks ==>
      (Delivered(m, k) <==> k in truth && truth[k] != Null) && (Delivered(m, k) && k in truth ==> m[k] == truth[k])
  }

  /** With answering sources, what Redis happens to hold makes no difference to any key. */
  lemma CacheMakesNoDifference(q: Ask, other: Cache, truth: map<string, Json>, k: string)
    requires Answers(q, truth) && Coherent(q, truth) && Coherent(q.(cache := other), truth) && k in q.keys
    ensures FateOf(q, k) == FateOf(q.(cache := other), k)
  {
    TruthComesOut(q, truth, k);
    TruthComesOut(q.(cache := other), truth, k);
  }

  /** Every key served comes out with its value, or missing if it has none. */
  lemma TruthComesOut(q: Ask, truth: map<string, Json>, k: string)
    requires Answers(q, truth) && Coherent(q, truth) && k in q.keys
    ensures FateOf(q, k) == if !Eligible(q.reg, k) then Skipped
      else if BatchOf(q.reg, k) != "" && BatchOf(q.reg, k) !in q.batches then Missed
      else if Present(q.reg, truth, k) then Found(truth[k])
      else Missed
  {
    var b := BatchOf(q.reg, k);
    if Eligible(q.reg, k) && b in q.batches && b != "" {
      var pending := AskPending(q, b);
      MembersAre(q.reg, q.keys, b);
      PendingIs(q.cache, q.reg, q.job, Members(q.reg, q.keys, b));
      assert Delivers(q.fetch(b, pending).value, pending, truth);
    }
  }
}
