/** The action whitelist: an in-process copy over a shared Redis copy over the table, all with one TTL. */
module Whitelist {
  import opened Common
  import opened History

  /** Five minutes, in milliseconds. */
  const TTL: nat := 300_000

  datatype Action = Action(endpoint: string, methods: seq<string>)

  type Table = seq<Action>

  /** A copy and the instant it was stored. */
  datatype Entry = Entry(list: Table, at: int)

  predicate FreshAt(e: Option<Entry>, now: int) { e.Some? && now - e.value.at < TTL }

  /** What one read returns and leaves behind. */
  datatype Read = Read(list: Option<Table>, local: Option<Entry>, redis: Option<Entry>)

  /** One read: the local copy while fresh, else Redis while it has one, else the table (None when it is down). */
  function ReadAll(local: Option<Entry>, redis: Option<Entry>, now: int, readable: bool, writable: bool, db: Option<Table>): Read {
    if FreshAt(local, now) then Read(Some(local.value.list), local, redis)
    else if readable && FreshAt(redis, now) then Read(Some(redis.value.list), Some(Entry(redis.value.list, now)), redis)
    else if db.None? then Read(None, local, redis)
    else Read(db, Some(Entry(db.value, now)), if writable then Some(Entry(db.value, now)) else redis)
  }

  function UpperChar(c: char): char { if 'a' <= c <= 'z' then (c as int - 32) as char else c }

  function Upper(s: string): string { seq(|s|, i requires 0 <= i < |s| => UpperChar(s[i])) }

  /** The first row of the endpoint decides, whatever the case of the method. */
  ghost predicate Listed(list: Table, endpoint: string, verb: string) {
    exists i :: 0 <= i < |list| && list[i].endpoint == endpoint && (forall h :: 0 <= h < i ==> list[h].endpoint != endpoint)
      && exists m :: m in list[i].methods && EqualFold(m, verb)
  }

  lemma UpperIff(a: string, b: string)
    ensures Upper(a) == Upper(b) <==> EqualFold(a, b)
  {
    if Upper(a) == Upper(b) {
      assert |Upper(a)| == |a| && |Upper(b)| == |b|;
      forall i | 0 <= i < |a| ensures EqualLetter(a[i], b[i]) {
        assert Upper(a)[i] == UpperChar(a[i]) && Upper(b)[i] == UpperChar(b[i]);
      }
    }
  }

  class Redis {
    var entry: Option<Entry>

    constructor ()
      ensures entry == None
    {
      entry := None;
    }
  }

  class ActionWhitelist {
    const rdb: Redis
    var cached: Option<Table>
    var loaded: int

    constructor (rdb: Redis)
      ensures this.rdb == rdb && Local() == None
    {
      this.rdb := rdb;
      cached, loaded := None, 0;
    }

    function Local(): Option<Entry>
      reads this
    {
      if cached.Some? then Some(Entry(cached.value, loaded)) else None
    }

    method All(now: int, readable: bool, writable: bool, db: Option<Table>) returns (r: Option<Table>)
      modifies this, rdb
      ensures Read(r, Local(), rdb.entry) == ReadAll(old(Local()), old(rdb.entry), now, readable, writable, db)
      ensures old(cached).Some? && now - old(loaded) < 300_000 ==> r == old(cached) && rdb.entry == old(rdb.entry) && loaded == old(loaded)
      ensures !(old(cached).Some? && now - old(loaded) < 300_000) ==>
        if readable && old(rdb.entry).Some? && now - old(rdb.entry).value.at < 300_000
        then r == Some(old(rdb.entry).value.list) && Local() == Some(Entry(r.value, now)) && rdb.entry == old(rdb.entry)
        else r == db && (if db.Some? then Local() == Some(Entry(db.value, now)) else Local() == old(Local()))
             && rdb.entry == if db.Some? && writable then Some(Entry(db.value, now)) else old(rdb.entry)
    {
      if now - loaded < TTL && cached.Some? {
        return cached;
      }
      if readable && FreshAt(rdb.entry, now) {
        Store(rdb.entry.value.list, now);
        return cached;
      }
      if db.None? {
        return None;
      }
      if writable {
        rdb.entry := Some(Entry(db.value, now));
      }
      Store(db.value, now);
      return db;
    }

    method Store(list: Table, now: int)
      modifies this
      ensures Local() == Some(Entry(list, now))
    {
      cached := Some(list);
      loaded := now;
    }

    method Invalidate(deleted: bool)
      modifies this, rdb
      ensures Local() == None && rdb.entry == if deleted then None else old(rdb.entry)
    {
      cached := None;
      loaded := 0;
      if deleted {
        rdb.entry := None;
      }
    }

    /** Whether the endpoint and method are listed; None when the list cannot be read. */
    method Allows(endpoint: string, verb: string, now: int, readable: bool, writable: bool, db: Option<Table>) returns (r: Option<bool>)
      modifies this, rdb
      ensures var all := ReadAll(old(Local()), old(rdb.entry), now, readable, writable, db);
        && Local() == all.local && rdb.entry == all.redis
        && (r.None? <==> all.list.None?)
        && (r.Some? ==> (r.value <==> Listed(all.list.value, endpoint, verb)))
    {
      var all := All(now, readable, writable, db);
      if all.None? {
        return None;
      }
      var list := all.value;
      ghost var read := ReadAll(old(Local()), old(rdb.entry), now, readable, writable, db);
      for i := 0 to |list|
        invariant forall h :: 0 <= h < i ==> list[h].endpoint != endpoint
        invariant Local() == read.local && rdb.entry == read.redis
      {
        if list[i].endpoint == endpoint {
          var methods := list[i].methods;
          for j := 0 to |methods|
            invariant forall h :: 0 <= h < j ==> !EqualFold(methods[h], verb)
            invariant Local() == read.local && rdb.entry == read.redis
          {
            UpperIff(methods[j], verb);
            if Upper(methods[j]) == Upper(verb) {
              return Some(true);
            }
          }
          return Some(false);
        }
      }
      return Some(false);
    }
  }

  // ---- Many processes sharing one Redis ----

  /** `hist` is the table's history; `local` holds each process's copy. */
  datatype State = State(now: int, hist: seq<Version<Table>>, redis: Option<Entry>, local: map<int, Option<Entry>>)

  datatype Event =
    | Mutate(at: int, table: Table)
    | All(at: int, p: int, readable: bool, writable: bool, dbUp: bool)
    | Invalidate(at: int, p: int, deleted: bool)

  function LocalOf(s: State, p: int): Option<Entry> { if p in s.local then s.local[p] else None }

  function ReadBy(s: State, e: Event): Read
    requires e.All? && s.hist != []
  {
    ReadAll(LocalOf(s, e.p), s.redis, e.at, e.readable, e.writable, if e.dbUp then Some(Current(s.hist)) else None)
  }

  /** Events happen at distinct, increasing instants. */
  function Step(s: State, e: Event): State
    requires s.hist != []
  {
    if e.at <= s.now then s
    else match e
      case Mutate(at, table) => s.(now := at, hist := s.hist + [Version(at, table)])
      case All(at, p, _, _, _) =>
        var read := ReadBy(s, e);
        s.(now := at, redis := read.redis, local := s.local[p := read.local])
      case Invalidate(at, p, deleted) =>
        s.(now := at, redis := if deleted then None else s.redis, local := s.local[p := None])
  }

  function Run(s: State, events: seq<Event>): (r: State)
    requires s.hist != []
    ensures r.hist != []
    decreases |events|
  {
    if events == [] then s else Run(Step(s, events[0]), events[1..])
  }

  ghost predicate HistOk(s: State) {
    s.hist != [] && s.hist[|s.hist| - 1].since <= s.now
  }

  /** Redis holds what the table was when it was set; a local copy is at most one TTL older than its load. */
  ghost predicate Inv(s: State) {
    && HistOk(s)
    && (s.redis.Some? ==> s.redis.value.at <= s.now && TableAt(s.hist, s.redis.value.at) == s.redis.value.list)
    && (forall p :: CopyOk(s.hist, LocalOf(s, p), s.now))
  }

  ghost predicate CopyOk(hist: seq<Version<Table>>, e: Option<Entry>, now: int)
    requires hist != []
  {
    e.Some? ==> e.value.at <= now && SeenWithin(hist, e.value.list, e.value.at - TTL, e.value.at)
  }

  lemma MutateKeepsInv(s: State, e: Event)
    requires Inv(s) && e.Mutate? && e.at > s.now
    ensures Inv(Step(s, e))
  {
    var v := Version(e.at, e.table);
    assert (s.hist + [v])[..|s.hist|] == s.hist;
    forall p ensures CopyOk(s.hist + [v], LocalOf(s, p), e.at) {
      var copy := LocalOf(s, p);
      assert CopyOk(s.hist, copy, s.now);
      if copy.Some? {
        SeenStands(s.hist, v, copy.value.list, copy.value.at - TTL, copy.value.at);
      }
    }
    assert forall p :: LocalOf(Step(s, e), p) == LocalOf(s, p);
  }

  lemma ReadKeepsInv(s: State, e: Event)
    requires Inv(s) && e.All? && e.at > s.now
    ensures Inv(Step(s, e))
    ensures ReadBy(s, e).list.Some? ==> SeenWithin(s.hist, ReadBy(s, e).list.value, e.at - 2 * TTL, e.at)
  {
    var read := ReadBy(s, e);
    assert TableAt(s.hist, e.at) == Current(s.hist);
    assert forall q :: LocalOf(Step(s, e), q) == if q == e.p then read.local else LocalOf(s, q);
    assert CopyOk(s.hist, LocalOf(s, e.p), s.now);
    if FreshAt(LocalOf(s, e.p), e.at) {
      var l := LocalOf(s, e.p).value;
      var t :| l.at - TTL < t <= l.at && TableAt(s.hist, t) == l.list;
      assert e.at - 2 * TTL < t <= e.at;
    } else if e.readable && FreshAt(s.redis, e.at) {
      var t := s.redis.value.at;
      assert e.at - TTL < t <= e.at && TableAt(s.hist, t) == s.redis.value.list;
      assert SeenWithin(s.hist, read.local.value.list, e.at - TTL, e.at);
    } else if e.dbUp {
      assert e.at - TTL < e.at <= e.at && TableAt(s.hist, e.at) == read.list.value;
      assert SeenWithin(s.hist, read.local.value.list, e.at - TTL, e.at);
    }
    forall q ensures CopyOk(s.hist, LocalOf(Step(s, e), q), e.at) {
      assert CopyOk(s.hist, LocalOf(s, q), s.now);
    }
  }

  lemma StepKeepsInv(s: State, e: Event)
    requires Inv(s)
    ensures Inv(Step(s, e))
  {
    if e.at > s.now {
      match e
      case Mutate(_, _) => MutateKeepsInv(s, e);
      case All(_, _, _, _, _) => ReadKeepsInv(s, e);
      case Invalidate(_, p, _) =>
        forall q ensures CopyOk(s.hist, LocalOf(Step(s, e), q), e.at) {
          assert CopyOk(s.hist, LocalOf(s, q), s.now);
        }
    }
  }

  lemma {:induction false} RunKeepsInv(s: State, events: seq<Event>)
    requires Inv(s)
    ensures Inv(Run(s, events))
    decreases |events|
  {
    if events != [] {
      StepKeepsInv(s, events[0]);
      RunKeepsInv(Step(s, events[0]), events[1..]);
    }
  }

  /** Whatever happened before, a list read at `t` was the table's content at some instant after t - 2*TTL. */
  lemma ReadsAreRecent(s: State, events: seq<Event>, e: Event)
    requires Inv(s) && e.All? && e.at > Run(s, events).now
    ensures var read := ReadBy(Run(s, events), e);
      read.list.Some? ==> SeenWithin(Run(s, events).hist, read.list.value, e.at - 2 * TTL, e.at)
  {
    RunKeepsInv(s, events);
    ReadKeepsInv(Run(s, events), e);
  }

  // ---- After a successful invalidation ----

  /** Copies made after instant `i` show the table after `i`; older ones belong to other processes and were loaded by `i`. */
  ghost predicate Renewed(s: State, i: int, p: int) {
    && HistOk(s) && i <= s.now
    && (s.redis.Some? ==> i < s.redis.value.at <= s.now && TableAt(s.hist, s.redis.value.at) == s.redis.value.list)
    && (forall q :: CopyRenewed(s.hist, LocalOf(s, q), s.now, i, q == p))
  }

  ghost predicate CopyRenewed(hist: seq<Version<Table>>, e: Option<Entry>, now: int, i: int, own: bool)
    requires hist != []
  {
    e.Some? ==> e.value.at <= now && ((!own && e.value.at <= i) || SeenWithin(hist, e.value.list, i, e.value.at))
  }

  lemma InvalidateRenews(s: State, e: Event)
    requires Inv(s) && e.Invalidate? && e.deleted && e.at > s.now
    ensures Renewed(Step(s, e), e.at, e.p)
  {
    forall q ensures CopyRenewed(s.hist, LocalOf(Step(s, e), q), e.at, e.at, q == e.p) {
      assert CopyOk(s.hist, LocalOf(s, q), s.now);
    }
  }

  lemma MutateKeepsRenewed(s: State, e: Event, i: int, p: int)
    requires Renewed(s, i, p) && e.Mutate? && e.at > s.now
    ensures Renewed(Step(s, e), i, p)
  {
    var v := Version(e.at, e.table);
    assert (s.hist + [v])[..|s.hist|] == s.hist;
    forall q ensures CopyRenewed(s.hist + [v], LocalOf(s, q), e.at, i, q == p) {
      var copy := LocalOf(s, q);
      assert CopyRenewed(s.hist, copy, s.now, i, q == p);
      if copy.Some? && SeenWithin(s.hist, copy.value.list, i, copy.value.at) {
        SeenStands(s.hist, v, copy.value.list, i, copy.value.at);
      }
    }
    assert forall q :: LocalOf(Step(s, e), q) == LocalOf(s, q);
  }

  lemma ReadKeepsRenewed(s: State, e: Event, i: int, p: int)
    requires Renewed(s, i, p) && e.All? && e.at > s.now
    ensures Renewed(Step(s, e), i, p)
    ensures ReadBy(s, e).list.Some? && (e.p == p || e.at >= i + TTL) ==> SeenWithin(s.hist, ReadBy(s, e).list.value, i, e.at)
  {
    var read := ReadBy(s, e);
    assert TableAt(s.hist, e.at) == Current(s.hist);
    assert CopyRenewed(s.hist, LocalOf(s, e.p), s.now, i, e.p == p);
    if FreshAt(LocalOf(s, e.p), e.at) {
      var l := LocalOf(s, e.p).value;
      if e.p == p || e.at >= i + TTL {
        var t :| i < t <= l.at && TableAt(s.hist, t) == l.list;
        assert i < t <= e.at;
      }
    } else if e.readable && FreshAt(s.redis, e.at) {
      var t := s.redis.value.at;
      assert i < t <= e.at && TableAt(s.hist, t) == s.redis.value.list;
      assert SeenWithin(s.hist, read.local.value.list, i, e.at);
    } else if e.dbUp {
      assert i < e.at <= e.at && TableAt(s.hist, e.at) == read.list.value;
      assert SeenWithin(s.hist, read.local.value.list, i, e.at);
    }
    forall q ensures CopyRenewed(s.hist, LocalOf(Step(s, e), q), e.at, i, q == p) {
      assert CopyRenewed(s.hist, LocalOf(s, q), s.now, i, q == p);
    }
  }

  lemma {:induction false} RunKeepsRenewed(s: State, events: seq<Event>, i: int, p: int)
    requires Renewed(s, i, p)
    ensures Renewed(Run(s, events), i, p)
    decreases |events|
  {
    if events != [] {
      var e := events[0];
      if e.at > s.now {
        match e
        case Mutate(_, _) => MutateKeepsRenewed(s, e, i, p);
        case All(_, _, _, _, _) => ReadKeepsRenewed(s, e, i, p);
        case Invalidate(_, _, _) =>
          forall q ensures CopyRenewed(s.hist, LocalOf(Step(s, e), q), e.at, i, q == p) {
            assert CopyRenewed(s.hist, LocalOf(s, q), s.now, i, q == p);
          }
      }
      RunKeepsRenewed(Step(s, e), events[1..], i, p);
    }
  }

  /**
   After a successful invalidation, the invalidating process at once, and every process one TTL later,
   reads only content the table had after the invalidation.
   */
  lemma InvalidationIsSeen(s: State, inv: Event, events: seq<Event>, e: Event)
    requires Inv(s) && inv.Invalidate? && inv.deleted && inv.at > s.now
    requires var end := Run(Step(s, inv), events); e.All? && e.at > end.now && (e.p == inv.p || e.at >= inv.at + TTL)
    ensures var end := Run(Step(s, inv), events);
      ReadBy(end, e).list.Some? ==> SeenWithin(end.hist, ReadBy(end, e).list.value, inv.at, e.at)
  {
    InvalidateRenews(s, inv);
    RunKeepsRenewed(Step(s, inv), events, inv.at, inv.p);
    ReadKeepsRenewed(Run(Step(s, inv), events), e, inv.at, inv.p);
  }

  /** The bound is sharp: without an invalidation a list can be served two TTLs, less four ticks, after it was replaced. */
  lemma StaleForTwoTtls(before: Table, after: Table)
    requires before != after
    ensures var s := State(0, [Version(0, before)], None, map[]);
      var end := Run(s, [All(1, 1, true, true, true), Mutate(2, after), All(TTL, 2, true, true, true)]);
      var read := ReadBy(end, All(2 * TTL - 1, 2, true, true, true));
      Inv(s) && read.list == Some(before) && forall t :: t >= 2 ==> TableAt(end.hist, t) != before
  {
    var s := State(0, [Version(0, before)], None, map[]);
    var events := [All(1, 1, true, true, true), Mutate(2, after), All(TTL, 2, true, true, true)];
    var s1 := Step(s, events[0]);
    var s2 := Step(s1, events[1]);
    var s3 := Step(s2, events[2]);
    assert events[1..][1..] == [events[2]] && events[1..][1..][1..] == [];
    assert Run(s2, [events[2]]) == s3;
    assert Run(s1, events[1..]) == s3;
    assert Run(s, events) == s3;
  }
}
