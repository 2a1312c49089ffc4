/** The app's update check, and the middleware that blocks outdated builds from a cached index of the same policies. */
module AppVersion {
  import opened Common
  import opened History
  import Versions
  import VersionText

  /** The index is reread after a minute; times are in milliseconds. */
  const TTL := 60_000

  datatype Policy = Policy(minVersion: string, force: bool, message: string, iosURL: string, androidURL: string)

  /** A row of the policy table. */
  datatype Row = Row(platform: string, createdAt: int, policy: Policy)

  type Table = seq<Row>

  datatype CheckResult = CheckResult(needsUpdate: bool, force: bool, message: string, storeURL: string, minVersion: string)

  const NO_UPDATE := CheckResult(false, false, "", "", "")

  /** The body of a 426 response. */
  datatype Upgrade = Upgrade(message: string, storeURL: string, minVersion: string)

  function NormPlatform(p: string): string {
    var s := Lower(Versions.TrimSpace(p));
    if s == "ios" || s == "android" then s else "any"
  }

  /** Blanks around a platform and its case do not matter, and what is not iOS or Android is "any". */
  lemma PlatformIs(pre: string, p: string, post: string)
    requires VersionText.Blank(pre) && VersionText.Blank(post)
    requires p != "" && !Versions.IsSpace(p[0]) && !Versions.IsSpace(p[|p| - 1])
    ensures NormPlatform(pre + p + post) == if EqualFold(p, "ios") then "ios" else if EqualFold(p, "android") then "android" else "any"
  {
    assert pre + p + post == pre + (p + post);
    VersionText.TrimFront(pre, p + post);
    VersionText.TrimBack(p, post);
    assert Lower("ios") == "ios" && Lower("android") == "android";
    LowerIff(p, "ios");
    LowerIff(p, "android");
  }

  function StoreURLFor(platform: string, p: Policy): string {
    if platform == "ios" then p.iosURL
    else if platform == "android" then p.androidURL
    else if p.androidURL != "" then p.androidURL
    else p.iosURL
  }

  /** The platform's own store; elsewhere the one for Android unless there is only the other. */
  predicate IsStoreFor(url: string, platform: string, p: Policy) {
    && (platform == "ios" ==> url == p.iosURL)
    && (platform == "android" ==> url == p.androidURL)
    && (platform != "ios" && platform != "android" ==> url in {p.androidURL, p.iosURL} && (p.androidURL != "" ==> url == p.androidURL))
  }

  /** An update is needed exactly below the minimum, and the answer then carries the policy's terms; it always names the minimum. */
  ghost predicate AnswersFor(c: CheckResult, platform: string, version: string, p: Policy) {
    && c.minVersion == p.minVersion
    && (c.needsUpdate <==> version != "" && Versions.Order(Versions.Segments(version), Versions.Segments(p.minVersion)) < 0)
    && (if c.needsUpdate then c.force == p.force && c.message == p.message && IsStoreFor(c.storeURL, platform, p)
        else !c.force && c.message == "" && c.storeURL == "")
  }

  ghost predicate Outdated(version: string, p: Policy) {
    version != "" && Versions.Order(Versions.Segments(version), Versions.Segments(p.minVersion)) < 0
  }

  // ---- The two queries ----

  predicate Applies(platform: string, r: Row) { r.platform == platform || r.platform == "any" }

  /** ORDER BY (platform = $1) DESC, created_at DESC. */
  predicate Before(platform: string, a: Row, b: Row) {
    if a.platform == platform && b.platform != platform then true
    else if a.platform != platform && b.platform == platform then false
    else a.createdAt > b.createdAt
  }

  /** A row the ordered lookup may return: with equal times the database is free to choose. */
  ghost predicate IsFirst(t: Table, platform: string, r: Row) {
    r in t && Applies(platform, r) && forall s :: s in t && Applies(platform, s) ==> !Before(platform, s, r)
  }

  /** A row DISTINCT ON (platform) ... created_at DESC may keep for a platform. */
  ghost predicate IsNewest(t: Table, platform: string, r: Row) {
    r in t && r.platform == platform && forall s :: s in t && s.platform == platform ==> s.createdAt <= r.createdAt
  }

  ghost predicate Covers(t: Table, platform: string) { exists r :: r in t && r.platform == platform }

  /** One newest row a platform. */
  ghost predicate IsIndex(t: Table, index: map<string, Row>) {
    && (forall p :: p in index <==> Covers(t, p))
    && (forall p :: p in index ==> IsNewest(t, p, index[p]))
  }

  /** The index lookup with its fallback. */
  function FromIndex(index: map<string, Row>, platform: string): Option<Row> {
    if platform in index then Some(index[platform])
    else if "any" in index then Some(index["any"])
    else None
  }

  ghost predicate DistinctTimes(t: Table) { forall r, s :: r in t && s in t && r.createdAt == s.createdAt ==> r == s }

  /** Whatever the index falls back to is a row the ordered lookup may return, and it finds one whenever there is one. */
  lemma IndexIsFirst(t: Table, index: map<string, Row>, platform: string)
    requires IsIndex(t, index)
    ensures var r := FromIndex(index, platform);
      && (r.Some? ==> IsFirst(t, platform, r.value))
      && (r.None? ==> forall s :: s in t ==> !Applies(platform, s))
  {
    var r := FromIndex(index, platform);
    if r.None? {
      forall s | s in t ensures !Applies(platform, s) {
        assert Covers(t, s.platform);
      }
    } else {
      forall s | s in t && Applies(platform, s) ensures !Before(platform, s, r.value) {
        assert Covers(t, s.platform);
      }
    }
  }

  predicate SameRank(platform: string, a: Row, b: Row) {
    (a.platform == platform <==> b.platform == platform) && a.createdAt == b.createdAt
  }

  /** No two distinct applicable rows tie with nothing before them. */
  ghost predicate NoTopTie(t: Table, platform: string) {
    forall r, s :: r in t && s in t && Applies(platform, r) && Applies(platform, s) && r != s && SameRank(platform, r, s) ==>
      exists u :: u in t && Applies(platform, u) && Before(platform, u, r)
  }

  /** The index gives every answer the lookup may give exactly when no applicable rows tie at the top of the table. */
  lemma AgreesIffNoTopTie(t: Table, index: map<string, Row>, platform: string)
    requires IsIndex(t, index)
    ensures (forall r :: IsFirst(t, platform, r) ==> FromIndex(index, platform) == Some(r)) <==> NoTopTie(t, platform)
  {
    IndexIsFirst(t, index, platform);
    if NoTopTie(t, platform) {
      forall r | IsFirst(t, platform, r) ensures FromIndex(index, platform) == Some(r) {
        var top := FromIndex(index, platform).value;
        assert !Before(platform, r, top) && !Before(platform, top, r);
        assert SameRank(platform, r, top);
      }
    } else {
      var r, s :| r in t && s in t && Applies(platform, r) && Applies(platform, s) && r != s && SameRank(platform, r, s)
        && forall u :: u in t && Applies(platform, u) ==> !Before(platform, u, r);
      assert IsFirst(t, platform, r) && IsFirst(t, platform, s);
    }
  }

  /** With such a tie the two can indeed answer differently. */
  lemma TiesDiffer()
    ensures exists t: Table, index: map<string, Row>, r: Row ::
      IsIndex(t, index) && IsFirst(t, "ios", r) && FromIndex(index, "ios") != Some(r)
  {
    var a := Row("ios", 1, Policy("2.0", true, "", "", ""));
    var b := Row("ios", 1, Policy("1.0", false, "", "", ""));
    var t: Table := [a, b];
    var index := map["ios" := a];
    assert a in t && Covers(t, "ios");
    assert IsNewest(t, "ios", a);
    assert IsIndex(t, index);
    assert b in t && IsFirst(t, "ios", b);
  }

  // ---- Reading the index ----

  /** How a read of the index ends: not at all, or with the rows of some platforms scanned. */
  datatype Answer = Down | Scanned(platforms: set<string>)

  /** Every platform of the table was scanned before the rows ended. */
  ghost predicate Complete(t: Table, platforms: set<string>) { forall r :: r in t ==> r.platform in platforms }

  /** The newest rows of the platforms scanned. */
  ghost predicate IsIndexOf(t: Table, platforms: set<string>, index: map<string, Row>) {
    && (forall p :: p in index <==> Covers(t, p) && p in platforms)
    && (forall p :: p in index ==> IsNewest(t, p, index[p]))
  }

  lemma CompleteIsIndex(t: Table, platforms: set<string>, index: map<string, Row>)
    requires IsIndexOf(t, platforms, index) && Complete(t, platforms)
    ensures IsIndex(t, index)
  {
  }

  /**
   A read that breaks off still replaces the index, for the code does not ask the rows how they ended. The index then
   answers as the lookup may exactly when the row that decides for the platform was among those scanned.
   */
  lemma CutIndexRightIff(t: Table, platforms: set<string>, index: map<string, Row>, platform: string)
    requires IsIndexOf(t, platforms, index)
    ensures var r := FromIndex(index, platform);
      (if r.Some? then IsFirst(t, platform, r.value) else forall s :: s in t ==> !Applies(platform, s))
        == (if Covers(t, platform) then platform in platforms else Covers(t, "any") ==> "any" in platforms)
  {
    var r := FromIndex(index, platform);
    if Covers(t, platform) {
      var own :| own in t && own.platform == platform;
      if platform !in platforms && r.Some? {
        assert Before(platform, own, r.value);
      }
    } else if Covers(t, "any") {
      var any :| any in t && any.platform == "any";
      assert Applies(platform, any);
    }
    if r.Some? && (platform in index || !Covers(t, platform)) {
      forall s | s in t && Applies(platform, s) ensures !Before(platform, s, r.value) {
        assert Covers(t, s.platform);
      }
    }
    if r.None? && !Covers(t, platform) && !Covers(t, "any") {
      forall s | s in t ensures !Applies(platform, s) {
        assert Covers(t, s.platform);
      }
    }
  }

  /** An index and the instant it was read. */
  datatype Snapshot = Snapshot(index: map<string, Row>, at: int)

  predicate FreshAt(held: Option<Snapshot>, now: int) { held.Some? && now - held.value.at < TTL }

  /** What the middleware holds after it asked for a policy: its index while fresh, else a reread one, else still the old. */
  ghost predicate Rereads(before: Option<Snapshot>, now: int, db: Table, answer: Answer, after: Option<Snapshot>) {
    if FreshAt(before, now) || answer.Down? then after == before
    else after.Some? && after.value.at == now && IsIndexOf(db, answer.platforms, after.value.index)
  }

  // ---- The service ----

  class Service {
    /** The policy table as the database holds it now; anyone may change it between calls. */
    var db: Table
    var cache: Option<map<string, Row>>
    var loaded: int

    function Held(): Option<Snapshot>
      reads this
    {
      if cache.Some? then Some(Snapshot(cache.value, loaded)) else None
    }

    constructor (db: Table)
      ensures this.db == db && Held().None?
    {
      this.db, cache, loaded := db, None, 0;
    }

    /** The ordered lookup. */
    method PolicyFor(platform: string) returns (r: Option<Row>)
      ensures r.Some? ==> IsFirst(db, platform, r.value)
      ensures r.None? ==> forall s :: s in db ==> !Applies(platform, s)
    {
      r := None;
      for i := 0 to |db|
        invariant r.Some? ==> r.value in db[..i] && Applies(platform, r.value)
        invariant r.Some? ==> forall s :: s in db[..i] && Applies(platform, s) ==> !Before(platform, s, r.value)
        invariant r.None? ==> forall s :: s in db[..i] ==> !Applies(platform, s)
      {
        assert db[..i + 1] == db[..i] + [db[i]];
        if Applies(platform, db[i]) && (r.None? || Before(platform, db[i], r.value)) {
          r := Some(db[i]);
        }
      }
      assert db[..|db|] == db;
    }

    /** The update check; an error of the database is the caller's to treat as no update. */
    method Check(platform: string, version: string, dbUp: bool) returns (res: Result<CheckResult, ()>)
      ensures res.Err? <==> !dbUp
      ensures dbUp && (forall s :: s in db ==> !Applies(NormPlatform(platform), s)) ==> res == Ok(NO_UPDATE)
      ensures dbUp && (exists s :: s in db && Applies(NormPlatform(platform), s)) ==>
        exists r :: IsFirst(db, NormPlatform(platform), r) && res == Ok(Verdict(NormPlatform(platform), version, r.policy))
          && AnswersFor(res.value, NormPlatform(platform), version, r.policy)
    {
      var p := NormPlatform(platform);
      if !dbUp {
        return Err(());
      }
      var r := PolicyFor(p);
      if r.None? {
        return Ok(NO_UPDATE);
      }
      var policy := r.value.policy;
      var out := NO_UPDATE.(minVersion := policy.minVersion);
      if version == "" {
        return Ok(out);
      }
      var order := Versions.CompareVersions(version, policy.minVersion);
      if order >= 0 {
        return Ok(out);
      }
      return Ok(out.(needsUpdate := true, force := policy.force, message := policy.message, storeURL := StoreURLFor(p, policy)));
    }

    /** Rereads the index; when the query fails the old one stays, and when its rows break off what was scanned replaces it. */
    method Refresh(now: int, answer: Answer)
      modifies this`cache, this`loaded
      ensures answer.Down? ==> Held() == old(Held())
      ensures answer.Scanned? ==> Held().Some? && Held().value.at == now && IsIndexOf(db, answer.platforms, Held().value.index)
    {
      if answer.Down? {
        return;
      }
      var next: map<string, Row> := map[];
      for i := 0 to |db|
        invariant IsIndexOf(db[..i], answer.platforms, next)
      {
        assert db[..i + 1] == db[..i] + [db[i]];
        if db[i].platform in answer.platforms {
          IndexNext(db[..i], answer.platforms, next, db[i]);
          if db[i].platform !in next || next[db[i].platform].createdAt < db[i].createdAt {
            next := next[db[i].platform := db[i]];
          }
        }
      }
      assert db[..|db|] == db;
      cache, loaded := Some(next), now;
    }

    /** The policy from the index, reread first when it is missing or a minute old. */
    method CachedPolicy(platform: string, now: int, answer: Answer) returns (r: Option<Row>)
      modifies this`cache, this`loaded
      ensures Rereads(old(Held()), now, db, answer, Held())
      ensures r == if Held().Some? then FromIndex(Held().value.index, platform) else None
    {
      var current := cache.Some? && now - loaded < TTL;
      if !current {
        Refresh(now, answer);
      }
      r := if cache.Some? then FromIndex(cache.value, platform) else None;
    }

    /** 426 for a build below a forced minimum; callers without a version pass. */
    method Middleware(platform: string, version: string, now: int, answer: Answer) returns (blocked: Option<Upgrade>)
      modifies this`cache, this`loaded
      ensures version == "" ==> blocked.None? && Held() == old(Held())
      ensures version != "" ==> Rereads(old(Held()), now, db, answer, Held())
      ensures blocked == BlockedNow(Held(), NormPlatform(platform), version)
      ensures blocked.Some? ==>
        && Held().Some? && FromIndex(Held().value.index, NormPlatform(platform)).Some?
        && var p := FromIndex(Held().value.index, NormPlatform(platform)).value.policy;
        && p.force && version != "" && Versions.Order(Versions.Segments(version), Versions.Segments(p.minVersion)) < 0
        && blocked.value.message == p.message && blocked.value.minVersion == p.minVersion
        && IsStoreFor(blocked.value.storeURL, NormPlatform(platform), p)
    {
      if version == "" {
        return None;
      }
      var p := NormPlatform(platform);
      var r := CachedPolicy(p, now, answer);
      if r.Some? && r.value.policy.force {
        var order := Versions.CompareVersions(version, r.value.policy.minVersion);
        if order < 0 {
          return Some(Upgrade(r.value.policy.message, StoreURLFor(p, r.value.policy), r.value.policy.minVersion));
        }
      }
      return None;
    }
  }

  lemma IndexNext(t: Table, platforms: set<string>, index: map<string, Row>, r: Row)
    requires IsIndexOf(t, platforms, index) && r.platform in platforms
    ensures IsIndexOf(t + [r], platforms,
                      if r.platform !in index || index[r.platform].createdAt < r.createdAt then index[r.platform := r] else index)
  {
    forall p ensures Covers(t + [r], p) <==> Covers(t, p) || r.platform == p {
      assert r in t + [r];
    }
  }

  ghost function Verdict(platform: string, version: string, p: Policy): CheckResult {
    if Outdated(version, p) then CheckResult(true, p.force, p.message, StoreURLFor(platform, p), p.minVersion)
    else NO_UPDATE.(minVersion := p.minVersion)
  }

  ghost function BlockedBy(r: Option<Row>, platform: string, version: string): Option<Upgrade> {
    if r.Some? && r.value.policy.force && Outdated(version, r.value.policy)
    then Some(Upgrade(r.value.policy.message, StoreURLFor(platform, r.value.policy), r.value.policy.minVersion))
    else None
  }

  /**
   On one table with distinct creation times: the middleware blocks a versioned request exactly when the check would
   answer that a forced update is needed, and with the same message, store and minimum.
   */
  lemma BlockedIffForced(t: Table, index: map<string, Row>, platform: string, version: string, r: Row)
    requires DistinctTimes(t) && IsIndex(t, index) && IsFirst(t, platform, r)
    ensures FromIndex(index, platform) == Some(r)
    ensures var blocked := BlockedBy(FromIndex(index, platform), platform, version);
      var check := Verdict(platform, version, r.policy);
      && (blocked.Some? <==> check.needsUpdate && check.force)
      && (blocked.Some? ==> blocked.value == Upgrade(check.message, check.storeURL, check.minVersion))
  {
    IndexIsFirst(t, index, platform);
  }

  ghost function BlockedNow(held: Option<Snapshot>, platform: string, version: string): Option<Upgrade> {
    if held.Some? then BlockedBy(FromIndex(held.value.index, platform), platform, version) else None
  }

  // ---- How old the index can be ----

  datatype State = State(now: int, hist: seq<Version<Table>>, held: Option<Snapshot>)

  datatype Event = Mutate(at: int, table: Table) | Request(at: int, answer: Answer)

  /** Events happen at increasing instants; a request is one through the middleware with a version. */
  ghost predicate Next(s: State, e: Event, s': State) {
    && s.hist != []
    && e.at > s.now && s'.now == e.at
    && match e
       case Mutate(at, table) => s'.hist == s.hist + [Version(at, table)] && s'.held == s.held
       case Request(at, answer) => s'.hist == s.hist && Rereads(s.held, at, Current(s.hist), answer, s'.held)
  }

  ghost predicate IsRun(states: seq<State>, events: seq<Event>) {
    |states| == |events| + 1 && forall i :: 0 <= i < |events| ==> Next(states[i], events[i], states[i + 1])
  }

  /** No read of the run breaks off. */
  ghost predicate ReadsWhole(states: seq<State>, events: seq<Event>)
    requires IsRun(states, events)
  {
    forall i :: 0 <= i < |events| && events[i].Request? && events[i].answer.Scanned? ==>
      states[i].hist != [] && Complete(Current(states[i].hist), events[i].answer.platforms)
  }

  /** The held index was the table's index at the instant it was read. */
  ghost predicate Inv(s: State) {
    && s.hist != [] && s.hist[|s.hist| - 1].since <= s.now
    && (s.held.Some? ==> s.held.value.at <= s.now && IsIndex(TableAt(s.hist, s.held.value.at), s.held.value.index))
  }

  lemma StepKeepsInv(s: State, e: Event, s': State)
    requires Inv(s) && Next(s, e, s')
    requires e.Request? && e.answer.Scanned? ==> Complete(Current(s.hist), e.answer.platforms)
    ensures Inv(s')
  {
    match e
    case Mutate(at, table) =>
      if s.held.Some? {
        PastStands(s.hist, Version(at, table), s.held.value.at);
      }
    case Request(at, answer) =>
      if answer.Scanned? && s'.held != s.held {
        CompleteIsIndex(Current(s.hist), answer.platforms, s'.held.value.index);
      }
  }

  lemma {:induction false} RunKeepsInv(states: seq<State>, events: seq<Event>, i: nat)
    requires IsRun(states, events) && ReadsWhole(states, events) && Inv(states[0]) && i <= |events|
    ensures Inv(states[i])
  {
    if i > 0 {
      RunKeepsInv(states, events, i - 1);
      StepKeepsInv(states[i - 1], events[i - 1], states[i]);
    }
  }

  /**
   Over every run whose reads do not break off: a versioned request for which the database answers is decided by the
   index of the table as it was less than a minute before, whatever changed meanwhile.
   */
  lemma DecisionsAreRecent(states: seq<State>, events: seq<Event>, i: nat) returns (t: int)
    requires IsRun(states, events) && ReadsWhole(states, events) && Inv(states[0])
    requires i < |events| && events[i].Request? && events[i].answer.Scanned?
    ensures var s := states[i + 1];
      s.hist != [] && s.held.Some? && events[i].at - TTL < t <= events[i].at && IsIndex(TableAt(s.hist, t), s.held.value.index)
  {
    RunKeepsInv(states, events, i);
    RunKeepsInv(states, events, i + 1);
    t := states[i + 1].held.value.at;
  }

  /** The bound is sharp: a policy forced right after the index was read blocks nobody for the rest of the minute. */
  lemma StaleForAMinute(r: Row)
    requires r.platform == "any"
    ensures exists states: seq<State>, events: seq<Event> ::
      && IsRun(states, events) && |events| == 3 && Inv(states[0]) && events[1] == Mutate(2, [r]) && events[2].at == TTL
      && events[2].Request? && events[2].answer.Scanned? && states[3].held == Some(Snapshot(map[], 1))
  {
    var none: Table := [];
    var s0 := State(0, [Version(0, none)], None);
    var s1 := State(1, s0.hist, Some(Snapshot(map[], 1)));
    var s2 := State(2, s0.hist + [Version(2, [r])], s1.held);
    var s3 := State(TTL, s2.hist, s1.held);
    var states, events := [s0, s1, s2, s3], [Request(1, Scanned({})), Mutate(2, [r]), Request(TTL, Scanned({"any"}))];
    assert Current(s0.hist) == none && IsIndexOf(none, {}, map[]);
    assert Next(s0, events[0], s1) && Next(s1, events[1], s2) && Next(s2, events[2], s3);
    assert IsRun(states, events);
  }
}
