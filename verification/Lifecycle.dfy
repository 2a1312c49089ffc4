/** The config lifecycle of one page and environment: drafts, staging, activation and rollback. */
module Lifecycle {
  import opened Common

  datatype Status = Draft | Staged | Active | Archived

  datatype Config = Config(status: Status, json: string, createdAt: int, archivedAt: Option<int>)

  /** Rows by version; (page, version, env) is unique. */
  type Rows = map<string, Config>

  /** The digest of content, status and version, taken to be injective. */
  datatype ETag = ETag(json: string, status: Status, version: string)

  datatype ConfigError = NotFound | ETagMismatch | InvalidStatus | Conflict

  type Outcome = Result<string, ConfigError>

  function TagOf(rows: Rows, v: string): ETag
    requires v in rows
  {
    ETag(rows[v].json, rows[v].status, v)
  }

  predicate Editable(c: Config) { c.status.Draft? || c.status.Archived? }

  predicate Matches(rows: Rows, v: string, ifMatch: Option<ETag>)
    requires v in rows
  {
    ifMatch.None? || ifMatch.value == TagOf(rows, v)
  }

  // ---- The transactions ----

  function CreateDraft(rows: Rows, v: string, json: string, now: int): (Outcome, Rows) {
    if v in rows then (Err(Conflict), rows) else (Ok(v), rows[v := Config(Draft, json, now, None)])
  }

  /** The first statement of an update: the row is read, and its status and tag are checked. */
  function CheckUpdate(rows: Rows, v: string, ifMatch: Option<ETag>): Outcome {
    if v !in rows then Err(NotFound)
    else if !Editable(rows[v]) then Err(InvalidStatus)
    else if !Matches(rows, v, ifMatch) then Err(ETagMismatch)
    else Ok(v)
  }

  /** What an update sets: the content, descriptive columns, both or nothing. The columns themselves are not modelled. */
  datatype Patch = Patch(json: Option<string>, columns: bool)

  function Content(json: string): Patch { Patch(Some(json), false) }

  function Patched(c: Config, patch: Patch): Config { if patch.json.Some? then c.(json := patch.json.value) else c }

  /** The second statement, which an empty patch does without: guarded by the status only. */
  function WriteUpdate(rows: Rows, v: string, patch: Patch): (Outcome, Rows) {
    if patch.json.None? && !patch.columns then (Ok(v), rows)
    else if v in rows && Editable(rows[v]) then (Ok(v), rows[v := Patched(rows[v], patch)])
    else (Err(NotFound), rows)
  }

  /** Both, with nothing in between. */
  function UpdateDraft(rows: Rows, v: string, ifMatch: Option<ETag>, patch: Patch): (Outcome, Rows) {
    if CheckUpdate(rows, v, ifMatch).Err? then (CheckUpdate(rows, v, ifMatch), rows) else WriteUpdate(rows, v, patch)
  }

  function DeleteDraft(rows: Rows, v: string): (Outcome, Rows) {
    if v !in rows then (Err(NotFound), rows)
    else if !Editable(rows[v]) then (Err(InvalidStatus), rows)
    else (Ok(v), rows - {v})
  }

  /** Staging keeps an old archive time on the row. */
  function Stage(rows: Rows, v: string): (Outcome, Rows) {
    if v !in rows then (Err(NotFound), rows)
    else if !Editable(rows[v]) then (Err(InvalidStatus), rows)
    else (Ok(v), rows[v := rows[v].(status := Staged)])
  }

  function Shelved(c: Config, now: int): Config { c.(status := Archived, archivedAt := Some(now)) }

  /** Every active row archived. */
  function Shelve(rows: Rows, now: int): Rows {
    map u | u in rows :: if rows[u].status.Active? then Shelved(rows[u], now) else rows[u]
  }

  function Activate(rows: Rows, v: string, ifMatch: Option<ETag>, now: int): (Outcome, Rows) {
    if v !in rows then (Err(NotFound), rows)
    else if !rows[v].status.Staged? then (Err(InvalidStatus), rows)
    else if !Matches(rows, v, ifMatch) then (Err(ETagMismatch), rows)
    else (Ok(v), Shelve(rows, now)[v := rows[v].(status := Active)])
  }

  function WithStatus(rows: Rows, status: Status): set<string> { set v | v in rows && rows[v].status == status }

  /** `a` sorts at or before `b` under archived_at DESC NULLS LAST, created_at DESC. */
  predicate Precedes(a: Config, b: Config) {
    match (a.archivedAt, b.archivedAt)
    case (Some(x), Some(y)) => x > y || (x == y && a.createdAt >= b.createdAt)
    case (Some(_), None) => true
    case (None, Some(_)) => false
    case (None, None) => a.createdAt >= b.createdAt
  }

  ghost predicate IsLatest(rows: Rows, v: string) {
    v in WithStatus(rows, Archived) && forall u :: u in WithStatus(rows, Archived) ==> Precedes(rows[v], rows[u])
  }

  function Restored(rows: Rows, current: string, prev: string, now: int): Rows
    requires current in rows && prev in rows
  {
    rows[current := Shelved(rows[current], now)][prev := rows[prev].(status := Active, archivedAt := None)]
  }

  /** The active row `a` is archived now, the archived row `b` is active without an archive time, and no other row changed. */
  ghost predicate Swapped(was: Rows, a: string, b: string, now: int, rows: Rows) {
    && a in was && b in was && was[a].status == Active && was[b].status == Archived && rows.Keys == was.Keys
    && rows[a] == was[a].(status := Archived, archivedAt := Some(now))
    && rows[b] == was[b].(status := Active, archivedAt := None)
    && forall u :: u in was && u != a && u != b ==> rows[u] == was[u]
  }

  /** One possible outcome of a rollback; only equal archive and creation times leave a choice. */
  ghost predicate RollsBack(rows: Rows, now: int, r: Outcome, rows': Rows) {
    if WithStatus(rows, Active) == {} || WithStatus(rows, Archived) == {} then r == Err(NotFound) && rows' == rows
    else exists current, prev :: current in WithStatus(rows, Active) && IsLatest(rows, prev)
           && r == Ok(prev) && rows' == Restored(rows, current, prev, now)
  }

  /** The admin repository; `rows` is the table, each method one transaction. */
  class ConfigRepository {
    var rows: Rows

    constructor ()
      ensures rows == map[]
    {
      rows := map[];
    }

    method Create(v: string, json: string, now: int) returns (r: Outcome)
      modifies this
      ensures (r, rows) == CreateDraft(old(rows), v, json, now)
      ensures if v in old(rows) then r == Err(Conflict) && rows == old(rows) else rows == old(rows)[v := Config(Draft, json, now, None)]
    {
      if v in rows {
        return Err(Conflict);
      }
      rows := rows[v := Config(Draft, json, now, None)];
      return Ok(v);
    }

    method ReadForUpdate(v: string, ifMatch: Option<ETag>) returns (r: Outcome)
      ensures r == CheckUpdate(rows, v, ifMatch)
    {
      if v !in rows {
        return Err(NotFound);
      }
      var current := rows[v];
      if !current.status.Draft? && !current.status.Archived? {
        return Err(InvalidStatus);
      }
      if ifMatch.Some? && ifMatch.value != TagOf(rows, v) {
        return Err(ETagMismatch);
      }
      return Ok(v);
    }

    method WritePatch(v: string, patch: Patch) returns (r: Outcome)
      modifies this
      ensures (r, rows) == WriteUpdate(old(rows), v, patch)
    {
      if patch.json.None? && !patch.columns {
        return Ok(v);
      }
      if v in rows && Editable(rows[v]) {
        rows := rows[v := if patch.json.Some? then rows[v].(json := patch.json.value) else rows[v]];
        return Ok(v);
      }
      return Err(NotFound);
    }

    /** An update that nobody overlaps. */
    method Update(v: string, ifMatch: Option<ETag>, patch: Patch) returns (r: Outcome)
      modifies this
      ensures (r, rows) == UpdateDraft(old(rows), v, ifMatch, patch)
      ensures r == Err(InvalidStatus) <==> v in old(rows) && old(rows)[v].status != Draft && old(rows)[v].status != Archived
      ensures r.Ok? ==> v in old(rows) && (ifMatch.Some? ==> ifMatch.value == ETag(old(rows)[v].json, old(rows)[v].status, v))
      ensures rows == if r.Ok? && patch.json.Some? then old(rows)[v := old(rows)[v].(json := patch.json.value)] else old(rows)
    {
      r := ReadForUpdate(v, ifMatch);
      if r.Ok? {
        r := WritePatch(v, patch);
      }
    }

    method Delete(v: string) returns (r: Outcome)
      modifies this
      ensures (r, rows) == DeleteDraft(old(rows), v)
      ensures r.Ok? <==> v in old(rows) && (old(rows)[v].status == Draft || old(rows)[v].status == Archived)
      ensures rows == (if r.Ok? then old(rows) - {v} else old(rows)) && (r == Err(NotFound) <==> v !in old(rows))
    {
      if v in rows && Editable(rows[v]) {
        rows := rows - {v};
        return Ok(v);
      }
      return if v in rows then Err(InvalidStatus) else Err(NotFound);
    }

    method StageVersion(v: string) returns (r: Outcome)
      modifies this
      ensures (r, rows) == Stage(old(rows), v)
      ensures r.Ok? <==> v in old(rows) && (old(rows)[v].status == Draft || old(rows)[v].status == Archived)
      ensures rows == (if r.Ok? then old(rows)[v := old(rows)[v].(status := Staged)] else old(rows)) && (r == Err(NotFound) <==> v !in old(rows))
    {
      if v in rows && Editable(rows[v]) {
        rows := rows[v := rows[v].(status := Staged)];
        return Ok(v);
      }
      return if v in rows then Err(InvalidStatus) else Err(NotFound);
    }

    method ActivateVersion(v: string, ifMatch: Option<ETag>, now: int) returns (r: Outcome)
      modifies this
      ensures (r, rows) == Activate(old(rows), v, ifMatch, now)
      ensures r.Ok? <==> v in old(rows) && old(rows)[v].status == Staged && (ifMatch.Some? ==> ifMatch.value == ETag(old(rows)[v].json, Staged, v))
      ensures r.Err? ==> rows == old(rows)
      ensures r.Ok? ==> rows.Keys == old(rows).Keys && rows[v] == old(rows)[v].(status := Active)
      ensures r.Ok? ==> forall u :: u in old(rows) && u != v ==>
        rows[u] == if old(rows)[u].status == Active then old(rows)[u].(status := Archived, archivedAt := Some(now)) else old(rows)[u]
    {
      if v !in rows {
        return Err(NotFound);
      }
      if !rows[v].status.Staged? {
        return Err(InvalidStatus);
      }
      if ifMatch.Some? && ifMatch.value != TagOf(rows, v) {
        return Err(ETagMismatch);
      }
      rows := Shelve(rows, now);
      rows := rows[v := rows[v].(status := Active)];
      return Ok(v);
    }

    /** Archives the active row and re-activates the archived row that sorts first. */
    method Rollback(now: int) returns (r: Outcome)
      modifies this
      ensures RollsBack(old(rows), now, r, rows)
      ensures r.Ok? ==> r.value in old(rows) && old(rows)[r.value].status == Archived
      ensures r.Ok? ==> forall u :: u in old(rows) && old(rows)[u].status == Archived && old(rows)[u].archivedAt.Some? ==>
        old(rows)[r.value].archivedAt.Some? && old(rows)[u].archivedAt.value <= old(rows)[r.value].archivedAt.value
      ensures r.Ok? ==> exists current :: current in old(rows) && Swapped(old(rows), current, r.value, now, rows)
    {
      var active := WithStatus(rows, Active);
      if active == {} {
        return Err(NotFound);
      }
      var archived := WithStatus(rows, Archived);
      if archived == {} {
        return Err(NotFound);
      }
      var current :| current in active;
      var prev :| prev in archived;
      var todo := archived - {prev};
      while todo != {}
        invariant todo <= archived && prev in archived
        invariant forall u :: u in archived && u !in todo ==> Precedes(rows[prev], rows[u])
        decreases todo
      {
        var u :| u in todo;
        if !Precedes(rows[prev], rows[u]) {
          prev := u;
        }
        todo := todo - {u};
      }
      rows := Restored(rows, current, prev, now);
      return Ok(prev);
    }
  }

  // ---- Runs ----

  /** An update between its two statements: the version it read, and what it will write. */
  datatype Checked = Checked(v: string, patch: Patch)

  /** `open` holds the updates that have passed their check. */
  datatype State = State(now: int, rows: Rows, open: map<int, Checked>)

  datatype Event =
    | Create(at: int, v: string, json: string)
    | ReadUpdate(at: int, u: int, v: string, ifMatch: Option<ETag>, patch: Patch)
    | FinishUpdate(at: int, u: int)
    | Delete(at: int, v: string)
    | StageIt(at: int, v: string)
    | ActivateIt(at: int, v: string, ifMatch: Option<ETag>)
    | RollbackIt(at: int)

  /** Transactions carry strictly increasing times. */
  ghost predicate Next(s: State, e: Event, s': State) {
    && e.at > s.now
    && s'.now == e.at
    && s'.open == OpenAfter(s, e)
    && match e
       case Create(at, v, json) => s'.rows == CreateDraft(s.rows, v, json, at).1
       case ReadUpdate(_, _, _, _, _) => s'.rows == s.rows
       case FinishUpdate(_, u) => s'.rows == if u in s.open then WriteUpdate(s.rows, s.open[u].v, s.open[u].patch).1 else s.rows
       case Delete(_, v) => s'.rows == DeleteDraft(s.rows, v).1
       case StageIt(_, v) => s'.rows == Stage(s.rows, v).1
       case ActivateIt(at, v, ifMatch) => s'.rows == Activate(s.rows, v, ifMatch, at).1
       case RollbackIt(at) => exists r :: RollsBack(s.rows, at, r, s'.rows)
  }

  function OpenAfter(s: State, e: Event): map<int, Checked> {
    match e
    case ReadUpdate(_, u, v, ifMatch, patch) =>
      if u !in s.open && CheckUpdate(s.rows, v, ifMatch).Ok? then s.open[u := Checked(v, patch)] else s.open
    case FinishUpdate(_, u) => s.open - {u}
    case _ => s.open
  }

  /** A run: each state follows from the one before by its event. */
  ghost predicate IsRun(states: seq<State>, events: seq<Event>) {
    |states| == |events| + 1 && forall i :: 0 <= i < |events| ==> Next(states[i], events[i], states[i + 1])
  }

  ghost predicate Inv(s: State) {
    && (forall u, v :: u in WithStatus(s.rows, Active) && v in WithStatus(s.rows, Active) ==> u == v)
    && (forall v :: v in WithStatus(s.rows, Archived) ==> s.rows[v].archivedAt.Some? && s.rows[v].archivedAt.value <= s.now)
    && (forall u, v :: (u in WithStatus(s.rows, Archived) && v in WithStatus(s.rows, Archived)
                        && s.rows[u].archivedAt == s.rows[v].archivedAt) ==> u == v)
    && (WithStatus(s.rows, Archived) != {} ==> WithStatus(s.rows, Active) != {})
  }

  lemma StepKeepsInv(s: State, e: Event, s': State)
    requires Inv(s) && Next(s, e, s')
    ensures Inv(s')
    ensures WithStatus(s.rows, Active) != {} ==> WithStatus(s'.rows, Active) != {}
  {
    forall u | u in WithStatus(s'.rows, Archived)
      ensures u in s.rows
      ensures s.rows[u].status.Archived? || (s.rows[u].status.Active? && s'.rows[u].archivedAt == Some(e.at))
      ensures s.rows[u].status.Archived? ==> s'.rows[u].archivedAt == s.rows[u].archivedAt
    {
    }
    forall u, v | u in WithStatus(s'.rows, Archived) && v in WithStatus(s'.rows, Archived) && s'.rows[u].archivedAt == s'.rows[v].archivedAt
      ensures u == v
    {
      assert s.rows[u].status.Archived? ==> u in WithStatus(s.rows, Archived);
      assert s.rows[v].status.Archived? ==> v in WithStatus(s.rows, Archived);
      assert s.rows[u].status.Active? ==> u in WithStatus(s.rows, Active);
      assert s.rows[v].status.Active? ==> v in WithStatus(s.rows, Active);
    }
    ActiveStays(s, e, s');
    forall u, v | u in WithStatus(s'.rows, Active) && v in WithStatus(s'.rows, Active) ensures u == v {
      ActiveStaysUnique(s, e, s', u, v);
    }
  }

  /** A rollback leaves one active version: the one it restored. */
  lemma ActiveAfterRestore(rows: Rows, current: string, prev: string, at: int)
    requires WithStatus(rows, Active) == {current} && prev in WithStatus(rows, Archived)
    ensures current in rows && prev in rows
    ensures WithStatus(Restored(rows, current, prev, at), Active) == {prev}
  {
    assert current in WithStatus(rows, Active);
    var after := Restored(rows, current, prev, at);
    forall u ensures u in WithStatus(after, Active) <==> u == prev {
      assert u in WithStatus(rows, Active) <==> u == current;
    }
  }

  lemma RollbackParts(s: State, back: Event, end: State) returns (current: string, prev: string)
    requires WithStatus(s.rows, Active) != {} && WithStatus(s.rows, Archived) != {}
    requires back.RollbackIt? && Next(s, back, end)
    ensures current in WithStatus(s.rows, Active) && IsLatest(s.rows, prev) && end.rows == Restored(s.rows, current, prev, back.at)
  {
    var r :| RollsBack(s.rows, back.at, r, end.rows);
    current, prev :| current in WithStatus(s.rows, Active) && IsLatest(s.rows, prev) && end.rows == Restored(s.rows, current, prev, back.at);
  }

  lemma ActiveStaysUnique(s: State, e: Event, s': State, u: string, v: string)
    requires Inv(s) && Next(s, e, s')
    requires u in WithStatus(s'.rows, Active) && v in WithStatus(s'.rows, Active)
    ensures u == v
  {
    assert u in s.rows && s.rows[u].status.Active? ==> u in WithStatus(s.rows, Active);
    assert v in s.rows && s.rows[v].status.Active? ==> v in WithStatus(s.rows, Active);
    if e.RollbackIt? && WithStatus(s.rows, Active) != {} && WithStatus(s.rows, Archived) != {} {
      var current, prev := RollbackParts(s, e, s');
      assert WithStatus(s.rows, Active) == {current};
      ActiveAfterRestore(s.rows, current, prev, e.at);
    }
  }

  lemma ActiveStays(s: State, e: Event, s': State)
    requires Inv(s) && Next(s, e, s')
    ensures WithStatus(s.rows, Active) != {} ==> WithStatus(s'.rows, Active) != {}
    ensures WithStatus(s'.rows, Archived) != {} ==> WithStatus(s'.rows, Active) != {}
  {
    if a :| a in WithStatus(s.rows, Active) {
      if e.ActivateIt? && e.v in s.rows && s.rows[e.v].status.Staged? && Matches(s.rows, e.v, e.ifMatch) {
        assert e.v in WithStatus(s'.rows, Active);
      } else if e.RollbackIt? && WithStatus(s.rows, Archived) != {} {
        var prev :| IsLatest(s.rows, prev) && prev in WithStatus(s'.rows, Active);
      } else {
        assert a in WithStatus(s'.rows, Active);
      }
    } else {
      assert WithStatus(s.rows, Active) == {} && WithStatus(s.rows, Archived) == {};
      forall u ensures u !in WithStatus(s'.rows, Archived) {
        assert u !in WithStatus(s.rows, Archived) && u !in WithStatus(s.rows, Active);
      }
      assert WithStatus(s'.rows, Archived) == {};
    }
  }

  /** Over every run: at most one active version, for good once there is one, and archived rows keep their times. */
  lemma {:induction false} RunKeepsInv(states: seq<State>, events: seq<Event>, i: nat)
    requires IsRun(states, events) && Inv(states[0]) && i <= |events|
    ensures Inv(states[i])
    ensures WithStatus(states[0].rows, Active) != {} ==> |WithStatus(states[i].rows, Active)| == 1
  {
    if i > 0 {
      RunKeepsInv(states, events, i - 1);
      StepKeepsInv(states[i - 1], events[i - 1], states[i]);
    }
    if a :| a in WithStatus(states[i].rows, Active) {
      assert WithStatus(states[i].rows, Active) == {a};
    }
  }

  // ---- Rollback undoes what put the last version on the shelf ----

  predicate Quiet(e: Event) { !e.ActivateIt? && !e.RollbackIt? }

  /** `a` was archived at `at`, later than any other archived row. */
  ghost predicate TopOfShelf(s: State, a: string, at: int) {
    && Inv(s) && at <= s.now && a in s.rows
    && (s.rows[a].status.Archived? ==> s.rows[a].archivedAt == Some(at))
    && (forall u :: u in WithStatus(s.rows, Archived) && u != a ==> s.rows[u].archivedAt.value < at)
  }

  lemma QuietKeepsTop(s: State, e: Event, s': State, a: string, at: int)
    requires TopOfShelf(s, a, at) && Next(s, e, s') && Quiet(e) && a in s'.rows && s'.rows[a].status.Archived?
    ensures TopOfShelf(s', a, at)
  {
    StepKeepsInv(s, e, s');
  }

  lemma RollbackTakesTop(s: State, e: Event, s': State, a: string, at: int)
    requires TopOfShelf(s, a, at) && a in WithStatus(s.rows, Archived) && Next(s, e, s') && e.RollbackIt?
    ensures WithStatus(s'.rows, Active) == {a}
    ensures forall u :: u in s.rows && u != a && !s.rows[u].status.Active? ==> u in s'.rows && s'.rows[u] == s.rows[u]
    ensures s'.rows.Keys == s.rows.Keys
  {
    assert WithStatus(s.rows, Active) != {};
    var current, prev := RollbackParts(s, e, s');
    assert Precedes(s.rows[prev], s.rows[a]);
    assert prev == a;
    assert WithStatus(s.rows, Active) == {current};
    ActiveAfterRestore(s.rows, current, prev, e.at);
  }

  ghost predicate QuietRun(states: seq<State>, events: seq<Event>) {
    IsRun(states, events) && forall e :: e in events ==> Quiet(e)
  }

  lemma {:induction false} QuietRunKeepsTop(states: seq<State>, events: seq<Event>, i: nat, a: string, at: int)
    requires QuietRun(states, events) && i <= |events|
    requires TopOfShelf(states[0], a, at) && a in WithStatus(states[i].rows, Archived)
    ensures TopOfShelf(states[i], a, at)
  {
    if i > 0 {
      var e := events[i - 1];
      assert e in events;
      assert a in WithStatus(states[i - 1].rows, Archived);
      QuietRunKeepsTop(states, events, i - 1, a, at);
      QuietKeepsTop(states[i - 1], e, states[i], a, at);
    }
  }

  /**
   Whatever activation or rollback `e` replaced the active version `a`, and whatever drafting, staging and
   deleting followed, the next rollback re-activates `a`, as long as `a` is still on the shelf.
   */
  lemma RollbackRestores(s: State, e: Event, states: seq<State>, events: seq<Event>, back: Event, end: State, a: string)
    requires Inv(s) && WithStatus(s.rows, Active) == {a}
    requires QuietRun(states, events) && Next(s, e, states[0]) && (e.ActivateIt? || e.RollbackIt?)
    requires var last := states[|events|]; a in WithStatus(last.rows, Archived) && back.RollbackIt? && Next(last, back, end)
    ensures WithStatus(end.rows, Active) == {a}
  {
    assert a in WithStatus(s.rows, Active);
    QuietArchivedBack(states, events, |events|, a);
    StepKeepsInv(s, e, states[0]);
    ShelvedIsTop(s, e, states[0], a);
    QuietRunKeepsTop(states, events, |events|, a, e.at);
    RollbackTakesTop(states[|events|], back, end, a, e.at);
  }

  lemma {:induction false} QuietArchivedBack(states: seq<State>, events: seq<Event>, i: nat, a: string)
    requires QuietRun(states, events) && i <= |events| && a in WithStatus(states[i].rows, Archived)
    ensures a in WithStatus(states[0].rows, Archived)
  {
    if i > 0 {
      assert events[i - 1] in events;
      assert a in WithStatus(states[i - 1].rows, Archived);
      QuietArchivedBack(states, events, i - 1, a);
    }
  }

  lemma ShelvedIsTop(s: State, e: Event, s': State, a: string)
    requires Inv(s) && Inv(s') && a in WithStatus(s.rows, Active) && Next(s, e, s')
    requires a in WithStatus(s'.rows, Archived)
    ensures TopOfShelf(s', a, e.at)
  {
  }

  /** Activate and Rollback back to back: every version but the two involved is as before, and `a` is active again. */
  lemma ActivateThenRollback(s: State, e: Event, mid: State, back: Event, end: State, a: string)
    requires Inv(s) && WithStatus(s.rows, Active) == {a}
    requires e.ActivateIt? && Activate(s.rows, e.v, e.ifMatch, e.at).0.Ok? && Next(s, e, mid)
    requires back.RollbackIt? && Next(mid, back, end)
    ensures WithStatus(end.rows, Active) == {a} && end.rows[e.v].status.Archived?
    ensures end.rows.Keys == s.rows.Keys && end.rows[a].json == s.rows[a].json
    ensures forall u :: u in s.rows && u != a && u != e.v ==> end.rows[u] == s.rows[u]
  {
    ActivateShelves(s, e, mid, a);
    StepKeepsInv(s, e, mid);
    ShelvedIsTop(s, e, mid, a);
    RollbackTakesTop(mid, back, end, a, e.at);
    RollbackSwaps(mid, back, end, e.v, a);
  }

  /** A successful activation swaps two rows: `a` is shelved, the staged version is active. */
  lemma ActivateShelves(s: State, e: Event, mid: State, a: string)
    requires WithStatus(s.rows, Active) == {a}
    requires e.ActivateIt? && Activate(s.rows, e.v, e.ifMatch, e.at).0.Ok? && Next(s, e, mid)
    ensures a in WithStatus(s.rows, Active) && a in WithStatus(mid.rows, Archived) && e.v in WithStatus(mid.rows, Active) && a != e.v
    ensures mid.rows.Keys == s.rows.Keys && mid.rows[a].json == s.rows[a].json
    ensures forall u :: u in s.rows && u != a && u != e.v ==> mid.rows[u] == s.rows[u]
  {
    assert a in WithStatus(s.rows, Active);
    forall u | u in s.rows && u != a ensures !s.rows[u].status.Active? {
      assert u !in WithStatus(s.rows, Active);
    }
  }

  /** What a rollback from `from` to `to` leaves of the two rows. */
  lemma RollbackSwaps(s: State, back: Event, end: State, from: string, to: string)
    requires Inv(s) && back.RollbackIt? && Next(s, back, end)
    requires from in WithStatus(s.rows, Active) && to in WithStatus(s.rows, Archived) && to in WithStatus(end.rows, Active)
    ensures end.rows == Restored(s.rows, from, to, back.at)
  {
  }

  /** Two rollbacks in a row change no version's status and no content. */
  lemma RollbackTwice(s: State, first: Event, mid: State, second: Event, end: State)
    requires Inv(s) && WithStatus(s.rows, Active) != {} && WithStatus(s.rows, Archived) != {}
    requires first.RollbackIt? && second.RollbackIt? && Next(s, first, mid) && Next(mid, second, end)
    ensures end.rows.Keys == s.rows.Keys
    ensures forall u :: u in s.rows ==> end.rows[u].status == s.rows[u].status && end.rows[u].json == s.rows[u].json
  {
    var current, prev := RollbackParts(s, first, mid);
    RollbackAgain(s, first, mid, second, end, current, prev);
    RestoredTwice(s.rows, current, prev, first.at, second.at);
  }

  lemma RestoredTwice(rows: Rows, current: string, prev: string, earlier: int, now: int)
    requires current in WithStatus(rows, Active) && prev in WithStatus(rows, Archived)
    ensures var end := Restored(Restored(rows, current, prev, earlier), prev, current, now);
      end.Keys == rows.Keys && forall u :: u in rows ==> end[u].status == rows[u].status && end[u].json == rows[u].json
  {
  }

  lemma RollbackAgain(s: State, first: Event, mid: State, second: Event, end: State, current: string, prev: string)
    requires Inv(s) && first.RollbackIt? && second.RollbackIt? && Next(s, first, mid) && Next(mid, second, end)
    requires current in WithStatus(s.rows, Active) && prev in WithStatus(s.rows, Archived)
    requires mid.rows == Restored(s.rows, current, prev, first.at)
    ensures end.rows == Restored(mid.rows, prev, current, second.at)
  {
    StepKeepsInv(s, first, mid);
    ShelvedIsTop(s, first, mid, current);
    RollbackTakesTop(mid, second, end, current, first.at);
    RollbackSwaps(mid, second, end, prev, current);
  }

  // ---- Two updates from one tag ----

  /** The row of `v` is there before and after, unchanged. */
  predicate Still(s: State, s': State, v: string) { v in s.rows && v in s'.rows && s'.rows[v] == s.rows[v] }

  lemma {:induction false} RowStays(states: seq<State>, i: nat, j: nat, v: string)
    requires i <= j < |states| && v in states[i].rows
    requires forall k :: i <= k < j ==> Still(states[k], states[k + 1], v)
    ensures v in states[j].rows && states[j].rows[v] == states[i].rows[v]
  {
    if i < j {
      RowStays(states, i, j - 1, v);
      assert Still(states[j - 1], states[j], v);
    }
  }

  /** An update stays as it was checked until it is finished. */
  lemma {:induction false} CheckedStays(states: seq<State>, events: seq<Event>, i: nat, j: nat, u: int)
    requires IsRun(states, events) && i <= j < |states|
    requires forall k :: i <= k < j ==> !(events[k].FinishUpdate? && events[k].u == u)
    requires u in states[i].open || forall k :: i <= k < j ==> !(events[k].ReadUpdate? && events[k].u == u)
    ensures u in states[j].open <==> u in states[i].open
    ensures u in states[i].open ==> states[j].open[u] == states[i].open[u]
  {
    if i < j {
      CheckedStays(states, events, i, j - 1, u);
      assert Next(states[j - 1], events[j - 1], states[j]);
    }
  }

  /** An update of `v` read at step `r` and finished at step `w`, and its number used by nothing else. */
  ghost predicate UpdateOf(states: seq<State>, events: seq<Event>, r: nat, w: nat, v: string, tag: ETag, patch: Patch)
    requires IsRun(states, events)
  {
    && r < w < |events|
    && events[r].ReadUpdate? && events[r].v == v && events[r].ifMatch == Some(tag) && events[r].patch == patch
    && events[w].FinishUpdate? && events[w].u == events[r].u && events[r].u !in states[r].open
    && forall k :: r < k < w ==>
         !(events[k].ReadUpdate? && events[k].u == events[r].u) && !(events[k].FinishUpdate? && events[k].u == events[r].u)
  }

  /** What an update does depends on the row at its check and on the row at its write, and on nothing in between. */
  lemma UpdateOutcome(states: seq<State>, events: seq<Event>, r: nat, w: nat, v: string, tag: ETag, patch: Patch)
    requires IsRun(states, events) && UpdateOf(states, events, r, w, v, tag, patch)
    ensures states[w + 1].rows ==
      if CheckUpdate(states[r].rows, v, Some(tag)).Ok? then WriteUpdate(states[w].rows, v, patch).1 else states[w].rows
  {
    var u := events[r].u;
    assert Next(states[r], events[r], states[r + 1]);
    CheckedStays(states, events, r + 1, w, u);
    assert Next(states[w], events[w], states[w + 1]);
  }

  /**
   Two updates of one editable row, prepared from its tag, and nothing else touching it: the second overwrites the first,
   unseen, exactly when its check comes before the first one's write; otherwise its check fails and the first one stands.
   */
  lemma LostUpdateIff(states: seq<State>, events: seq<Event>, r: nat, w: nat, r2: nat, w2: nat, v: string, first: string, second: string)
    requires IsRun(states, events) && v in states[0].rows && Editable(states[0].rows[v])
    requires first != states[0].rows[v].json && w < w2
    requires UpdateOf(states, events, r, w, v, TagOf(states[0].rows, v), Content(first))
    requires UpdateOf(states, events, r2, w2, v, TagOf(states[0].rows, v), Content(second))
    requires forall k :: 0 <= k < |events| && k != w && k != w2 ==> Still(states[k], states[k + 1], v)
    ensures v in states[w2].rows && states[w2].rows[v].json == first
    ensures v in states[w2 + 1].rows && states[w2 + 1].rows[v].json == if r2 < w then second else first
  {
    var tag := TagOf(states[0].rows, v);
    RowStays(states, 0, r, v);
    RowStays(states, 0, w, v);
    UpdateOutcome(states, events, r, w, v, tag, Content(first));
    if r2 < w {
      RowStays(states, 0, r2, v);
    } else {
      RowStays(states, w + 1, r2, v);
    }
    RowStays(states, w + 1, w2, v);
    UpdateOutcome(states, events, r2, w2, v, tag, Content(second));
  }

  // ---- Activation under a tag ----

  /**
   An activation with the tag an editor saw at step `i` goes through at step `j` exactly when the version is staged then,
   was staged when it was seen, and has the content that was seen; otherwise it changes nothing. Once through, it is active.
   */
  lemma OutdatedActivationRefused(states: seq<State>, events: seq<Event>, i: nat, j: nat, v: string)
    requires IsRun(states, events) && i <= j < |events| && v in states[i].rows
    requires events[j].ActivateIt? && events[j].v == v && events[j].ifMatch == Some(TagOf(states[i].rows, v))
    ensures var was, now, next := states[i].rows, states[j].rows, states[j + 1].rows;
      if v in now && now[v].status == Staged && was[v].status == Staged && now[v].json == was[v].json
      then Activate(now, v, events[j].ifMatch, events[j].at).0 == Ok(v) && v in next && next[v].status == Active && next[v].json == was[v].json
      else Activate(now, v, events[j].ifMatch, events[j].at).0.Err? && next == now
  {
    assert Next(states[j], events[j], states[j + 1]);
  }

  /** It does happen: both checks, then both writes, and both succeed. */
  lemma LostUpdateHappens(v: string, row: Config, first: string, second: string)
    requires row.status.Draft?
    ensures exists states: seq<State>, events: seq<Event> ::
      && IsRun(states, events) && |events| == 4 && states[0].rows == map[v := row]
      && UpdateOf(states, events, 0, 2, v, TagOf(states[0].rows, v), Content(first))
      && UpdateOf(states, events, 1, 3, v, TagOf(states[0].rows, v), Content(second))
      && states[3].rows == map[v := row.(json := first)] && states[4].rows == map[v := row.(json := second)]
  {
    var rows := map[v := row];
    var tag := TagOf(rows, v);
    var a, b := Checked(v, Content(first)), Checked(v, Content(second));
    var s0 := State(0, rows, map[]);
    var s1 := State(1, rows, map[1 := a]);
    var s2 := State(2, rows, map[1 := a, 2 := b]);
    var s3 := State(3, map[v := row.(json := first)], map[2 := b]);
    var s4 := State(4, map[v := row.(json := second)], map[]);
    var states := [s0, s1, s2, s3, s4];
    var events := [ReadUpdate(1, 1, v, Some(tag), Content(first)), ReadUpdate(2, 2, v, Some(tag), Content(second)),
                   FinishUpdate(3, 1), FinishUpdate(4, 2)];
    assert Next(s0, events[0], s1) && Next(s1, events[1], s2);
    assert s2.open - {1} == s3.open && s3.open - {2} == s4.open;
    assert Next(s2, events[2], s3) && Next(s3, events[3], s4);
    assert IsRun(states, events);
  }
}
