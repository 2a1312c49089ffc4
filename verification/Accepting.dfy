/**
 Two ways to hand a booking to a helper, an accept and the dispatcher's assignment, each under a per-helper advisory
 lock with a check and one guarded UPDATE; interleaved with everything else that writes a booking's helper or status.
 */
module Accepting {
  import opened Common
  import opened Bookings

  /** Locked: helper lock held. Passed: the check under the lock went through. Claimed: row updated, not yet committed. */
  datatype Phase = Begun | Locked | Passed | Claimed

  /** An accept counts the helper's active bookings; the dispatcher probes for a clash with the window it has loaded. */
  datatype Check = Counting | Probing(start: int, duration: nat, pad: nat)

  datatype Attempt = Attempt(booking: int, helper: string, check: Check, phase: Phase)

  datatype Outcome = Won | AlreadyTaken | AtMaxActive | ProBusy | RolledBack

  /** A reassignment past its checks; it holds the booking's row. */
  datatype Swap = Swap(booking: int, helper: string)

  /** What happens to the assignment of a booking: won by an accept, given by the dispatcher or an admin, or released. */
  datatype Entry =
    | WonBy(booking: int, helper: string)
    | Dispatched(booking: int, helper: string)
    | Reassigned(booking: int, helper: string)
    | Released(booking: int)

  /** `done` and `log` record how attempts ended and who got which booking; `checked` holds the moves past their status check. */
  datatype State = State(
    rows: Rows,
    attempts: map<int, Attempt>,
    locks: map<string, int>,
    done: map<int, Outcome>,
    log: seq<Entry>,
    checked: map<int, int>,
    swaps: map<int, Swap>)

  function Fresh(rows: Rows): State { State(rows, map[], map[], map[], [], map[], map[]) }

  /**
   Begin opens an accept, Load an assignment by the dispatcher; both then take the same steps. A move to another time
   checks the status first (CheckMove) and writes in a later transaction (WriteMove); a reassignment locks the row and
   checks that the new helper is idle (CheckSwap), and then writes (WriteSwap). Cancel is any of the cancellations
   (customer, helper, admin, no helper found), Complete the forced completion, Transition a permitted status move, and
   Release hands a booking back to the dispatcher.
   */
  datatype Event =
    | Begin(t: int, booking: int, helper: string)
    | Load(t: int, booking: int, helper: string, pad: nat)
    | Lock(t: int)
    | Examine(t: int)
    | Claim(t: int)
    | Commit(t: int)
    | Abort(t: int)
    | Cancel(id: int)
    | Complete(id: int)
    | Transition(id: int, status: Status)
    | Release(id: int)
    | CheckMove(m: int, id: int)
    | WriteMove(m: int, start: int)
    | CheckSwap(w: int, id: int, helper: string)
    | WriteSwap(w: int)
    | DropSwap(w: int)

  predicate Underway(s: Status) { s.Accepted? || s.InProgress? }

  predicate IsActive(b: Booking, helper: string) { b.helper == Some(helper) && Underway(b.status) }

  function Active(rows: Rows, helper: string): set<int> {
    set id | id in rows && IsActive(rows[id], helper)
  }

  lemma ActiveIs(rows: Rows, helper: string)
    ensures Active(rows, helper) == set b | b in rows && rows[b].helper == Some(helper) && (rows[b].status == Accepted || rows[b].status == InProgress)
  {
    var named := set b | b in rows && rows[b].helper == Some(helper) && (rows[b].status == Accepted || rows[b].status == InProgress);
    forall b ensures b in Active(rows, helper) <==> b in named {
      if b in rows {
        assert IsActive(rows[b], helper) <==> rows[b].helper == Some(helper) && (rows[b].status == Accepted || rows[b].status == InProgress);
      }
    }
  }

  predicate Claimable(rows: Rows, id: int) {
    id in rows && (rows[id].status.Pending? || rows[id].status.Searching?)
  }

  function Assigned(b: Booking, helper: string): Booking {
    b.(helper := Some(helper), status := Accepted)
  }

  predicate Terminal(b: Booking) { b.status.Completed? || b.status.Cancelled? }

  // ---- Windows ----

  const DEFAULT_MINUTES := 60

  function Minutes(b: Booking): nat { if b.duration.Some? then b.duration.value else DEFAULT_MINUTES }

  /** The overlap of two half-open intervals; an empty one overlaps nothing. */
  predicate Overlap(start: int, end: int, start': int, end': int) {
    start < end && start' < end' && start < end' && start' < end
  }

  /** They overlap exactly when they share a minute. */
  lemma OverlapIff(start: int, end: int, start': int, end': int)
    ensures Overlap(start, end, start', end') <==> exists t :: During(t, start, end) && During(t, start', end')
  {
    if Overlap(start, end, start', end') {
      var t := if start < start' then start' else start;
      assert During(t, start, end);
    }
  }

  /** The statuses in which a booking keeps its helper busy. */
  predicate Busy(b: Booking, helper: string) {
    b.helper == Some(helper) && (Underway(b.status) || b.status.Arrived?)
  }

  /** A busy booking whose padded window overlaps the padded window asked about. */
  predicate ClashesWith(b: Booking, helper: string, start: int, duration: nat, pad: nat) {
    && Busy(b, helper) && b.scheduled.Some?
    && Overlap(b.scheduled.value, b.scheduled.value + Minutes(b) + pad, start, start + duration + pad)
  }

  predicate Clash(rows: Rows, helper: string, id: int, start: int, duration: nat, pad: nat) {
    exists other :: other in rows && other != id && ClashesWith(rows[other], helper, start, duration, pad)
  }

  /** The booking keeps its helper busy at a minute: under way or arrived, in its window or the travel after it. */
  predicate BusyAt(b: Booking, helper: string, t: int, pad: nat) {
    && b.helper == Some(helper) && (b.status == Accepted || b.status == InProgress || b.status == Arrived)
    && b.scheduled.Some?
    && During(t, b.scheduled.value, b.scheduled.value + (if b.duration.Some? then b.duration.value else 60) + pad)
  }

  /** The probe finds a clash exactly when another booking keeps the helper busy at some minute of the padded window. */
  lemma ClashIff(rows: Rows, helper: string, id: int, start: int, duration: nat, pad: nat)
    ensures Clash(rows, helper, id, start, duration, pad) <==>
      exists other, t :: other in rows && other != id && BusyAt(rows[other], helper, t, pad) && During(t, start, start + duration + pad)
  {
    if Clash(rows, helper, id, start, duration, pad) {
      var other :| other in rows && other != id && ClashesWith(rows[other], helper, start, duration, pad);
      var b := rows[other];
      OverlapIff(b.scheduled.value, b.scheduled.value + Minutes(b) + pad, start, start + duration + pad);
      var t :| During(t, b.scheduled.value, b.scheduled.value + Minutes(b) + pad) && During(t, start, start + duration + pad);
      assert BusyAt(b, helper, t, pad);
    }
    if other, t :| other in rows && other != id && BusyAt(rows[other], helper, t, pad) && During(t, start, start + duration + pad) {
      assert ClashesWith(rows[other], helper, start, duration, pad);
    }
  }

  // ---- The steps ----

  /** An uncommitted claim, or a reassignment, holds its row's lock. */
  predicate RowHeld(s: State, id: int) {
    || (exists t :: t in s.attempts && s.attempts[t].phase.Claimed? && s.attempts[t].booking == id)
    || (exists w :: w in s.swaps && s.swaps[w].booking == id)
  }

  function Finish(s: State, t: int, outcome: Outcome): State
    requires t in s.attempts
  {
    var h := s.attempts[t].helper;
    s.(attempts := s.attempts - {t},
       locks := if h in s.locks && s.locks[h] == t then s.locks - {h} else s.locks,
       done := s.done[t := outcome])
  }

  function SetPhase(s: State, t: int, phase: Phase): State
    requires t in s.attempts
  {
    s.(attempts := s.attempts[t := s.attempts[t].(phase := phase)])
  }

  /** Why the check under the lock turns an attempt away, if it does. */
  function Refusal(maxActive: int, rows: Rows, a: Attempt): Option<Outcome> {
    match a.check
    case Counting => if |Active(rows, a.helper)| >= maxActive then Some(AtMaxActive) else None
    case Probing(start, duration, pad) => if Clash(rows, a.helper, a.booking, start, duration, pad) then Some(ProBusy) else None
  }

  /** The guard of the claiming UPDATE; the dispatcher's asks for a pending row without helper. */
  predicate Takeable(rows: Rows, a: Attempt) {
    Claimable(rows, a.booking) && (a.check.Probing? ==> rows[a.booking].status.Pending? && rows[a.booking].helper.None?)
  }

  function TakenBy(a: Attempt): Entry {
    if a.check.Counting? then WonBy(a.booking, a.helper) else Dispatched(a.booking, a.helper)
  }

  /** What a step writes: one row, and what the log says about it. */
  datatype Change = Change(id: int, row: Booking, noted: seq<Entry>)

  /** The status guard of a statement that rewrites a row, and what it writes; None when it matches no row. */
  function Rewrite(rows: Rows, e: Event): Option<Change> {
    match e
    case Cancel(id) =>
      if id in rows && !Terminal(rows[id]) then Some(Change(id, rows[id].(status := Cancelled), [])) else None
    case Complete(id) =>
      if id in rows && Underway(rows[id].status) then Some(Change(id, rows[id].(status := Completed), [])) else None
    case Transition(id, status) =>
      if id in rows && IsValidTransition(rows[id].status, status) then Some(Change(id, rows[id].(status := status), [])) else None
    case Release(id) =>
      if id in rows && rows[id].status.Accepted?
      then Some(Change(id, rows[id].(status := Pending, helper := None), [Released(id)])) else None
    case _ => None
  }

  /** The row a step writes, if it writes one. */
  function Written(s: State, e: Event): Option<Change> {
    match e
    case Commit(t) =>
      if t in s.attempts && s.attempts[t].phase.Claimed? && s.attempts[t].booking in s.rows then
        var a := s.attempts[t];
        Some(Change(a.booking, Assigned(s.rows[a.booking], a.helper), [TakenBy(a)]))
      else None
    case WriteMove(m, start) =>
      if m in s.checked && s.checked[m] in s.rows && !RowHeld(s, s.checked[m]) then
        var id := s.checked[m];
        Some(Change(id, MovedTo(s.rows[id], start), if s.rows[id].helper.Some? then [Released(id)] else []))
      else None
    case WriteSwap(w) =>
      if w in s.swaps && s.swaps[w].booking in s.rows then
        var x := s.swaps[w];
        Some(Change(x.booking, s.rows[x.booking].(helper := Some(x.helper)), [Reassigned(x.booking, x.helper)]))
      else None
    case _ =>
      var change := Rewrite(s.rows, e);
      if change.Some? && !RowHeld(s, change.value.id) then change else None
  }

  /** What a step does beside the rows; an event that is not enabled (a lock is held, say) does nothing. */
  function Control(maxActive: int, s: State, e: Event): State {
    match e
    case Begin(t, booking, helper) =>
      if t in s.attempts || t in s.done then s
      else s.(attempts := s.attempts[t := Attempt(booking, helper, Counting, Begun)])
    case Load(t, booking, helper, pad) =>
      if t in s.attempts || t in s.done || booking !in s.rows || s.rows[booking].scheduled.None? then s
      else
        var check := Probing(s.rows[booking].scheduled.value, Minutes(s.rows[booking]), pad);
        s.(attempts := s.attempts[t := Attempt(booking, helper, check, Begun)])
    case Lock(t) =>
      if t in s.attempts && s.attempts[t].phase.Begun? && s.attempts[t].helper !in s.locks
      then SetPhase(s, t, Locked).(locks := s.locks[s.attempts[t].helper := t]) else s
    case Examine(t) =>
      if t !in s.attempts || !s.attempts[t].phase.Locked? then s
      else
        var refusal := Refusal(maxActive, s.rows, s.attempts[t]);
        if refusal.Some? then Finish(s, t, refusal.value) else SetPhase(s, t, Passed)
    case Claim(t) =>
      if t !in s.attempts || !s.attempts[t].phase.Passed? || RowHeld(s, s.attempts[t].booking) then s
      else if Takeable(s.rows, s.attempts[t]) then SetPhase(s, t, Claimed)
      else Finish(s, t, AlreadyTaken)
    case Commit(t) => if t in s.attempts && Written(s, e).Some? then Finish(s, t, Won) else s
    case Abort(t) => if t in s.attempts then Finish(s, t, RolledBack) else s
    case CheckMove(m, id) =>
      if m !in s.checked && id in s.rows && !Terminal(s.rows[id]) && !s.rows[id].status.InProgress?
      then s.(checked := s.checked[m := id]) else s
    case WriteMove(m, _) => if Written(s, e).Some? then s.(checked := s.checked - {m}) else s
    case CheckSwap(w, id, helper) =>
      if w !in s.swaps && id in s.rows && !RowHeld(s, id) && Underway(s.rows[id].status)
         && s.rows[id].helper != Some(helper) && Active(s.rows, helper) == {}
      then s.(swaps := s.swaps[w := Swap(id, helper)]) else s
    case WriteSwap(w) => if Written(s, e).Some? then s.(swaps := s.swaps - {w}) else s
    case DropSwap(w) => s.(swaps := s.swaps - {w})
    case _ => s
  }

  function Write(s: State, change: Option<Change>): State {
    if change.None? then s
    else s.(rows := s.rows[change.value.id := change.value.row], log := s.log + change.value.noted)
  }

  function Step(maxActive: int, s: State, e: Event): State { Write(Control(maxActive, s, e), Written(s, e)) }

  function Run(maxActive: int, s: State, events: seq<Event>): State
    decreases |events|
  {
    if events == [] then s else Run(maxActive, Step(maxActive, s, events[0]), events[1..])
  }

  // ---- The log ----

  /** The last entry about a booking; -1 when there is none. */
  function Last(log: seq<Entry>, booking: int): (i: int)
    ensures -1 <= i < |log| && (i >= 0 ==> log[i].booking == booking)
    ensures forall k :: i < k < |log| ==> log[k].booking != booking
  {
    if log == [] then -1
    else if log[|log| - 1].booking == booking then |log| - 1
    else Last(log[..|log| - 1], booking)
  }

  predicate Takes(e: Entry) { e.WonBy? || e.Dispatched? }

  /** Between any two times a booking is taken, it is released. */
  ghost predicate Alternates(log: seq<Entry>) {
    forall i, j :: 0 <= i < j < |log| && Takes(log[i]) && Takes(log[j]) && log[i].booking == log[j].booking ==>
      exists k :: i < k < j && log[k] == Released(log[i].booking)
  }

  /** Nobody has the booking, as far as the log knows. */
  predicate Free(log: seq<Entry>, booking: int) {
    var i := Last(log, booking);
    i < 0 || log[i].Released?
  }

  lemma LastSnoc(log: seq<Entry>, e: Entry, booking: int)
    ensures Last(log + [e], booking) == if booking == e.booking then |log| else Last(log, booking)
  {
    assert (log + [e])[..|log|] == log;
  }

  lemma AppendAlternates(log: seq<Entry>, e: Entry)
    requires Alternates(log) && (Takes(e) ==> Free(log, e.booking))
    ensures Alternates(log + [e])
  {
    var more := log + [e];
    forall i, j | 0 <= i < j < |more| && Takes(more[i]) && Takes(more[j]) && more[i].booking == more[j].booking
      ensures exists k :: i < k < j && more[k] == Released(more[i].booking)
    {
      if j < |log| {
        assert more[i] == log[i] && more[j] == log[j];
        var k :| i < k < j && log[k] == Released(log[i].booking);
        assert more[k] == log[k];
      } else {
        var k := Last(log, e.booking);
        assert more[i] == log[i] && log[k].Released? && more[k] == log[k];
      }
    }
  }

  /** How many bookings a helper was given without a count. */
  function Grants(log: seq<Entry>, helper: string): nat {
    if log == [] then 0
    else
      var e := log[|log| - 1];
      Grants(log[..|log| - 1], helper) + if (e.Dispatched? || e.Reassigned?) && e.helper == helper then 1 else 0
  }

  // ---- Invariant ----

  ghost predicate LocksExclusive(s: State) {
    forall t :: t in s.attempts && !s.attempts[t].phase.Begun? ==>
      s.attempts[t].helper in s.locks && s.locks[s.attempts[t].helper] == t
  }

  ghost predicate ClaimsOpen(s: State) {
    forall t :: t in s.attempts && s.attempts[t].phase.Claimed? ==> Claimable(s.rows, s.attempts[t].booking)
  }

  ghost predicate ClaimsApart(s: State) {
    forall t, u :: (t in s.attempts && u in s.attempts && s.attempts[t].phase.Claimed? && s.attempts[u].phase.Claimed?
                    && s.attempts[t].booking == s.attempts[u].booking) ==> t == u
  }

  /** A row being reassigned is under way, with another helper. */
  predicate Swappable(rows: Rows, x: Swap) {
    x.booking in rows && Underway(rows[x.booking].status) && rows[x.booking].helper != Some(x.helper)
  }

  ghost predicate SwapsOpen(s: State) { forall w :: w in s.swaps ==> Swappable(s.rows, s.swaps[w]) }

  ghost predicate SwapsApart(s: State) {
    forall w, v :: w in s.swaps && v in s.swaps && s.swaps[w].booking == s.swaps[v].booking ==> w == v
  }

  ghost predicate HoldersExclusive(s: State) { ClaimsOpen(s) && ClaimsApart(s) && SwapsOpen(s) && SwapsApart(s) }

  ghost predicate Unassigned(rows: Rows) {
    forall id :: Claimable(rows, id) ==> rows[id].helper.None?
  }

  /** A booking that is up for claiming is free in the log, and one that is not belongs to whom the log says. */
  ghost predicate LogStands(rows: Rows, log: seq<Entry>) {
    forall b :: Entitled(rows, log, b)
  }

  predicate Entitled(rows: Rows, log: seq<Entry>, b: int) {
    Free(log, b) || (b in rows && !Claimable(rows, b) && rows[b].helper == Some(log[Last(log, b)].helper))
  }

  /** Past its check: the helper's lock is held, and the row may be. */
  predicate Late(a: Attempt) { a.phase.Passed? || a.phase.Claimed? }

  ghost predicate Roomy(maxActive: int, s: State) {
    forall t :: t in s.attempts && s.attempts[t].check.Counting? && Late(s.attempts[t]) ==>
      |Active(s.rows, s.attempts[t].helper)| < maxActive + Grants(s.log, s.attempts[t].helper)
  }

  function Ceiling(maxActive: int): nat { if maxActive > 0 then maxActive else 0 }

  /** No helper holds more than the maximum and what was given to them without a count. */
  ghost predicate HelperBound(maxActive: int, rows: Rows, log: seq<Entry>) {
    forall helper :: |Active(rows, helper)| <= Ceiling(maxActive) + Grants(log, helper)
  }

  ghost predicate Sound(s: State) {
    LocksExclusive(s) && HoldersExclusive(s) && Unassigned(s.rows) && Alternates(s.log) && LogStands(s.rows, s.log)
  }

  ghost predicate Inv(maxActive: int, s: State) {
    Sound(s) && Roomy(maxActive, s) && HelperBound(maxActive, s.rows, s.log)
  }

  // ---- What a step writes ----

  /** Does the change give the booking to somebody? */
  predicate Hands(c: Change) { c.noted != [] && !c.noted[0].Released? }

  /** A change hands its booking to a helper who did not have it, or takes nothing from anybody but the row's own helper. */
  ghost predicate Fair(rows: Rows, c: Change) {
    && c.id in rows && |c.noted| <= 1
    && (c.noted != [] ==> c.noted[0].booking == c.id && (Takes(c.noted[0]) ==> Claimable(rows, c.id)))
    && (Claimable(rows[c.id := c.row], c.id) ==> c.row.helper.None? && (c.noted == [] ==> Claimable(rows, c.id)))
    && (if Hands(c) then Given(rows[c.id], c) else Kept(rows[c.id], c.row) && (c.noted == [] ==> c.row.helper == rows[c.id].helper))
  }

  predicate Given(was: Booking, c: Change)
    requires Hands(c)
  {
    && c.row.helper == Some(c.noted[0].helper) && Underway(c.row.status)
    && was.helper != c.row.helper && c.row.scheduled == was.scheduled && c.row.duration == was.duration
  }

  /** Whoever is busy with the row after the change was so before, in the same window. */
  ghost predicate Kept(was: Booking, row: Booking) {
    && (forall helper :: IsActive(row, helper) ==> IsActive(was, helper))
    && (forall helper :: Busy(row, helper) ==> Busy(was, helper) && row.scheduled == was.scheduled && row.duration == was.duration)
  }

  lemma WrittenIsFair(s: State, e: Event)
    requires HoldersExclusive(s) && Unassigned(s.rows) && Written(s, e).Some?
    ensures Fair(s.rows, Written(s, e).value)
  {
  }

  lemma StepWrites(maxActive: int, s: State, e: Event)
    ensures var s' := Step(maxActive, s, e);
      match Written(s, e)
      case None => s'.rows == s.rows && s'.log == s.log
      case Some(c) => s'.rows == s.rows[c.id := c.row] && s'.log == s.log + c.noted
  {
  }

  // ---- Locks ----

  /** An attempt goes on as it was or reaches its next phase; only the very step that claims finds the row free. */
  lemma AttemptBefore(maxActive: int, s: State, e: Event, t: int)
    requires t in Control(maxActive, s, e).attempts && t in s.attempts
    ensures var a, a' := s.attempts[t], Control(maxActive, s, e).attempts[t];
      || a' == a
      || (e == Lock(t) && a.phase.Begun? && a' == a.(phase := Locked))
      || (e == Examine(t) && a.phase.Locked? && Refusal(maxActive, s.rows, a).None? && a' == a.(phase := Passed))
      || (e == Claim(t) && a.phase.Passed? && !RowHeld(s, a.booking) && Takeable(s.rows, a) && a' == a.(phase := Claimed))
  {
  }

  lemma AttemptNew(maxActive: int, s: State, e: Event, t: int)
    requires t in Control(maxActive, s, e).attempts && t !in s.attempts
    ensures (e.Begin? || e.Load?) && e.t == t && Control(maxActive, s, e).attempts[t].phase.Begun?
  {
  }

  /** A lock is taken once it is free, and given back by the attempt that holds it. */
  lemma LockStays(maxActive: int, s: State, e: Event, t: int)
    requires LocksExclusive(s) && t in s.attempts && t in Control(maxActive, s, e).attempts && !s.attempts[t].phase.Begun?
    ensures var c, h := Control(maxActive, s, e), s.attempts[t].helper; h in c.locks && c.locks[h] == t
  {
  }

  lemma LocksKept(maxActive: int, s: State, e: Event)
    requires LocksExclusive(s)
    ensures LocksExclusive(Step(maxActive, s, e))
  {
    var c := Control(maxActive, s, e);
    forall t | t in c.attempts && !c.attempts[t].phase.Begun?
      ensures c.attempts[t].helper in c.locks && c.locks[c.attempts[t].helper] == t
    {
      if t !in s.attempts {
        AttemptNew(maxActive, s, e, t);
      } else {
        AttemptBefore(maxActive, s, e, t);
        if !s.attempts[t].phase.Begun? {
          LockStays(maxActive, s, e, t);
        }
      }
    }
  }

  /** A claimed row is written by its claim's commit only. */
  lemma ClaimedWrite(maxActive: int, s: State, e: Event, t: int)
    requires HoldersExclusive(s) && t in s.attempts && s.attempts[t].phase.Claimed?
    requires Written(s, e).Some? && Written(s, e).value.id == s.attempts[t].booking
    ensures e == Commit(t) && t !in Control(maxActive, s, e).attempts
  {
    assert RowHeld(s, s.attempts[t].booking);
  }

  /** A row being reassigned is written by that reassignment only. */
  lemma SwappedWrite(maxActive: int, s: State, e: Event, w: int)
    requires HoldersExclusive(s) && w in s.swaps
    requires Written(s, e).Some? && Written(s, e).value.id == s.swaps[w].booking
    ensures e == WriteSwap(w) && w !in Control(maxActive, s, e).swaps
  {
    assert RowHeld(s, s.swaps[w].booking);
  }

  lemma ClaimsKept(maxActive: int, s: State, e: Event)
    requires HoldersExclusive(s)
    ensures ClaimsOpen(Step(maxActive, s, e)) && ClaimsApart(Step(maxActive, s, e))
  {
    StepWrites(maxActive, s, e);
    forall t | t in Step(maxActive, s, e).attempts && Step(maxActive, s, e).attempts[t].phase.Claimed?
      ensures Claimable(Step(maxActive, s, e).rows, Step(maxActive, s, e).attempts[t].booking)
    {
      if Written(s, e).Some? && Written(s, e).value.id == s.attempts[t].booking && s.attempts[t].phase.Claimed? {
        ClaimedWrite(maxActive, s, e, t);
      }
    }
    forall t, u | t in Step(maxActive, s, e).attempts && Step(maxActive, s, e).attempts[t].phase.Claimed?
        && u in Step(maxActive, s, e).attempts && Step(maxActive, s, e).attempts[u].phase.Claimed?
        && Step(maxActive, s, e).attempts[t].booking == Step(maxActive, s, e).attempts[u].booking
      ensures t == u
    {
    }
  }

  /** A reassignment goes on as it was, or has just found its row free. */
  lemma SwapBefore(maxActive: int, s: State, e: Event, w: int)
    requires w in Control(maxActive, s, e).swaps
    ensures var x := Control(maxActive, s, e).swaps[w];
      || (w in s.swaps && x == s.swaps[w])
      || (e == CheckSwap(w, x.booking, x.helper) && !RowHeld(s, x.booking) && Swappable(s.rows, x))
  {
  }

  lemma SwapsKept(maxActive: int, s: State, e: Event)
    requires HoldersExclusive(s)
    ensures SwapsOpen(Step(maxActive, s, e)) && SwapsApart(Step(maxActive, s, e))
  {
    var s' := Step(maxActive, s, e);
    StepWrites(maxActive, s, e);
    forall w | w in s'.swaps ensures Swappable(s'.rows, s'.swaps[w]) {
      SwapBefore(maxActive, s, e, w);
      if w in s.swaps && Written(s, e).Some? && Written(s, e).value.id == s.swaps[w].booking {
        SwappedWrite(maxActive, s, e, w);
      }
    }
    forall w, v | w in s'.swaps && v in s'.swaps && s'.swaps[w].booking == s'.swaps[v].booking ensures w == v {
      SwapBefore(maxActive, s, e, w);
      SwapBefore(maxActive, s, e, v);
    }
  }

  // ---- The log stands ----

  /** One row rewritten and at most one entry about it. */
  lemma LogKept(rows: Rows, log: seq<Entry>, c: Change)
    requires Alternates(log) && LogStands(rows, log) && Fair(rows, c)
    ensures Alternates(log + c.noted) && LogStands(rows[c.id := c.row], log + c.noted)
  {
    var after := rows[c.id := c.row];
    assert Entitled(rows, log, c.id);
    if c.noted == [] {
      assert log + c.noted == log;
    } else {
      assert c.noted == [c.noted[0]];
      AppendAlternates(log, c.noted[0]);
    }
    forall b ensures Entitled(after, log + c.noted, b) {
      assert Entitled(rows, log, b);
      if c.noted != [] {
        LastSnoc(log, c.noted[0], b);
      }
    }
  }

  lemma StepKeepsSound(maxActive: int, s: State, e: Event)
    requires Sound(s)
    ensures Sound(Step(maxActive, s, e))
  {
    LocksKept(maxActive, s, e);
    ClaimsKept(maxActive, s, e);
    SwapsKept(maxActive, s, e);
    StepWrites(maxActive, s, e);
    if Written(s, e).Some? {
      WrittenIsFair(s, e);
      LogKept(s.rows, s.log, Written(s, e).value);
    }
  }

  // ---- The bound ----

  lemma GrantsNext(log: seq<Entry>, e: Entry, helper: string)
    ensures Grants(log + [e], helper) == Grants(log, helper) + if (e.Dispatched? || e.Reassigned?) && e.helper == helper then 1 else 0
  {
    assert (log + [e])[..|log|] == log;
  }

  /** A fair change gives at most the helper it hands the booking to one more, and that one exactly one more. */
  lemma ActiveAfter(rows: Rows, c: Change, helper: string)
    requires Fair(rows, c)
    ensures if Hands(c) && c.noted[0].helper == helper
      then |Active(rows[c.id := c.row], helper)| == |Active(rows, helper)| + 1
      else |Active(rows[c.id := c.row], helper)| <= |Active(rows, helper)|
  {
    var before, after := Active(rows, helper), Active(rows[c.id := c.row], helper);
    if Hands(c) && c.noted[0].helper == helper {
      assert after == before + {c.id};
    } else {
      SubsetCount(after, before);
    }
  }

  /** Only a counted win adds to what a helper holds beyond the grants. */
  lemma CountKept(rows: Rows, log: seq<Entry>, c: Change, helper: string)
    requires Fair(rows, c)
    ensures |Active(rows[c.id := c.row], helper)| - Grants(log + c.noted, helper)
         <= |Active(rows, helper)| - Grants(log, helper) + if Wins(c, helper) then 1 else 0
  {
    ActiveAfter(rows, c, helper);
    if c.noted == [] {
      assert log + c.noted == log;
    } else {
      assert c.noted == [c.noted[0]];
      GrantsNext(log, c.noted[0], helper);
    }
  }

  predicate Wins(c: Change, helper: string) { c.noted != [] && c.noted[0] == WonBy(c.id, helper) }

  /** A booking handed out under the lock goes to the helper of the attempt that ends. */
  lemma HandedUnderLock(maxActive: int, s: State, e: Event, u: int)
    requires LocksExclusive(s) && Written(s, e).Some? && Hands(Written(s, e).value) && !e.WriteSwap?
    requires u in Step(maxActive, s, e).attempts && u in s.attempts && !s.attempts[u].phase.Begun?
    ensures Written(s, e).value.noted[0].helper != s.attempts[u].helper
  {
  }

  /** An attempt past its check was so before, or is just being let through. */
  lemma LateBefore(maxActive: int, s: State, e: Event, u: int)
    requires u in Step(maxActive, s, e).attempts && Late(Step(maxActive, s, e).attempts[u])
    ensures u in s.attempts && s.attempts[u].(phase := Begun) == Step(maxActive, s, e).attempts[u].(phase := Begun)
    ensures Late(s.attempts[u]) || (e == Examine(u) && s.attempts[u].phase.Locked? && Refusal(maxActive, s.rows, s.attempts[u]).None?)
  {
    if u in s.attempts {
      AttemptBefore(maxActive, s, e, u);
    } else {
      AttemptNew(maxActive, s, e, u);
    }
  }

  lemma RoomKept(maxActive: int, s: State, e: Event)
    requires Sound(s) && Roomy(maxActive, s)
    ensures Roomy(maxActive, Step(maxActive, s, e))
  {
    var s' := Step(maxActive, s, e);
    StepWrites(maxActive, s, e);
    forall u | u in s'.attempts && s'.attempts[u].check.Counting? && Late(s'.attempts[u])
      ensures |Active(s'.rows, s'.attempts[u].helper)| < maxActive + Grants(s'.log, s'.attempts[u].helper)
    {
      LateBefore(maxActive, s, e, u);
      if Written(s, e).Some? {
        WrittenIsFair(s, e);
        CountKept(s.rows, s.log, Written(s, e).value, s.attempts[u].helper);
        if Wins(Written(s, e).value, s.attempts[u].helper) {
          HandedUnderLock(maxActive, s, e, u);
        }
      }
    }
  }

  /** A win was counted: the helper had room. */
  lemma WinHadRoom(maxActive: int, s: State, e: Event, helper: string)
    requires Roomy(maxActive, s) && Written(s, e).Some? && Wins(Written(s, e).value, helper)
    ensures |Active(s.rows, helper)| < maxActive + Grants(s.log, helper)
  {
  }

  lemma BoundKept(maxActive: int, s: State, e: Event)
    requires Sound(s) && Roomy(maxActive, s) && HelperBound(maxActive, s.rows, s.log)
    ensures HelperBound(maxActive, Step(maxActive, s, e).rows, Step(maxActive, s, e).log)
  {
    var s' := Step(maxActive, s, e);
    StepWrites(maxActive, s, e);
    if Written(s, e).Some? {
      WrittenIsFair(s, e);
      forall helper ensures |Active(s'.rows, helper)| <= Ceiling(maxActive) + Grants(s'.log, helper) {
        CountKept(s.rows, s.log, Written(s, e).value, helper);
        if Wins(Written(s, e).value, helper) {
          WinHadRoom(maxActive, s, e, helper);
        }
      }
    }
  }

  lemma StepKeepsInv(maxActive: int, s: State, e: Event)
    requires Inv(maxActive, s)
    ensures Inv(maxActive, Step(maxActive, s, e))
  {
    StepKeepsSound(maxActive, s, e);
    RoomKept(maxActive, s, e);
    BoundKept(maxActive, s, e);
  }

  /**
   Over every interleaving: a booking is taken twice only with a release in between, and no helper exceeds the
   maximum by more than the bookings they were given without a count.
   */
  lemma {:induction false} RunKeepsInv(maxActive: int, s: State, events: seq<Event>)
    requires Inv(maxActive, s)
    ensures Inv(maxActive, Run(maxActive, s, events))
    decreases |events|
  {
    if events != [] {
      StepKeepsInv(maxActive, s, events[0]);
      RunKeepsInv(maxActive, Step(maxActive, s, events[0]), events[1..]);
    }
  }

  // ---- Terminal rows, and what a losing attempt does ----

  /** A move whose status check is out of date, about to write an assigned row that has since been closed. */
  predicate Reopens(s: State, e: Event, id: int) {
    e.WriteMove? && e.m in s.checked && s.checked[e.m] == id && id in s.rows && Terminal(s.rows[id]) && s.rows[id].helper.Some?
  }

  lemma TerminalStepIff(maxActive: int, s: State, e: Event, id: int)
    requires HoldersExclusive(s) && id in s.rows && Terminal(s.rows[id])
    ensures var s' := Step(maxActive, s, e);
      id in s'.rows && (Terminal(s'.rows[id]) <==> !Reopens(s, e, id))
      && (!Reopens(s, e, id) ==> s'.rows[id].status == s.rows[id].status && s'.rows[id].helper == s.rows[id].helper)
  {
    StepWrites(maxActive, s, e);
    assert !RowHeld(s, id);
  }

  /** Some step of the run reopens the booking. */
  ghost predicate Reopened(maxActive: int, s: State, events: seq<Event>, id: int)
    decreases |events|
  {
    events != [] && (Reopens(s, events[0], id) || Reopened(maxActive, Step(maxActive, s, events[0]), events[1..], id))
  }

  /** The booking is terminal after every step of the run. */
  ghost predicate StaysTerminal(maxActive: int, s: State, events: seq<Event>, id: int)
    decreases |events|
  {
    id in s.rows && Terminal(s.rows[id]) && (events == [] || StaysTerminal(maxActive, Step(maxActive, s, events[0]), events[1..], id))
  }

  /** Cancelled and completed are left exactly by moves with an outdated check; otherwise status and helper stand for good. */
  lemma {:induction false} TerminalForeverIff(maxActive: int, s: State, events: seq<Event>, id: int)
    requires Inv(maxActive, s) && id in s.rows && Terminal(s.rows[id])
    ensures StaysTerminal(maxActive, s, events, id) <==> !Reopened(maxActive, s, events, id)
    ensures !Reopened(maxActive, s, events, id) ==>
      var end := Run(maxActive, s, events);
      id in end.rows && end.rows[id].status == s.rows[id].status && end.rows[id].helper == s.rows[id].helper
    decreases |events|
  {
    if events != [] {
      var s' := Step(maxActive, s, events[0]);
      StepKeepsInv(maxActive, s, events[0]);
      TerminalStepIff(maxActive, s, events[0], id);
      if Terminal(s'.rows[id]) {
        TerminalForeverIff(maxActive, s', events[1..], id);
      }
    }
  }

  lemma RunCons(maxActive: int, s: State, e: Event, rest: seq<Event>)
    ensures Run(maxActive, s, [e] + rest) == Run(maxActive, Step(maxActive, s, e), rest)
  {
    assert ([e] + rest)[1..] == rest;
  }

  /** It does happen: checked while accepted, cancelled, and then moved, a booking is pending again. */
  lemma MoveReopensCancelled(row: Booking, start: int)
    requires row.status.Accepted? && row.helper.Some?
    ensures var end := Run(1, Fresh(map[1 := row]), [CheckMove(0, 1)] + ([Cancel(1)] + ([WriteMove(0, start)] + [])));
      1 in end.rows && end.rows[1].status == Pending
  {
    var rows := map[1 := row];
    var s1 := Fresh(rows).(checked := map[0 := 1]);
    var s2 := s1.(rows := rows[1 := row.(status := Cancelled)]);
    CancelAfterCheck(row);
    RunCons(1, Fresh(rows), CheckMove(0, 1), [Cancel(1)] + ([WriteMove(0, start)] + []));
    RunCons(1, s1, Cancel(1), [WriteMove(0, start)] + []);
    RunCons(1, s2, WriteMove(0, start), []);
    StepWrites(1, s2, WriteMove(0, start));
  }

  lemma CancelAfterCheck(row: Booking)
    requires row.status.Accepted?
    ensures var rows := map[1 := row];
      var s1 := Fresh(rows).(checked := map[0 := 1]);
      && Step(1, Fresh(rows), CheckMove(0, 1)) == s1
      && Step(1, s1, Cancel(1)) == s1.(rows := rows[1 := row.(status := Cancelled)])
  {
    var s1 := Fresh(map[1 := row]).(checked := map[0 := 1]);
    assert s1.log + [] == s1.log && !RowHeld(s1, 1);
  }

  /** An event of attempt `t`. */
  predicate Of(e: Event, t: int) {
    match e
    case Begin(u, _, _) => u == t
    case Load(u, _, _, _) => u == t
    case Lock(u) => u == t
    case Examine(u) => u == t
    case Claim(u) => u == t
    case Commit(u) => u == t
    case Abort(u) => u == t
    case _ => false
  }

  lemma AttemptsOnce(maxActive: int, s: State, e: Event, t: int)
    requires t in s.done && t !in s.attempts
    ensures t !in Control(maxActive, s, e).attempts
  {
    if t in Control(maxActive, s, e).attempts {
      AttemptNew(maxActive, s, e, t);
    }
  }

  lemma OutcomeStays(maxActive: int, s: State, e: Event, t: int)
    requires t in s.done && t !in s.attempts
    ensures t in Control(maxActive, s, e).done && Control(maxActive, s, e).done[t] == s.done[t]
  {
  }

  lemma DoneStays(maxActive: int, s: State, e: Event, t: int)
    requires t in s.done && t !in s.attempts
    ensures var s' := Step(maxActive, s, e); t in s'.done && t !in s'.attempts && s'.done[t] == s.done[t]
  {
    AttemptsOnce(maxActive, s, e, t);
    OutcomeStays(maxActive, s, e, t);
  }

  lemma {:induction false} DoneForever(maxActive: int, s: State, events: seq<Event>, t: int)
    requires t in s.done && t !in s.attempts
    ensures t in Run(maxActive, s, events).done && t !in Run(maxActive, s, events).attempts
    ensures Run(maxActive, s, events).done[t] == s.done[t]
    decreases |events|
  {
    if events != [] {
      DoneStays(maxActive, s, events[0], t);
      DoneForever(maxActive, Step(maxActive, s, events[0]), events[1..], t);
    }
  }

  /** Only the commit of a winner writes a row. */
  lemma AttemptStep(maxActive: int, s: State, e: Event, t: int)
    requires Of(e, t) && Step(maxActive, s, e).rows != s.rows
    ensures var s' := Step(maxActive, s, e); t in s'.done && s'.done[t].Won? && t !in s'.attempts
  {
    StepWrites(maxActive, s, e);
    assert e == Commit(t) && Control(maxActive, s, e) == Finish(s, t, Won);
  }

  /** An attempt that does not end by winning leaves every row as each of its steps found it. */
  lemma {:induction false} LosersChangeNothing(maxActive: int, s: State, events: seq<Event>, t: int, i: nat)
    requires i < |events| && Of(events[i], t)
    requires t !in Run(maxActive, s, events).done || !Run(maxActive, s, events).done[t].Won?
    ensures Run(maxActive, s, events[..i + 1]).rows == Run(maxActive, s, events[..i]).rows
    decreases |events|
  {
    var next := Step(maxActive, s, events[0]);
    if i == 0 {
      assert events[..1][1..] == [];
      if next.rows != s.rows {
        AttemptStep(maxActive, s, events[0], t);
        DoneForever(maxActive, next, events[1..], t);
      }
      assert Run(maxActive, s, events[..1]) == next;
    } else {
      LosersChangeNothing(maxActive, next, events[1..], t, i - 1);
      assert events[..i + 1][1..] == events[1..][..i];
      assert events[..i][1..] == events[1..][..i - 1];
    }
  }

  lemma {:induction false} RunAppend(maxActive: int, s: State, first: seq<Event>, second: seq<Event>)
    ensures Run(maxActive, s, first + second) == Run(maxActive, Run(maxActive, s, first), second)
    decreases |first|
  {
    if first == [] {
      assert first + second == second;
    } else {
      assert (first + second)[1..] == first[1..] + second;
      RunAppend(maxActive, Step(maxActive, s, first[0]), first[1..], second);
    }
  }

  /** One whole attempt, run without interruption. */
  function Whole(first: Event, t: int): seq<Event> { [first] + Rest(t) }

  function Rest(t: int): seq<Event> { [Lock(t), Examine(t), Claim(t), Commit(t)] }

  /** A state with one more attempt, and its lock once it is past its first phase. */
  function Opened(s: State, t: int, a: Attempt): State {
    s.(attempts := s.attempts[t := a], locks := if a.phase.Begun? then s.locks else s.locks[a.helper := t])
  }

  /** Nobody stands in the way of attempt `t`. */
  ghost predicate Clear(s: State, t: int, a: Attempt) {
    t !in s.attempts && t !in s.done && a.helper !in s.locks && !RowHeld(s, a.booking) && a.phase.Begun?
  }

  lemma FinishOpened(s: State, t: int, a: Attempt, outcome: Outcome)
    requires t !in s.attempts && a.helper !in s.locks && !a.phase.Begun?
    ensures Finish(Opened(s, t, a), t, outcome) == s.(done := s.done[t := outcome])
  {
    assert s.attempts[t := a] - {t} == s.attempts && s.locks[a.helper := t] - {a.helper} == s.locks;
  }

  /** How an attempt ends alone. */
  function WholeEnd(maxActive: int, s: State, t: int, a: Attempt): State {
    var refusal := Refusal(maxActive, s.rows, a);
    if refusal.Some? then s.(done := s.done[t := refusal.value])
    else if !Takeable(s.rows, a) then s.(done := s.done[t := AlreadyTaken])
    else s.(rows := s.rows[a.booking := Assigned(s.rows[a.booking], a.helper)], done := s.done[t := Won], log := s.log + [TakenBy(a)])
  }

  lemma LockStep(maxActive: int, s: State, t: int, a: Attempt)
    requires Clear(s, t, a)
    ensures Step(maxActive, Opened(s, t, a), Lock(t)) == Opened(s, t, a.(phase := Locked))
  {
  }

  lemma ExamineStep(maxActive: int, s: State, t: int, a: Attempt)
    requires Clear(s, t, a)
    ensures Step(maxActive, Opened(s, t, a.(phase := Locked)), Examine(t)) ==
      if Refusal(maxActive, s.rows, a).Some? then s.(done := s.done[t := Refusal(maxActive, s.rows, a).value])
      else Opened(s, t, a.(phase := Passed))
  {
    var b := a.(phase := Locked);
    assert Refusal(maxActive, s.rows, b) == Refusal(maxActive, s.rows, a);
    if Refusal(maxActive, s.rows, a).Some? {
      FinishOpened(s, t, b, Refusal(maxActive, s.rows, a).value);
    }
  }

  lemma ClaimStep(maxActive: int, s: State, t: int, a: Attempt)
    requires Clear(s, t, a)
    ensures Step(maxActive, Opened(s, t, a.(phase := Passed)), Claim(t)) ==
      if Takeable(s.rows, a) then Opened(s, t, a.(phase := Claimed)) else s.(done := s.done[t := AlreadyTaken])
  {
    FinishOpened(s, t, a.(phase := Passed), AlreadyTaken);
    assert !RowHeld(Opened(s, t, a.(phase := Passed)), a.booking);
  }

  lemma CommitStep(maxActive: int, s: State, t: int, a: Attempt)
    requires Clear(s, t, a) && Takeable(s.rows, a) && Refusal(maxActive, s.rows, a).None?
    ensures Step(maxActive, Opened(s, t, a.(phase := Claimed)), Commit(t)) == WholeEnd(maxActive, s, t, a)
  {
    FinishOpened(s, t, a.(phase := Claimed), Won);
  }

  /** The steps of an attempt that is over do nothing. */
  lemma OverStays(maxActive: int, s: State, t: int)
    requires t !in s.attempts
    ensures Step(maxActive, s, Claim(t)) == s && Step(maxActive, s, Commit(t)) == s
  {
  }

  lemma RestEnds(maxActive: int, s: State, t: int, a: Attempt)
    requires Clear(s, t, a)
    ensures Run(maxActive, Opened(s, t, a), Rest(t)) == WholeEnd(maxActive, s, t, a)
  {
    assert Rest(t) == [Lock(t)] + ([Examine(t)] + ([Claim(t)] + ([Commit(t)] + [])));
    var s1 := Opened(s, t, a.(phase := Locked));
    var s2 := Step(maxActive, s1, Examine(t));
    var s3 := Step(maxActive, s2, Claim(t));
    LockStep(maxActive, s, t, a);
    ExamineStep(maxActive, s, t, a);
    if Refusal(maxActive, s.rows, a).Some? {
      OverStays(maxActive, s2, t);
    } else {
      ClaimStep(maxActive, s, t, a);
      if Takeable(s.rows, a) {
        CommitStep(maxActive, s, t, a);
      } else {
        OverStays(maxActive, s3, t);
      }
    }
    RunCons(maxActive, Opened(s, t, a), Lock(t), [Examine(t)] + ([Claim(t)] + ([Commit(t)] + [])));
    RunCons(maxActive, s1, Examine(t), [Claim(t)] + ([Commit(t)] + []));
    RunCons(maxActive, s2, Claim(t), [Commit(t)] + []);
    RunCons(maxActive, s3, Commit(t), []);
  }

  /** A whole accept. */
  lemma AcceptEnds(maxActive: int, s: State, t: int, booking: int, helper: string)
    requires Clear(s, t, Attempt(booking, helper, Counting, Begun))
    ensures Run(maxActive, s, Whole(Begin(t, booking, helper), t)) == WholeEnd(maxActive, s, t, Attempt(booking, helper, Counting, Begun))
  {
    RunCons(maxActive, s, Begin(t, booking, helper), Rest(t));
    RestEnds(maxActive, s, t, Attempt(booking, helper, Counting, Begun));
  }

  /** The dispatcher's attempt on a booking, with the booking's own window. */
  function Dispatching(rows: Rows, booking: int, helper: string, pad: nat): Attempt
    requires booking in rows && rows[booking].scheduled.Some?
  {
    Attempt(booking, helper, Probing(rows[booking].scheduled.value, Minutes(rows[booking]), pad), Begun)
  }

  /** A whole assignment by the dispatcher. */
  lemma DispatchEnds(maxActive: int, s: State, t: int, booking: int, helper: string, pad: nat)
    requires booking in s.rows && s.rows[booking].scheduled.Some? && Clear(s, t, Dispatching(s.rows, booking, helper, pad))
    ensures Run(maxActive, s, Whole(Load(t, booking, helper, pad), t)) ==
      WholeEnd(maxActive, s, t, Dispatching(s.rows, booking, helper, pad))
  {
    RunCons(maxActive, s, Load(t, booking, helper, pad), Rest(t));
    RestEnds(maxActive, s, t, Dispatching(s.rows, booking, helper, pad));
  }

  /** Alone, an accept wins exactly when the helper is below the maximum and the row is unclaimed. */
  lemma WholeOutcome(maxActive: int, rows: Rows, t: int, booking: int, helper: string)
    ensures var end := Run(maxActive, Fresh(rows), Whole(Begin(t, booking, helper), t));
      && end.attempts == map[] && end.locks == map[]
      && t in end.done
      && (if |Active(rows, helper)| >= maxActive then end.done[t].AtMaxActive? && end.rows == rows
          else if !Claimable(rows, booking) then end.done[t].AlreadyTaken? && end.rows == rows
          else end.done[t].Won? && end.rows == rows[booking := Assigned(rows[booking], helper)])
  {
    AcceptEnds(maxActive, Fresh(rows), t, booking, helper);
  }

  /** Alone, the dispatcher wins exactly when the helper is free of the padded window and the row is pending and unassigned. */
  lemma DispatchOutcome(maxActive: int, rows: Rows, t: int, booking: int, helper: string, pad: nat)
    requires booking in rows && rows[booking].scheduled.Some?
    ensures var end := Run(maxActive, Fresh(rows), Whole(Load(t, booking, helper, pad), t));
      && end.attempts == map[] && end.locks == map[]
      && t in end.done
      && (if Clash(rows, helper, booking, rows[booking].scheduled.value, Minutes(rows[booking]), pad)
          then end.done[t].ProBusy? && end.rows == rows
          else if !rows[booking].status.Pending? || rows[booking].helper.Some? then end.done[t].AlreadyTaken? && end.rows == rows
          else end.done[t].Won? && end.rows == rows[booking := Assigned(rows[booking], helper)])
  {
    DispatchEnds(maxActive, Fresh(rows), t, booking, helper, pad);
  }
}
