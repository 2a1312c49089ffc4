/**
 What the two checks are for. An accept counts, so that no helper holds more than the maximum; the dispatcher probes, so
 that no helper is booked twice at a time. Neither makes the other's check, and a reassignment makes neither: each
 promise holds over a run exactly when no step hands a booking to a helper whom its own check would have turned away.
 */
module Handouts {
  import opened Common
  import opened Bookings
  import opened Accepting

  /** Whom a step hands a booking to. */
  function HandsTo(s: State, e: Event): Option<string> {
    var c := Written(s, e);
    if c.Some? && Hands(c.value) then Some(c.value.noted[0].helper) else None
  }

  /** The commit of an assignment by the dispatcher. */
  predicate Dispatches(s: State, e: Event) { e.Commit? && e.t in s.attempts && s.attempts[e.t].check.Probing? }

  /** The commit of an accept. */
  predicate Accepts(s: State, e: Event) { e.Commit? && e.t in s.attempts && s.attempts[e.t].check.Counting? }

  // ---- The maximum ----

  ghost predicate Within(maxActive: int, rows: Rows) { forall helper :: |Active(rows, helper)| <= Ceiling(maxActive) }

  /** A step about to hand a booking to a helper who holds the maximum already. */
  predicate Overfills(maxActive: int, s: State, e: Event) {
    HandsTo(s, e).Some? && |Active(s.rows, HandsTo(s, e).value)| >= Ceiling(maxActive)
  }

  ghost predicate Overfilled(maxActive: int, s: State, events: seq<Event>)
    decreases |events|
  {
    events != [] && (Overfills(maxActive, s, events[0]) || Overfilled(maxActive, Step(maxActive, s, events[0]), events[1..]))
  }

  /** Nobody exceeds the maximum at any time of the run. */
  ghost predicate StaysWithin(maxActive: int, s: State, events: seq<Event>)
    decreases |events|
  {
    Within(maxActive, s.rows) && (events == [] || StaysWithin(maxActive, Step(maxActive, s, events[0]), events[1..]))
  }

  lemma StepWithinIff(maxActive: int, s: State, e: Event)
    requires Sound(s) && Within(maxActive, s.rows)
    ensures Within(maxActive, Step(maxActive, s, e).rows) <==> !Overfills(maxActive, s, e)
  {
    var s' := Step(maxActive, s, e);
    StepWrites(maxActive, s, e);
    if Written(s, e).Some? {
      var c := Written(s, e).value;
      WrittenIsFair(s, e);
      forall helper
        ensures if HandsTo(s, e) == Some(helper) then |Active(s'.rows, helper)| == |Active(s.rows, helper)| + 1
                else |Active(s'.rows, helper)| <= |Active(s.rows, helper)|
      {
        ActiveAfter(s.rows, c, helper);
      }
    }
  }

  /** Over every run, nobody ever exceeds the maximum exactly when no step hands a booking to a helper who holds it already. */
  lemma {:induction false} MaximumHoldsIff(maxActive: int, s: State, events: seq<Event>)
    requires Sound(s) && Within(maxActive, s.rows)
    ensures StaysWithin(maxActive, s, events) <==> !Overfilled(maxActive, s, events)
    decreases |events|
  {
    if events != [] {
      var s' := Step(maxActive, s, events[0]);
      StepKeepsSound(maxActive, s, events[0]);
      StepWithinIff(maxActive, s, events[0]);
      if Within(maxActive, s'.rows) {
        MaximumHoldsIff(maxActive, s', events[1..]);
      }
    }
  }

  /** Every accept past its count still has room. */
  ghost predicate Counted(maxActive: int, s: State) {
    forall t :: t in s.attempts && s.attempts[t].check.Counting? && Late(s.attempts[t]) ==>
      |Active(s.rows, s.attempts[t].helper)| < maxActive
  }

  /** The lock keeps the count true: only a reassignment, which does not take it, can make it untrue. */
  lemma CountedKept(maxActive: int, s: State, e: Event)
    requires Sound(s) && Counted(maxActive, s) && !e.WriteSwap?
    ensures Counted(maxActive, Step(maxActive, s, e))
  {
    var s' := Step(maxActive, s, e);
    StepWrites(maxActive, s, e);
    forall u | u in s'.attempts && s'.attempts[u].check.Counting? && Late(s'.attempts[u])
      ensures |Active(s'.rows, s'.attempts[u].helper)| < maxActive
    {
      LateBefore(maxActive, s, e, u);
      if Written(s, e).Some? {
        WrittenIsFair(s, e);
        ActiveAfter(s.rows, Written(s, e).value, s.attempts[u].helper);
        if Hands(Written(s, e).value) {
          HandedUnderLock(maxActive, s, e, u);
        }
      }
    }
  }

  /** Some assignment by the dispatcher overfills. */
  ghost predicate DispatchOverfilled(maxActive: int, s: State, events: seq<Event>)
    decreases |events|
  {
    events != [] && ((Dispatches(s, events[0]) && Overfills(maxActive, s, events[0]))
                     || DispatchOverfilled(maxActive, Step(maxActive, s, events[0]), events[1..]))
  }

  ghost predicate NoSwaps(events: seq<Event>) { forall e :: e in events ==> !e.WriteSwap? }

  /** Without reassignments accepts never overfill: the maximum is exceeded exactly when the dispatcher does it. */
  lemma {:induction false} OnlyDispatchOverfills(maxActive: int, s: State, events: seq<Event>)
    requires Sound(s) && Within(maxActive, s.rows) && Counted(maxActive, s) && NoSwaps(events)
    ensures StaysWithin(maxActive, s, events) <==> !DispatchOverfilled(maxActive, s, events)
    decreases |events|
  {
    if events != [] {
      var e := events[0];
      var s' := Step(maxActive, s, e);
      assert e in events && forall f :: f in events[1..] ==> f in events;
      StepKeepsSound(maxActive, s, e);
      StepWithinIff(maxActive, s, e);
      CountedKept(maxActive, s, e);
      if Within(maxActive, s'.rows) {
        OnlyDispatchOverfills(maxActive, s', events[1..]);
      }
    }
  }

  /** Only accepts hand out bookings. */
  ghost predicate CountedOnly(events: seq<Event>) { forall e :: e in events ==> !e.Load? && !e.WriteSwap? }

  ghost predicate NoProbes(s: State) { forall t :: t in s.attempts ==> s.attempts[t].check.Counting? }

  lemma ProbesKept(maxActive: int, s: State, e: Event)
    requires NoProbes(s) && !e.Load?
    ensures NoProbes(Step(maxActive, s, e))
  {
    forall t | t in Step(maxActive, s, e).attempts ensures Step(maxActive, s, e).attempts[t].check.Counting? {
      if t in s.attempts {
        AttemptBefore(maxActive, s, e, t);
      } else {
        AttemptNew(maxActive, s, e, t);
      }
    }
  }

  lemma {:induction false} NoDispatch(maxActive: int, s: State, events: seq<Event>)
    requires NoProbes(s) && CountedOnly(events)
    ensures !DispatchOverfilled(maxActive, s, events)
    decreases |events|
  {
    if events != [] {
      assert events[0] in events && forall f :: f in events[1..] ==> f in events;
      ProbesKept(maxActive, s, events[0]);
      NoDispatch(maxActive, Step(maxActive, s, events[0]), events[1..]);
    }
  }

  /** While bookings are handed out by accepts only, releases and moves included, nobody ever exceeds the maximum. */
  lemma AcceptsKeepTheMaximum(maxActive: int, rows: Rows, events: seq<Event>)
    requires Unassigned(rows) && Within(maxActive, rows) && CountedOnly(events)
    ensures StaysWithin(maxActive, Fresh(rows), events)
  {
    OnlyDispatchOverfills(maxActive, Fresh(rows), events);
    NoDispatch(maxActive, Fresh(rows), events);
  }

  // ---- One booking at a time ----

  /** The booking's padded window overlaps that of no other booking its helper is busy with. */
  predicate Alone(rows: Rows, id: int, pad: nat)
    requires id in rows
  {
    var b := rows[id];
    b.helper.Some? && Busy(b, b.helper.value) && b.scheduled.Some? ==>
      !Clash(rows, b.helper.value, id, b.scheduled.value, Minutes(b), pad)
  }

  /** No helper is booked twice at a time. */
  ghost predicate Apart(rows: Rows, pad: nat) { forall id :: id in rows ==> Alone(rows, id, pad) }

  /** No helper is wanted by two bookings at any minute. */
  ghost predicate OneAtATime(rows: Rows, pad: nat) {
    forall a, b, helper, t :: a in rows && b in rows && a != b && BusyAt(rows[a], helper, t, pad) ==> !BusyAt(rows[b], helper, t, pad)
  }

  lemma ApartIff(rows: Rows, pad: nat)
    ensures Apart(rows, pad) <==> OneAtATime(rows, pad)
  {
    if Apart(rows, pad) {
      forall a, b, helper, t | a in rows && b in rows && a != b && BusyAt(rows[a], helper, t, pad) ensures !BusyAt(rows[b], helper, t, pad) {
        assert Alone(rows, a, pad);
        ClashIff(rows, helper, a, rows[a].scheduled.value, Minutes(rows[a]), pad);
      }
    } else {
      var a :| a in rows && !Alone(rows, a, pad);
      var helper := rows[a].helper.value;
      ClashIff(rows, helper, a, rows[a].scheduled.value, Minutes(rows[a]), pad);
      var b, t :| b in rows && b != a && BusyAt(rows[b], helper, t, pad)
        && During(t, rows[a].scheduled.value, rows[a].scheduled.value + Minutes(rows[a]) + pad);
      assert BusyAt(rows[a], helper, t, pad);
    }
  }

  /** A step about to hand a booking to a helper who is busy in its window as the table has it now. */
  predicate Doubles(s: State, e: Event, pad: nat) {
    HandsTo(s, e).Some? &&
    var id := Written(s, e).value.id;
    id in s.rows && s.rows[id].scheduled.Some? &&
    Clash(s.rows, HandsTo(s, e).value, id, s.rows[id].scheduled.value, Minutes(s.rows[id]), pad)
  }

  ghost predicate Doubled(maxActive: int, s: State, events: seq<Event>, pad: nat)
    decreases |events|
  {
    events != [] && (Doubles(s, events[0], pad) || Doubled(maxActive, Step(maxActive, s, events[0]), events[1..], pad))
  }

  ghost predicate StaysApart(maxActive: int, s: State, events: seq<Event>, pad: nat)
    decreases |events|
  {
    Apart(s.rows, pad) && (events == [] || StaysApart(maxActive, Step(maxActive, s, events[0]), events[1..], pad))
  }

  /** The clash is mutual. */
  lemma ClashIsMutual(a: Booking, b: Booking, helper: string, pad: nat)
    requires Busy(a, helper) && Busy(b, helper) && a.scheduled.Some? && b.scheduled.Some?
    ensures ClashesWith(a, helper, b.scheduled.value, Minutes(b), pad) <==> ClashesWith(b, helper, a.scheduled.value, Minutes(a), pad)
  {
  }

  /** A change that hands nothing out brings nobody new into the way of a window. */
  lemma KeptClash(rows: Rows, c: Change, helper: string, id: int, start: int, duration: nat, pad: nat)
    requires Fair(rows, c) && (!Hands(c) || c.noted[0].helper != helper)
    ensures Clash(rows[c.id := c.row], helper, id, start, duration, pad) ==> Clash(rows, helper, id, start, duration, pad)
  {
    var after := rows[c.id := c.row];
    if Clash(after, helper, id, start, duration, pad) {
      var other :| other in after && other != id && ClashesWith(after[other], helper, start, duration, pad);
      assert ClashesWith(rows[other], helper, start, duration, pad);
    }
  }

  lemma KeepsApart(rows: Rows, c: Change, pad: nat)
    requires Fair(rows, c) && !Hands(c) && Apart(rows, pad)
    ensures Apart(rows[c.id := c.row], pad)
  {
    var after := rows[c.id := c.row];
    forall id | id in after ensures Alone(after, id, pad) {
      assert Alone(rows, id, pad);
      var b := after[id];
      if b.helper.Some? && Busy(b, b.helper.value) && b.scheduled.Some? {
        KeptClash(rows, c, b.helper.value, id, b.scheduled.value, Minutes(b), pad);
      }
    }
  }

  /** Handing out a booking leaves every window alone exactly when the new helper is free in its own. */
  lemma HandsApartIff(rows: Rows, c: Change, pad: nat)
    requires Fair(rows, c) && Hands(c) && Apart(rows, pad)
    ensures Apart(rows[c.id := c.row], pad) <==>
      !(rows[c.id].scheduled.Some? && Clash(rows, c.noted[0].helper, c.id, rows[c.id].scheduled.value, Minutes(rows[c.id]), pad))
  {
    var after := rows[c.id := c.row];
    var h := c.noted[0].helper;
    var b := rows[c.id];
    if b.scheduled.Some? && Clash(rows, h, c.id, b.scheduled.value, Minutes(b), pad) {
      var other :| other in rows && other != c.id && ClashesWith(rows[other], h, b.scheduled.value, Minutes(b), pad);
      assert ClashesWith(after[other], h, b.scheduled.value, Minutes(b), pad);
      assert !Alone(after, c.id, pad);
    } else {
      forall id | id in after ensures Alone(after, id, pad) {
        assert Alone(rows, id, pad);
        HandsAlone(rows, c, id, pad);
      }
    }
  }

  /** A row is never in its own way. */
  lemma OwnRowApart(rows: Rows, id: int, row: Booking, helper: string, start: int, duration: nat, pad: nat)
    requires Clash(rows[id := row], helper, id, start, duration, pad)
    ensures Clash(rows, helper, id, start, duration, pad)
  {
    var other :| other in rows[id := row] && other != id && ClashesWith(rows[id := row][other], helper, start, duration, pad);
    assert ClashesWith(rows[other], helper, start, duration, pad);
  }

  /** Who is in the way of another booking afterwards was so before, or is the booking handed out. */
  lemma OtherRowClash(rows: Rows, c: Change, id: int, pad: nat)
    requires Fair(rows, c) && Hands(c) && id in rows && id != c.id
    requires rows[id].scheduled.Some? && Busy(rows[id], c.noted[0].helper)
    requires var b := rows[id]; Clash(rows[c.id := c.row], c.noted[0].helper, id, b.scheduled.value, Minutes(b), pad)
    ensures var b, h := rows[id], c.noted[0].helper;
      || Clash(rows, h, id, b.scheduled.value, Minutes(b), pad)
      || (rows[c.id].scheduled.Some? && Clash(rows, h, c.id, rows[c.id].scheduled.value, Minutes(rows[c.id]), pad))
  {
    var after := rows[c.id := c.row];
    var b, h := rows[id], c.noted[0].helper;
    var other :| other in after && other != id && ClashesWith(after[other], h, b.scheduled.value, Minutes(b), pad);
    if other == c.id {
      ClashIsMutual(c.row, b, h, pad);
    } else {
      assert ClashesWith(rows[other], h, b.scheduled.value, Minutes(b), pad);
    }
  }

  lemma HandsAlone(rows: Rows, c: Change, id: int, pad: nat)
    requires Fair(rows, c) && Hands(c) && id in rows && Alone(rows, id, pad)
    requires rows[c.id].scheduled.Some? ==>
      !Clash(rows, c.noted[0].helper, c.id, rows[c.id].scheduled.value, Minutes(rows[c.id]), pad)
    ensures Alone(rows[c.id := c.row], id, pad)
  {
    var after := rows[c.id := c.row];
    var b := after[id];
    if b.helper.Some? && Busy(b, b.helper.value) && b.scheduled.Some?
       && Clash(after, b.helper.value, id, b.scheduled.value, Minutes(b), pad) {
      if id == c.id {
        OwnRowApart(rows, id, b, b.helper.value, b.scheduled.value, Minutes(b), pad);
      } else if b.helper.value == c.noted[0].helper {
        OtherRowClash(rows, c, id, pad);
      } else {
        KeptClash(rows, c, b.helper.value, id, b.scheduled.value, Minutes(b), pad);
      }
      assert false;
    }
  }

  lemma StepApartIff(maxActive: int, s: State, e: Event, pad: nat)
    requires Sound(s) && Apart(s.rows, pad)
    ensures Apart(Step(maxActive, s, e).rows, pad) <==> !Doubles(s, e, pad)
  {
    StepWrites(maxActive, s, e);
    if Written(s, e).Some? {
      WrittenIsFair(s, e);
      if Hands(Written(s, e).value) {
        HandsApartIff(s.rows, Written(s, e).value, pad);
      } else {
        KeepsApart(s.rows, Written(s, e).value, pad);
      }
    }
  }

  /** Over every run, no helper is ever booked twice at a time exactly when no step hands a booking to a helper busy in its window. */
  lemma {:induction false} NeverDoubleBookedIff(maxActive: int, s: State, events: seq<Event>, pad: nat)
    requires Sound(s) && Apart(s.rows, pad)
    ensures StaysApart(maxActive, s, events, pad) <==> !Doubled(maxActive, s, events, pad)
    decreases |events|
  {
    if events != [] {
      var s' := Step(maxActive, s, events[0]);
      StepKeepsSound(maxActive, s, events[0]);
      StepApartIff(maxActive, s, events[0], pad);
      if Apart(s'.rows, pad) {
        NeverDoubleBookedIff(maxActive, s', events[1..], pad);
      }
    }
  }

  /** The window an attempt of the dispatcher has loaded is the row's, and past the probe nobody is in its way. */
  predicate Current(rows: Rows, a: Attempt, pad: nat) {
    a.check.Probing? ==>
      && a.booking in rows && rows[a.booking].scheduled == Some(a.check.start)
      && Minutes(rows[a.booking]) == a.check.duration && a.check.pad == pad
      && (Late(a) ==> !Clash(rows, a.helper, a.booking, a.check.start, a.check.duration, pad))
  }

  ghost predicate Probed(s: State, pad: nat) { forall t :: t in s.attempts ==> Current(s.rows, s.attempts[t], pad) }

  /** Only moves change a window. */
  lemma WindowsStay(s: State, e: Event)
    requires !e.WriteMove? && Written(s, e).Some? && Written(s, e).value.id in s.rows
    ensures var c := Written(s, e).value; c.row.scheduled == s.rows[c.id].scheduled && c.row.duration == s.rows[c.id].duration
  {
  }

  /** The lock keeps the probe true. */
  lemma CurrentKept(maxActive: int, s: State, e: Event, pad: nat, t: int)
    requires Sound(s) && Probed(s, pad) && !e.WriteMove? && !e.WriteSwap?
    requires t in s.attempts && t in Step(maxActive, s, e).attempts
    ensures Current(Step(maxActive, s, e).rows, Step(maxActive, s, e).attempts[t], pad)
  {
    var a := s.attempts[t];
    var s' := Step(maxActive, s, e);
    StepWrites(maxActive, s, e);
    AttemptBefore(maxActive, s, e, t);
    assert Current(s.rows, a, pad);
    if a.check.Probing? && Written(s, e).Some? {
      WrittenIsFair(s, e);
      WindowsStay(s, e);
      if Late(a) {
        if Hands(Written(s, e).value) {
          HandedUnderLock(maxActive, s, e, t);
        }
        KeptClash(s.rows, Written(s, e).value, a.helper, a.booking, a.check.start, a.check.duration, pad);
      }
    }
  }

  lemma ProbedKept(maxActive: int, s: State, e: Event, pad: nat)
    requires Sound(s) && Probed(s, pad) && !e.WriteMove? && !e.WriteSwap? && (e.Load? ==> e.pad == pad)
    ensures Probed(Step(maxActive, s, e), pad)
  {
    StepWrites(maxActive, s, e);
    forall t | t in Step(maxActive, s, e).attempts ensures Current(Step(maxActive, s, e).rows, Step(maxActive, s, e).attempts[t], pad) {
      if t in s.attempts {
        CurrentKept(maxActive, s, e, pad, t);
      } else {
        AttemptNew(maxActive, s, e, t);
      }
    }
  }

  ghost predicate AcceptDoubled(maxActive: int, s: State, events: seq<Event>, pad: nat)
    decreases |events|
  {
    events != [] && ((Accepts(s, events[0]) && Doubles(s, events[0], pad))
                     || AcceptDoubled(maxActive, Step(maxActive, s, events[0]), events[1..], pad))
  }

  /** Nothing is moved or reassigned, and the travel buffer does not change. */
  ghost predicate Settled(events: seq<Event>, pad: nat) {
    forall e :: e in events ==> !e.WriteMove? && !e.WriteSwap? && (e.Load? ==> e.pad == pad)
  }

  /** Then the dispatcher never books a helper twice at a time: it happens exactly when an accept does it. */
  lemma {:induction false} OnlyAcceptsDouble(maxActive: int, s: State, events: seq<Event>, pad: nat)
    requires Sound(s) && Apart(s.rows, pad) && Probed(s, pad) && Settled(events, pad)
    ensures StaysApart(maxActive, s, events, pad) <==> !AcceptDoubled(maxActive, s, events, pad)
    decreases |events|
  {
    if events != [] {
      var e := events[0];
      var s' := Step(maxActive, s, e);
      assert e in events && forall f :: f in events[1..] ==> f in events;
      StepKeepsSound(maxActive, s, e);
      StepApartIff(maxActive, s, e, pad);
      ProbedKept(maxActive, s, e, pad);
      if Dispatches(s, e) {
        assert Current(s.rows, s.attempts[e.t], pad);
      }
      if Apart(s'.rows, pad) {
        OnlyAcceptsDouble(maxActive, s', events[1..], pad);
      }
    }
  }

  // ---- Both promises can fail ----

  /** Two new bookings; the first goes to `helper`. */
  predicate TwoOpen(a: Booking, b: Booking) {
    a.status.Pending? && b.status.Pending? && a.helper.None? && b.helper.None? && a.scheduled.Some? && b.scheduled.Some?
  }

  predicate WindowsOverlap(a: Booking, b: Booking, pad: nat)
    requires a.scheduled.Some? && b.scheduled.Some?
  {
    Overlap(a.scheduled.value, a.scheduled.value + Minutes(a) + pad, b.scheduled.value, b.scheduled.value + Minutes(b) + pad)
  }

  function OneTaken(a: Booking, b: Booking, helper: string): Rows { map[1 := Assigned(a, helper), 2 := b] }

  function BothTaken(a: Booking, b: Booking, helper: string): Rows { map[1 := Assigned(a, helper), 2 := Assigned(b, helper)] }

  /** After an accept of the first of two bookings. */
  function AfterFirst(a: Booking, b: Booking, helper: string): State {
    Fresh(OneTaken(a, b, helper)).(done := map[0 := Won], log := [WonBy(1, helper)])
  }

  lemma TakenCounts(a: Booking, b: Booking, helper: string)
    requires TwoOpen(a, b)
    ensures |Active(map[1 := a, 2 := b], helper)| == 0
    ensures |Active(OneTaken(a, b, helper), helper)| == 1 && |Active(BothTaken(a, b, helper), helper)| == 2
    ensures map[1 := a, 2 := b][1 := Assigned(a, helper)] == OneTaken(a, b, helper)
    ensures OneTaken(a, b, helper)[2 := Assigned(b, helper)] == BothTaken(a, b, helper)
  {
    assert Active(map[1 := a, 2 := b], helper) == {};
    assert Active(OneTaken(a, b, helper), helper) == {1};
    assert Active(BothTaken(a, b, helper), helper) == {1, 2};
  }

  lemma FirstAccepted(maxActive: int, a: Booking, b: Booking, helper: string)
    requires TwoOpen(a, b) && maxActive > 0
    ensures Run(maxActive, Fresh(map[1 := a, 2 := b]), Whole(Begin(0, 1, helper), 0)) == AfterFirst(a, b, helper)
  {
    AcceptEnds(maxActive, Fresh(map[1 := a, 2 := b]), 0, 1, helper);
    TakenCounts(a, b, helper);
    assert [] + [WonBy(1, helper)] == [WonBy(1, helper)];
  }

  /** At a maximum of one, the dispatcher gives a helper a second booking exactly when the two are apart. */
  lemma DispatchExceedsTheMaximum(a: Booking, b: Booking, helper: string, pad: nat)
    requires TwoOpen(a, b)
    ensures var end := Run(1, Fresh(map[1 := a, 2 := b]), Whole(Begin(0, 1, helper), 0) + Whole(Load(1, 2, helper, pad), 1));
      |Active(end.rows, helper)| == if WindowsOverlap(a, b, pad) then 1 else 2
  {
    RunAppend(1, Fresh(map[1 := a, 2 := b]), Whole(Begin(0, 1, helper), 0), Whole(Load(1, 2, helper, pad), 1));
    FirstAccepted(1, a, b, helper);
    SecondDispatched(a, b, helper, pad);
    TakenCounts(a, b, helper);
  }

  lemma SecondDispatched(a: Booking, b: Booking, helper: string, pad: nat)
    requires TwoOpen(a, b)
    ensures Run(1, AfterFirst(a, b, helper), Whole(Load(1, 2, helper, pad), 1)).rows ==
      if WindowsOverlap(a, b, pad) then OneTaken(a, b, helper) else BothTaken(a, b, helper)
  {
    DispatchEnds(1, AfterFirst(a, b, helper), 1, 2, helper, pad);
    TakenCounts(a, b, helper);
  }

  lemma BothApart(a: Booking, b: Booking, helper: string, pad: nat)
    requires TwoOpen(a, b)
    ensures Apart(BothTaken(a, b, helper), pad) <==> !WindowsOverlap(a, b, pad)
  {
    var rows := BothTaken(a, b, helper);
    assert ClashesWith(rows[1], helper, b.scheduled.value, Minutes(b), pad) <==> WindowsOverlap(a, b, pad);
    assert ClashesWith(rows[2], helper, a.scheduled.value, Minutes(a), pad) <==> WindowsOverlap(a, b, pad);
    assert Alone(rows, 1, pad) <==> !WindowsOverlap(a, b, pad);
    assert Alone(rows, 2, pad) <==> !WindowsOverlap(a, b, pad);
  }

  /** At a higher maximum, a helper may accept two bookings at the same time. */
  lemma AcceptsDoubleBook(a: Booking, b: Booking, helper: string, pad: nat)
    requires TwoOpen(a, b)
    ensures var end := Run(2, Fresh(map[1 := a, 2 := b]), Whole(Begin(0, 1, helper), 0) + Whole(Begin(1, 2, helper), 1));
      Apart(end.rows, pad) <==> !WindowsOverlap(a, b, pad)
  {
    RunAppend(2, Fresh(map[1 := a, 2 := b]), Whole(Begin(0, 1, helper), 0), Whole(Begin(1, 2, helper), 1));
    FirstAccepted(2, a, b, helper);
    SecondAccepted(a, b, helper);
    BothApart(a, b, helper, pad);
  }

  lemma SecondAccepted(a: Booking, b: Booking, helper: string)
    requires TwoOpen(a, b)
    ensures Run(2, AfterFirst(a, b, helper), Whole(Begin(1, 2, helper), 1)).rows == BothTaken(a, b, helper)
  {
    AcceptEnds(2, AfterFirst(a, b, helper), 1, 2, helper);
    TakenCounts(a, b, helper);
  }

  /** The dispatcher loads the second booking, and it is moved to `start` before the assignment goes on. */
  function LoadThenMove(helper: string, pad: nat, start: int): seq<Event> {
    [Load(0, 2, helper, pad)] + ([CheckMove(0, 2)] + ([WriteMove(0, start)] + Rest(0)))
  }

  /** A booking moved after the dispatcher has loaded it is probed in its old window and handed out in its new one. */
  lemma StaleWindowDoubleBooks(a: Booking, b: Booking, helper: string, pad: nat, start: int)
    requires TwoOpen(a, b) && !WindowsOverlap(a, b, pad) && WindowsOverlap(a, b.(scheduled := Some(start)), pad)
    ensures var rows := OneTaken(a, b, helper);
      Apart(rows, pad) && !Apart(Run(2, Fresh(rows), LoadThenMove(helper, pad, start)).rows, pad)
  {
    var rows := OneTaken(a, b, helper);
    assert Alone(rows, 1, pad) && Alone(rows, 2, pad);
    LoadedThenMoved(a, b, helper, pad, start);
    StaleAssigned(a, b, helper, pad, start);
    BothApart(a, b.(scheduled := Some(start)), helper, pad);
  }

  lemma LoadedThenMoved(a: Booking, b: Booking, helper: string, pad: nat, start: int)
    requires TwoOpen(a, b)
    ensures var rows := OneTaken(a, b, helper);
      Run(2, Fresh(rows), LoadThenMove(helper, pad, start)) ==
      Run(2, Opened(Fresh(OneTaken(a, b.(scheduled := Some(start)), helper)), 0, Dispatching(rows, 2, helper, pad)), Rest(0))
  {
    var rows := OneTaken(a, b, helper);
    var s := Fresh(rows);
    var x := Dispatching(rows, 2, helper, pad);
    MoveUnderway(s, x, start);
    assert rows[2 := b.(scheduled := Some(start))] == OneTaken(a, b.(scheduled := Some(start)), helper);
    RunCons(2, s, Load(0, 2, helper, pad), [CheckMove(0, 2)] + ([WriteMove(0, start)] + Rest(0)));
    RunCons(2, Opened(s, 0, x), CheckMove(0, 2), [WriteMove(0, start)] + Rest(0));
    RunCons(2, Opened(s, 0, x).(checked := map[0 := 2]), WriteMove(0, start), Rest(0));
  }

  lemma StaleAssigned(a: Booking, b: Booking, helper: string, pad: nat, start: int)
    requires TwoOpen(a, b) && !WindowsOverlap(a, b, pad)
    ensures var moved := b.(scheduled := Some(start));
      Run(2, Opened(Fresh(OneTaken(a, moved, helper)), 0, Dispatching(OneTaken(a, b, helper), 2, helper, pad)), Rest(0)).rows
      == BothTaken(a, moved, helper)
  {
    var moved := b.(scheduled := Some(start));
    RestEnds(2, Fresh(OneTaken(a, moved, helper)), 0, Dispatching(OneTaken(a, b, helper), 2, helper, pad));
    StaleProbe(a, b, helper, pad, start);
    TakenCounts(a, moved, helper);
  }

  lemma MoveUnderway(s: State, x: Attempt, start: int)
    requires s == Fresh(s.rows) && 2 in s.rows && s.rows[2].status.Pending? && s.rows[2].helper.None? && x.booking == 2 && x.phase.Begun?
    ensures Step(2, Opened(s, 0, x), CheckMove(0, 2)) == Opened(s, 0, x).(checked := map[0 := 2])
    ensures Step(2, Opened(s, 0, x).(checked := map[0 := 2]), WriteMove(0, start)) ==
      Opened(Fresh(s.rows[2 := s.rows[2].(scheduled := Some(start))]), 0, x)
  {
    var s1 := Opened(s, 0, x).(checked := map[0 := 2]);
    assert !RowHeld(s1, 2) && map[0 := 2] - {0} == map[];
    assert s1.log + [] == s1.log;
  }

  /** The probe still asks about the old window. */
  lemma StaleProbe(a: Booking, b: Booking, helper: string, pad: nat, start: int)
    requires TwoOpen(a, b) && !WindowsOverlap(a, b, pad)
    ensures !Clash(OneTaken(a, b.(scheduled := Some(start)), helper), helper, 2, b.scheduled.value, Minutes(b), pad)
  {
    var rows := OneTaken(a, b.(scheduled := Some(start)), helper);
    assert !ClashesWith(rows[1], helper, b.scheduled.value, Minutes(b), pad);
  }

  /** Two reassignments under way to the same helper. */
  function TwoSwaps(rows: Rows, helper: string): State {
    Fresh(rows).(swaps := map[0 := Swap(1, helper), 1 := Swap(2, helper)])
  }

  lemma SwapsBegin(a: Booking, b: Booking, helper: string)
    requires Underway(a.status) && Underway(b.status) && a.helper != Some(helper) && b.helper != Some(helper)
    ensures var rows := map[1 := a, 2 := b];
      Step(1, Step(1, Fresh(rows), CheckSwap(0, 1, helper)), CheckSwap(1, 2, helper)) == TwoSwaps(rows, helper)
  {
    var s0 := Fresh(map[1 := a, 2 := b]);
    assert Active(s0.rows, helper) == {};
    var s1 := s0.(swaps := map[0 := Swap(1, helper)]);
    assert !RowHeld(s0, 1) && Step(1, s0, CheckSwap(0, 1, helper)) == s1;
    assert !RowHeld(s1, 2);
  }

  lemma SwapsEnd(a: Booking, b: Booking, helper: string)
    ensures Step(1, Step(1, TwoSwaps(map[1 := a, 2 := b], helper), WriteSwap(0)), WriteSwap(1)).rows ==
      map[1 := a.(helper := Some(helper)), 2 := b.(helper := Some(helper))]
  {
  }

  /** Two reassignments that both find a helper idle give them two bookings. */
  lemma SwapsOutrunTheCheck(a: Booking, b: Booking, helper: string)
    requires Underway(a.status) && Underway(b.status) && a.helper != Some(helper) && b.helper != Some(helper)
    ensures var end := Run(1, Fresh(map[1 := a, 2 := b]),
                           [CheckSwap(0, 1, helper)] + ([CheckSwap(1, 2, helper)] + ([WriteSwap(0)] + ([WriteSwap(1)] + []))));
      |Active(end.rows, helper)| == 2
  {
    var s0 := Fresh(map[1 := a, 2 := b]);
    var s1 := Step(1, s0, CheckSwap(0, 1, helper));
    var s2 := TwoSwaps(map[1 := a, 2 := b], helper);
    var s3 := Step(1, s2, WriteSwap(0));
    SwapsBegin(a, b, helper);
    SwapsEnd(a, b, helper);
    assert Active(map[1 := a.(helper := Some(helper)), 2 := b.(helper := Some(helper))], helper) == {1, 2};
    RunCons(1, s0, CheckSwap(0, 1, helper), [CheckSwap(1, 2, helper)] + ([WriteSwap(0)] + ([WriteSwap(1)] + [])));
    RunCons(1, s1, CheckSwap(1, 2, helper), [WriteSwap(0)] + ([WriteSwap(1)] + []));
    RunCons(1, s2, WriteSwap(0), [WriteSwap(1)] + []);
    RunCons(1, s3, WriteSwap(1), []);
  }
}
