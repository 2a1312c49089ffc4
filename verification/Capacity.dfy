/**
 The slot-capacity gate: live overlap counting, and gated inserts and moves as
 interleaved transactions under an advisory lock per (locality, date).
 */
module Capacity {
  import opened Common
  import opened Bookings

  const PILOT_LOCALITY := "Orchid Island Gurugram"
  const TRAVEL_PAD := 15
  const MINUTES_PER_DAY := 1440

  datatype Slot = Slot(start: int, end: int)

  /** The advisory-lock key: a locality and the IST date of a slot. */
  datatype Gate = Gate(locality: string, date: int)

  function GateOf(locality: string, start: int): Gate {
    Gate(locality, start / MINUTES_PER_DAY)
  }

  /** Roster, approved leave and the active slot grid; all fixed during a run. */
  datatype Site = Site(roster: map<string, nat>, leave: map<Gate, nat>, grid: set<Slot>)

  function RosterOf(site: Site, g: Gate): nat {
    if g.locality in site.roster then site.roster[g.locality] else 0
  }

  function LeaveOf(site: Site, g: Gate): nat {
    if g in site.leave then site.leave[g] else 0
  }

  /** Helpers on the roster of the gate's locality minus those on leave that date, never negative. */
  function Limit(site: Site, g: Gate): nat {
    if RosterOf(site, g) > LeaveOf(site, g) then RosterOf(site, g) - LeaveOf(site, g) else 0
  }

  /** The SQL predicate of the committed count: the padded window overlaps the slot's window. */
  predicate Holds(b: Booking, locality: string, slot: Slot) {
    && b.locality == Some(locality)
    && Committed(b.status)
    && b.scheduled.Some?
    && b.duration.Some?
    && b.scheduled.value < slot.end
    && b.scheduled.value + b.duration.value + TRAVEL_PAD > slot.start
  }

  function Holders(rows: Rows, locality: string, slot: Slot, skip: set<int>): set<int> {
    set id | id in rows && id !in skip && Holds(rows[id], locality, slot)
  }

  /** The live headroom of a slot, clamped at zero; `skip` is the booking being moved, if any. */
  function Available(site: Site, rows: Rows, locality: string, slot: Slot, skip: set<int>): nat {
    var limit := Limit(site, GateOf(locality, slot.start));
    var committed := |Holders(rows, locality, slot, skip)|;
    if limit > committed then limit - committed else 0
  }

  /** A row that holds a helper and starts exactly at `start`. */
  predicate StartsAt(b: Booking, locality: string, start: int) {
    b.locality == Some(locality) && Committed(b.status) && b.scheduled == Some(start) && b.duration.Some?
  }

  function Starters(rows: Rows, locality: string, start: int, skip: set<int>): set<int> {
    set id | id in rows && id !in skip && StartsAt(rows[id], locality, start)
  }

  // ---- What the counts mean ----

  /** `n` bookings at a time have `n` helpers: on the locality's roster and not on leave that date. */
  predicate Staffed(site: Site, locality: string, date: int, n: int) {
    var away := if Gate(locality, date) in site.leave then site.leave[Gate(locality, date)] else 0;
    n > 0 ==> locality in site.roster && n + away <= site.roster[locality]
  }

  /** The limit is the greatest number that is staffed, so leave takes seats away. */
  lemma StaffedIff(site: Site, locality: string, start: int, n: int)
    ensures Staffed(site, locality, start / 1440, n) <==> n <= Limit(site, GateOf(locality, start))
  {
  }

  /** So many more bookings fit into a slot as its headroom says, and no more. */
  lemma HeadroomIff(site: Site, rows: Rows, locality: string, slot: Slot, skip: set<int>, n: nat)
    requires n > 0
    ensures n <= Available(site, rows, locality, slot, skip) <==>
      Staffed(site, locality, slot.start / 1440, |Holders(rows, locality, slot, skip)| + n)
  {
    StaffedIff(site, locality, slot.start, |Holders(rows, locality, slot, skip)| + n);
  }

  /** A booking counts for a slot exactly when it is not closed and some minute of the slot lies in it or its 15 minutes of travel. */
  lemma HoldsIff(b: Booking, locality: string, slot: Slot)
    requires slot.start < slot.end
    ensures Holds(b, locality, slot) <==>
      && b.locality == Some(locality) && b.status !in {Completed, Cancelled} && b.scheduled.Some? && b.duration.Some?
      && exists t :: During(t, slot.start, slot.end) && During(t, b.scheduled.value, b.scheduled.value + b.duration.value + 15)
  {
    if Holds(b, locality, slot) {
      var t := if slot.start > b.scheduled.value then slot.start else b.scheduled.value;
      assert During(t, slot.start, slot.end);
    }
  }

  // ---- Transactions ----

  datatype Job =
    | Create(id: int, row: Booking)
    | Move(id: int)

  /** Begun: slot row read (and, for a move, the booking row locked). */
  datatype Phase = Begun | Locked | Admitted | Written

  datatype Txn = Txn(job: Job, locality: string, slot: Slot, phase: Phase)

  datatype State = State(rows: Rows, txns: map<int, Txn>, gates: map<Gate, int>)

  function GateFor(x: Txn): Gate { GateOf(x.locality, x.slot.start) }

  function Skip(job: Job): set<int> {
    match job
    case Create(_, _) => {}
    case Move(id) => {id}
  }

  /** The locality a move is gated in; a row without one falls back to the pilot locality. */
  function GateLocality(b: Booking): string {
    if b.locality.Some? && b.locality.value != "" then b.locality.value else PILOT_LOCALITY
  }

  predicate RowLocked(s: State, id: int) {
    exists t :: t in s.txns && s.txns[t].job == Move(id)
  }

  /** The inserted row: pending, unassigned, placed at the start of its slot. */
  function Placed(row: Booking, locality: string, slot: Slot): Booking {
    row.(status := Pending, helper := None, locality := Some(locality), scheduled := Some(slot.start))
  }

  function Moved(row: Booking, slot: Slot): Booking { MovedTo(row, slot.start) }

  /** SetStatus is any other change of a row's status and helper: a booking is handed out, released, advanced or closed. */
  datatype Event =
    | Begin(t: int, job: Job, locality: string, slot: Slot)
    | Lock(t: int)
    | Recount(t: int)
    | Write(t: int)
    | Commit(t: int)
    | Abort(t: int)
    | SetStatus(id: int, status: Status, helper: Option<string>)

  /** Ending a transaction releases its gate. */
  function Close(s: State, t: int, rows: Rows): State
    requires t in s.txns
  {
    var g := GateFor(s.txns[t]);
    State(rows, s.txns - {t}, if g in s.gates && s.gates[g] == t then s.gates - {g} else s.gates)
  }

  /** What a commit writes; None when the row cannot be written. */
  function Effect(rows: Rows, x: Txn): Option<Rows> {
    match x.job
    case Create(id, row) =>
      if id in rows || row.duration.None? then None else Some(rows[id := Placed(row, x.locality, x.slot)])
    case Move(id) =>
      if id !in rows then None else Some(rows[id := Moved(rows[id], x.slot)])
  }

  function SetPhase(s: State, t: int, phase: Phase): State
    requires t in s.txns
  {
    s.(txns := s.txns[t := s.txns[t].(phase := phase)])
  }

  /** Whether a gated transaction may begin: active slot, a named locality, and no other move on the booking row. */
  predicate MayBegin(site: Site, s: State, t: int, job: Job, locality: string, slot: Slot) {
    && t !in s.txns
    && slot in site.grid
    && match job {
      case Create(_, _) => locality != ""
      case Move(id) =>
        && id in s.rows && !RowLocked(s, id)
        && locality == GateLocality(s.rows[id])
    }
  }

  /** One step; an event that is not enabled leaves the state alone. */
  function Step(site: Site, s: State, e: Event): State {
    match e
    case Begin(t, job, locality, slot) =>
      if MayBegin(site, s, t, job, locality, slot) then s.(txns := s.txns[t := Txn(job, locality, slot, Begun)]) else s
    case Lock(t) =>
      if t in s.txns && s.txns[t].phase.Begun? && GateFor(s.txns[t]) !in s.gates
      then SetPhase(s, t, Locked).(gates := s.gates[GateFor(s.txns[t]) := t]) else s
    case Recount(t) =>
      if t !in s.txns || !s.txns[t].phase.Locked? then s
      else
        var x := s.txns[t];
        if Available(site, s.rows, x.locality, x.slot, Skip(x.job)) > 0 then SetPhase(s, t, Admitted)
        else Close(s, t, s.rows)
    case Write(t) =>
      if t in s.txns && s.txns[t].phase.Admitted? then SetPhase(s, t, Written) else s
    case Commit(t) =>
      if t !in s.txns || !s.txns[t].phase.Written? then s
      else
        var written := Effect(s.rows, s.txns[t]);
        Close(s, t, if written.Some? then written.value else s.rows)
    case Abort(t) =>
      if t in s.txns then Close(s, t, s.rows) else s
    case SetStatus(id, status, helper) =>
      if id in s.rows && !RowLocked(s, id) && (Committed(status) ==> Committed(s.rows[id].status))
      then s.(rows := s.rows[id := s.rows[id].(status := status, helper := helper)]) else s
  }

  function Run(site: Site, s: State, events: seq<Event>): State
    decreases |events|
  {
    if events == [] then s else Run(site, Step(site, s, events[0]), events[1..])
  }

  // ---- At most `Limit` committed bookings share a slot start ----

  ghost predicate Nonempty(grid: set<Slot>) {
    forall slot :: slot in grid ==> slot.start < slot.end
  }

  predicate Late(p: Phase) { p.Admitted? || p.Written? }

  ghost predicate Exclusive(s: State) {
    forall t :: t in s.txns && !s.txns[t].phase.Begun? ==>
      GateFor(s.txns[t]) in s.gates && s.gates[GateFor(s.txns[t])] == t
  }

  ghost predicate OnGrid(site: Site, s: State) {
    forall t :: t in s.txns ==> s.txns[t].slot in site.grid && s.txns[t].locality != ""
  }

  ghost predicate MovesInPlace(s: State) {
    forall t :: t in s.txns && s.txns[t].job.Move? ==>
      && s.txns[t].job.id in s.rows
      && s.txns[t].locality == GateLocality(s.rows[s.txns[t].job.id])
  }

  ghost predicate Reserved(site: Site, s: State) {
    forall t :: t in s.txns && Late(s.txns[t].phase) ==>
      var x := s.txns[t];
      |Starters(s.rows, x.locality, x.slot.start, Skip(x.job))| < Limit(site, GateFor(x))
  }

  ghost predicate StartBound(site: Site, rows: Rows) {
    forall locality, start :: locality != "" ==> |Starters(rows, locality, start, {})| <= Limit(site, GateOf(locality, start))
  }

  ghost predicate Inv(site: Site, s: State) {
    Exclusive(s) && OnGrid(site, s) && MovesInPlace(s) && Reserved(site, s) && StartBound(site, s.rows)
  }

  /** Writing a row grows the count of its own start only, and by at most one beyond the other rows. */
  lemma StartersAfterWrite(rows: Rows, id: int, row: Booking, locality: string, start: int, skip: set<int>)
    ensures !StartsAt(row, locality, start) ==>
      |Starters(rows[id := row], locality, start, skip)| <= |Starters(rows, locality, start, skip)|
    ensures |Starters(rows[id := row], locality, start, skip)| <= |Starters(rows, locality, start, {id})| + 1
  {
    var now := Starters(rows[id := row], locality, start, skip);
    if !StartsAt(row, locality, start) {
      SubsetCount(now, Starters(rows, locality, start, skip));
    }
    SubsetCount(now - {id}, Starters(rows, locality, start, {id}));
    SubsetCount(now, (now - {id}) + {id});
  }

  /** Every booking that starts at a slot's start also overlaps the slot. */
  lemma StartersHold(rows: Rows, locality: string, slot: Slot, skip: set<int>)
    requires slot.start < slot.end
    ensures |Starters(rows, locality, slot.start, skip)| <= |Holders(rows, locality, slot, skip)|
  {
    forall id | id in Starters(rows, locality, slot.start, skip) ensures id in Holders(rows, locality, slot, skip) {
      assert rows[id].duration.value + TRAVEL_PAD > 0;
    }
    SubsetCount(Starters(rows, locality, slot.start, skip), Holders(rows, locality, slot, skip));
  }

  /** A status move never adds a starter. */
  lemma StatusKeepsStarters(rows: Rows, id: int, status: Status, helper: Option<string>, locality: string, start: int, skip: set<int>)
    requires id in rows && (Committed(status) ==> Committed(rows[id].status))
    ensures |Starters(rows[id := rows[id].(status := status, helper := helper)], locality, start, skip)|
         <= |Starters(rows, locality, start, skip)|
  {
    SubsetCount(Starters(rows[id := rows[id].(status := status, helper := helper)], locality, start, skip),
                Starters(rows, locality, start, skip));
  }

  /** A commit writes its row at one start, behind its own gate, and the reservation pays for it. */
  lemma CommitKeepsBound(site: Site, s: State, t: int, rows: Rows)
    requires Inv(site, s)
    requires t in s.txns && s.txns[t].phase.Written? && Effect(s.rows, s.txns[t]) == Some(rows)
    ensures StartBound(site, rows)
    ensures forall u :: u in s.txns && u != t && Late(s.txns[u].phase) ==>
      var y := s.txns[u];
      |Starters(rows, y.locality, y.slot.start, Skip(y.job))| < Limit(site, GateFor(y))
  {
    var x := s.txns[t];
    var id := x.job.id;
    var row := rows[id];
    assert rows == s.rows[id := row];
    forall locality, start | locality != "" ensures |Starters(rows, locality, start, {})| <= Limit(site, GateOf(locality, start)) {
      StartersAfterWrite(s.rows, id, row, locality, start, {});
      if StartsAt(row, locality, start) {
        assert start == x.slot.start && locality == x.locality;
        SubsetCount(Starters(s.rows, locality, start, {id}), Starters(s.rows, locality, start, Skip(x.job)));
      }
    }
    forall u | u in s.txns && u != t && Late(s.txns[u].phase)
      ensures |Starters(rows, s.txns[u].locality, s.txns[u].slot.start, Skip(s.txns[u].job))| < Limit(site, GateFor(s.txns[u]))
    {
      var y := s.txns[u];
      assert GateFor(y) != GateFor(x);
      assert !StartsAt(row, y.locality, y.slot.start);
      StartersAfterWrite(s.rows, id, row, y.locality, y.slot.start, Skip(y.job));
    }
  }

  /** Locks stay exclusive, and moves keep pointing at rows of their own locality. */
  lemma StepKeepsLocks(site: Site, s: State, e: Event)
    requires Exclusive(s)
    ensures Exclusive(Step(site, s, e))
  {
  }

  lemma StepKeepsPlace(site: Site, s: State, e: Event)
    requires OnGrid(site, s) && MovesInPlace(s)
    ensures OnGrid(site, Step(site, s, e)) && MovesInPlace(Step(site, s, e))
  {
  }

  lemma StatusKeepsBounds(site: Site, s: State, id: int, status: Status, helper: Option<string>)
    requires Inv(site, s) && id in s.rows && (Committed(status) ==> Committed(s.rows[id].status))
    ensures Reserved(site, s.(rows := s.rows[id := s.rows[id].(status := status, helper := helper)]))
    ensures StartBound(site, s.rows[id := s.rows[id].(status := status, helper := helper)])
  {
    forall locality, start, skip {
      StatusKeepsStarters(s.rows, id, status, helper, locality, start, skip);
    }
  }

  /** A seat in the slot is a seat at its start. */
  lemma RecountReserves(site: Site, s: State, t: int)
    requires Nonempty(site.grid) && Inv(site, s)
    ensures Reserved(site, Step(site, s, Recount(t))) && Step(site, s, Recount(t)).rows == s.rows
  {
    if t in s.txns && s.txns[t].phase.Locked? {
      StartersHold(s.rows, s.txns[t].locality, s.txns[t].slot, Skip(s.txns[t].job));
    }
  }

  lemma StepKeepsInv(site: Site, s: State, e: Event)
    requires Nonempty(site.grid) && Inv(site, s)
    ensures Inv(site, Step(site, s, e))
  {
    StepKeepsLocks(site, s, e);
    StepKeepsPlace(site, s, e);
    match e
    case Recount(t) => RecountReserves(site, s, t);
    case Commit(t) =>
      if t in s.txns && s.txns[t].phase.Written? && Effect(s.rows, s.txns[t]).Some? {
        CommitKeepsBound(site, s, t, Effect(s.rows, s.txns[t]).value);
      }
    case SetStatus(id, status, helper) =>
      if id in s.rows && !RowLocked(s, id) && (Committed(status) ==> Committed(s.rows[id].status)) {
        StatusKeepsBounds(site, s, id, status, helper);
      }
    case _ =>
  }

  /** Over every interleaving, at most `Limit` committed bookings of a locality start together. */
  lemma {:induction false} RunKeepsStartBound(site: Site, s: State, events: seq<Event>)
    requires Nonempty(site.grid) && Inv(site, s)
    ensures Inv(site, Run(site, s, events))
    decreases |events|
  {
    if events != [] {
      StepKeepsInv(site, s, events[0]);
      RunKeepsStartBound(site, Step(site, s, events[0]), events[1..]);
    }
  }

  /** So over every run, the bookings that start together have a helper each, on the roster and not on leave. */
  lemma StartsAreStaffed(site: Site, s: State, events: seq<Event>, locality: string, start: int)
    requires Nonempty(site.grid) && Inv(site, s) && locality != ""
    ensures Staffed(site, locality, start / 1440, |Starters(Run(site, s, events).rows, locality, start, {})|)
  {
    RunKeepsStartBound(site, s, events);
    StaffedIff(site, locality, start, |Starters(Run(site, s, events).rows, locality, start, {})|);
  }

  // ---- How far any slot can be overcommitted ----

  ghost predicate ShortRow(site: Site, longest: nat, b: Booking) {
    b.scheduled.Some? && b.duration.Some? ==>
      b.duration.value <= longest && exists slot :: slot in site.grid && slot.start == b.scheduled.value
  }

  ghost predicate Short(site: Site, longest: nat, s: State) {
    && (forall id :: id in s.rows ==> ShortRow(site, longest, s.rows[id]))
    && (forall t :: t in s.txns ==> s.txns[t].slot in site.grid && ShortJob(longest, s.txns[t].job))
  }

  /** No booking outlasts `longest`, moved or not. */
  ghost predicate ShortJob(longest: nat, job: Job) {
    job.Create? && job.row.duration.Some? ==> job.row.duration.value <= longest
  }

  ghost predicate ShortRows(longest: nat, rows: Rows) {
    forall id :: id in rows && rows[id].duration.Some? ==> rows[id].duration.value <= longest
  }

  ghost predicate ShortEvents(longest: nat, events: seq<Event>) {
    forall e :: e in events && e.Begin? ==> ShortJob(longest, e.job)
  }

  /** The slot starts from which a booking of at most `longest` minutes can reach into `slot`. */
  function ReachingStarts(grid: set<Slot>, slot: Slot, longest: nat): set<int> {
    set from | from in grid && from.start < slot.end && from.start + longest + TRAVEL_PAD > slot.start :: from.start
  }

  ghost predicate ShortInv(site: Site, longest: nat, s: State) {
    Short(site, longest, s) && ShortRows(longest, s.rows)
  }

  lemma StepKeepsShort(site: Site, longest: nat, s: State, e: Event)
    requires ShortInv(site, longest, s) && (e.Begin? ==> ShortJob(longest, e.job))
    ensures ShortInv(site, longest, Step(site, s, e))
  {
  }

  lemma {:induction false} RunKeepsShort(site: Site, longest: nat, s: State, events: seq<Event>)
    requires ShortInv(site, longest, s) && ShortEvents(longest, events)
    ensures ShortInv(site, longest, Run(site, s, events))
    decreases |events|
  {
    if events != [] {
      assert events[0] in events;
      StepKeepsShort(site, longest, s, events[0]);
      RunKeepsShort(site, longest, Step(site, s, events[0]), events[1..]);
    }
  }

  /** The overcommit of any slot, over every interleaving, is bounded by the starts that can reach it and their own limits. */
  lemma OvercommitBound(site: Site, s: State, events: seq<Event>, longest: nat, most: nat, locality: string, slot: Slot)
    requires Nonempty(site.grid) && Inv(site, s)
    requires ShortInv(site, longest, s) && ShortEvents(longest, events)
    requires locality != ""
    requires forall start :: start in ReachingStarts(site.grid, slot, longest) ==> Limit(site, GateOf(locality, start)) <= most
    ensures |Holders(Run(site, s, events).rows, locality, slot, {})| <= most * |ReachingStarts(site.grid, slot, longest)|
  {
    RunKeepsStartBound(site, s, events);
    RunKeepsShort(site, longest, s, events);
    var rows := Run(site, s, events).rows;
    var starts := ReachingStarts(site.grid, slot, longest);
    var start := id => if id in rows && rows[id].scheduled.Some? then rows[id].scheduled.value else 0;
    var held := Holders(rows, locality, slot, {});
    forall id | id in held ensures start(id) in starts && StartsAt(rows[id], locality, start(id)) {
      assert ShortRow(site, longest, rows[id]);
      var from :| from in site.grid && from.start == rows[id].scheduled.value;
      assert from.start in starts;
    }
    forall from | from in starts ensures |Group(held, start, from)| <= most {
      forall id | id in Group(held, start, from) ensures id in Starters(rows, locality, from, {}) {
        assert id in held;
      }
      SubsetCount(Group(held, start, from), Starters(rows, locality, from, {}));
    }
    GroupCount(held, starts, start, most);
  }

  // ---- When no slot is ever overcommitted ----

  ghost predicate Disjoint(grid: set<Slot>) {
    Nonempty(grid) &&
    forall a, b :: a in grid && b in grid && a != b ==> a.end <= b.start || b.end <= a.start
  }

  /** The slots of the gate's date. */
  function SlotsOf(site: Site, g: Gate): set<Slot> {
    set slot | slot in site.grid && GateOf(g.locality, slot.start) == g
  }

  ghost predicate NoOvercommit(site: Site, rows: Rows, g: Gate) {
    forall slot :: slot in SlotsOf(site, g) ==> |Holders(rows, g.locality, slot, {})| <= Limit(site, g)
  }

  /** Every other committed booking that reaches into the gate's date starts no later than `slot`. */
  ghost predicate PlacedLast(site: Site, rows: Rows, g: Gate, slot: Slot, id: int) {
    forall other, into :: other in rows && other != id && into in SlotsOf(site, g) && Holds(rows[other], g.locality, into) ==>
      rows[other].scheduled.value <= slot.start
  }

  /** A booking of the locality on another date, which does not reach into the gate's. */
  ghost predicate Elsewhere(site: Site, g: Gate, row: Booking) {
    forall into :: into in SlotsOf(site, g) ==> !Holds(row, g.locality, into)
  }

  /** Writing a row adds at most itself to a slot's overlap set, and only if it overlaps. */
  lemma HoldersAfterWrite(rows: Rows, id: int, row: Booking, locality: string, slot: Slot)
    ensures |Holders(rows[id := row], locality, slot, {})|
         == |Holders(rows, locality, slot, {id})| + if Holds(row, locality, slot) then 1 else 0
  {
    var others := Holders(rows, locality, slot, {id});
    assert Holders(rows[id := row], locality, slot, {}) == if Holds(row, locality, slot) then others + {id} else others;
  }

  /**
   What the gate does not see: it counts the booked slot only, so a commit keeps every slot of a date
   within the limit exactly when every slot of it that the written row spills into still had a seat.
   */
  lemma CommitSafeIff(site: Site, g: Gate, rows: Rows, id: int, row: Booking)
    requires NoOvercommit(site, rows, g)
    ensures NoOvercommit(site, rows[id := row], g) <==>
      forall slot :: slot in SlotsOf(site, g) && Holds(row, g.locality, slot) ==>
        |Holders(rows, g.locality, slot, {id})| < Limit(site, g)
  {
    forall slot | slot in SlotsOf(site, g)
      ensures |Holders(rows[id := row], g.locality, slot, {})| <= Limit(site, g) <==>
        (Holds(row, g.locality, slot) ==> |Holders(rows, g.locality, slot, {id})| < Limit(site, g))
    {
      HoldersAfterWrite(rows, id, row, g.locality, slot);
      SubsetCount(Holders(rows, g.locality, slot, {id}), Holders(rows, g.locality, slot, {}));
    }
  }

  /** On a disjoint grid, the bookings of a slot the last-placed row reaches all overlap that row's own slot. */
  lemma OverlapEmbeds(site: Site, rows: Rows, g: Gate, own: Slot, slot: Slot, id: int)
    requires Disjoint(site.grid) && own in site.grid && slot in SlotsOf(site, g)
    requires PlacedLast(site, rows, g, own, id) && own.start < slot.end
    ensures Holders(rows, g.locality, slot, {id}) <= Holders(rows, g.locality, own, {id})
  {
    assert own.start <= slot.start;
    forall other | other in Holders(rows, g.locality, slot, {id}) ensures other in Holders(rows, g.locality, own, {id}) {
      assert Holds(rows[other], g.locality, slot) && rows[other].scheduled.value <= own.start;
    }
  }

  /** Once admitted, a transaction of the gate has a seat in its own slot. */
  ghost predicate Seated(site: Site, s: State, g: Gate) {
    forall t :: t in s.txns && GateFor(s.txns[t]) == g && Late(s.txns[t].phase) ==>
      |Holders(s.rows, g.locality, s.txns[t].slot, Skip(s.txns[t].job))| < Limit(site, g)
  }

  ghost predicate OrderInv(site: Site, s: State, g: Gate) {
    g.locality != "" && Inv(site, s) && Seated(site, s, g) && NoOvercommit(site, s.rows, g)
  }

  /** On the gate's date each commit is the last-placed booking so far; bookings of other dates do not reach into it. */
  ghost predicate InOrder(site: Site, s: State, events: seq<Event>, g: Gate)
    decreases |events|
  {
    events != [] ==> CommitInOrder(site, s, events[0], g) && InOrder(site, Step(site, s, events[0]), events[1..], g)
  }

  ghost predicate CommitInOrder(site: Site, s: State, e: Event, g: Gate) {
    e.Commit? && e.t in s.txns && s.txns[e.t].locality == g.locality ==>
      var x := s.txns[e.t];
      if GateFor(x) == g then PlacedLast(site, s.rows, g, x.slot, x.job.id)
      else Effect(s.rows, x).Some? ==> Elsewhere(site, g, Effect(s.rows, x).value[x.job.id])
  }

  lemma LastCommitFits(site: Site, s: State, g: Gate, t: int, rows: Rows)
    requires Disjoint(site.grid) && OrderInv(site, s, g)
    requires t in s.txns && GateFor(s.txns[t]) == g && s.txns[t].phase.Written?
    requires Effect(s.rows, s.txns[t]) == Some(rows)
    requires PlacedLast(site, s.rows, g, s.txns[t].slot, s.txns[t].job.id)
    ensures NoOvercommit(site, rows, g)
  {
    var x := s.txns[t];
    var id := x.job.id;
    forall slot | slot in SlotsOf(site, g) && Holds(rows[id], g.locality, slot)
      ensures |Holders(s.rows, g.locality, slot, {id})| < Limit(site, g)
    {
      OverlapEmbeds(site, s.rows, g, x.slot, slot, id);
      SubsetCount(Holders(s.rows, g.locality, slot, {id}), Holders(s.rows, g.locality, x.slot, Skip(x.job)));
    }
    CommitSafeIff(site, g, s.rows, id, rows[id]);
    assert rows == s.rows[id := rows[id]];
  }

  /** Fewer holders keep every seat and every bound. */
  lemma FewerHoldersKeepOrder(site: Site, s: State, rows: Rows, g: Gate)
    requires OrderInv(site, s, g)
    requires forall id, slot :: id in rows && slot in SlotsOf(site, g) && Holds(rows[id], g.locality, slot) ==>
      id in s.rows && Holds(s.rows[id], g.locality, slot)
    ensures Seated(site, s.(rows := rows), g) && NoOvercommit(site, rows, g)
  {
    forall slot, skip | slot in SlotsOf(site, g)
      ensures |Holders(rows, g.locality, slot, skip)| <= |Holders(s.rows, g.locality, slot, skip)|
    {
      forall id | id in Holders(rows, g.locality, slot, skip) ensures id in Holders(s.rows, g.locality, slot, skip) {
        assert Holds(rows[id], g.locality, slot);
      }
      SubsetCount(Holders(rows, g.locality, slot, skip), Holders(s.rows, g.locality, slot, skip));
    }
  }

  lemma CommitKeepsOrder(site: Site, s: State, t: int, g: Gate)
    requires Disjoint(site.grid) && OrderInv(site, s, g) && CommitInOrder(site, s, Commit(t), g)
    requires t in s.txns && s.txns[t].phase.Written? && Effect(s.rows, s.txns[t]).Some?
    ensures Seated(site, Step(site, s, Commit(t)), g) && NoOvercommit(site, Step(site, s, Commit(t)).rows, g)
  {
    var rows := Effect(s.rows, s.txns[t]).value;
    if GateFor(s.txns[t]) == g {
      LastCommitFits(site, s, g, t, rows);
    } else {
      FewerHoldersKeepOrder(site, s, rows, g);
    }
  }

  lemma PhaseKeepsSeats(site: Site, s: State, e: Event, g: Gate)
    requires OrderInv(site, s, g) && !e.Commit? && !e.SetStatus? && !e.Recount?
    ensures Seated(site, Step(site, s, e), g) && Step(site, s, e).rows == s.rows
  {
  }

  lemma StepKeepsSeats(site: Site, s: State, e: Event, g: Gate)
    requires Disjoint(site.grid) && OrderInv(site, s, g) && CommitInOrder(site, s, e, g)
    ensures Seated(site, Step(site, s, e), g) && NoOvercommit(site, Step(site, s, e).rows, g)
  {
    match e
    case Commit(t) =>
      if t in s.txns && s.txns[t].phase.Written? && Effect(s.rows, s.txns[t]).Some? {
        CommitKeepsOrder(site, s, t, g);
      }
    case SetStatus(_, _, _) =>
      FewerHoldersKeepOrder(site, s, Step(site, s, e).rows, g);
    case Recount(t) =>
    case _ =>
      PhaseKeepsSeats(site, s, e, g);
  }

  lemma StepKeepsOrder(site: Site, s: State, e: Event, g: Gate)
    requires Disjoint(site.grid) && OrderInv(site, s, g) && CommitInOrder(site, s, e, g)
    ensures OrderInv(site, Step(site, s, e), g)
  {
    StepKeepsInv(site, s, e);
    StepKeepsSeats(site, s, e, g);
  }

  /** Placed in nondecreasing start order on a date, no slot of it ever exceeds roster minus leave. */
  lemma {:induction false} InOrderNeverOvercommits(site: Site, s: State, events: seq<Event>, g: Gate)
    requires Disjoint(site.grid) && OrderInv(site, s, g) && InOrder(site, s, events, g)
    ensures NoOvercommit(site, Run(site, s, events).rows, g)
    decreases |events|
  {
    if events != [] {
      StepKeepsOrder(site, s, events[0], g);
      InOrderNeverOvercommits(site, Step(site, s, events[0]), events[1..], g);
    }
  }

  /** So each booking that overlaps a slot of such a date has a helper, on the roster and not on leave. */
  lemma SlotsAreStaffed(site: Site, s: State, events: seq<Event>, g: Gate, slot: Slot)
    requires Disjoint(site.grid) && OrderInv(site, s, g) && InOrder(site, s, events, g) && slot in SlotsOf(site, g)
    ensures Staffed(site, g.locality, slot.start / 1440, |Holders(Run(site, s, events).rows, g.locality, slot, {})|)
  {
    InOrderNeverOvercommits(site, s, events, g);
    StaffedIff(site, g.locality, slot.start, |Holders(Run(site, s, events).rows, g.locality, slot, {})|);
  }

  /** One whole gated transaction, run without interruption. */
  function Whole(t: int, job: Job, locality: string, slot: Slot): seq<Event> {
    [Begin(t, job, locality, slot), Lock(t), Recount(t), Write(t), Commit(t)]
  }

  /** The state with a transaction open and, past its first phase, holding its gate. */
  function Opened(s: State, t: int, x: Txn): State {
    State(s.rows, s.txns[t := x], if x.phase.Begun? then s.gates else s.gates[GateFor(x) := t])
  }

  /** Closing it again restores the transactions and gates that were there before. */
  lemma CloseOpened(s: State, t: int, x: Txn, rows: Rows)
    requires t !in s.txns && GateFor(x) !in s.gates && !x.phase.Begun?
    ensures Close(Opened(s, t, x), t, rows) == s.(rows := rows)
  {
  }

  lemma NextPhase(s: State, t: int, x: Txn, phase: Phase)
    requires !x.phase.Begun? && !phase.Begun?
    ensures SetPhase(Opened(s, t, x), t, phase) == Opened(s, t, x.(phase := phase))
  {
  }

  /** Begin and Lock. */
  lemma WholeStart(site: Site, s: State, t: int, job: Job, locality: string, slot: Slot)
    requires MayBegin(site, s, t, job, locality, slot) && GateOf(locality, slot.start) !in s.gates
    ensures Step(site, Step(site, s, Begin(t, job, locality, slot)), Lock(t)) == Opened(s, t, Txn(job, locality, slot, Locked))
  {
  }

  /** Recount, Write and Commit. */
  lemma WholeEnd(site: Site, s: State, t: int, job: Job, locality: string, slot: Slot)
    requires t !in s.txns && GateOf(locality, slot.start) !in s.gates
    ensures var effect := Effect(s.rows, Txn(job, locality, slot, Written));
      Step(site, Step(site, Step(site, Opened(s, t, Txn(job, locality, slot, Locked)), Recount(t)), Write(t)), Commit(t)) ==
        if Available(site, s.rows, locality, slot, Skip(job)) > 0 && effect.Some? then s.(rows := effect.value) else s
  {
    var x := Txn(job, locality, slot, Locked);
    var s2 := Opened(s, t, x);
    if Available(site, s.rows, locality, slot, Skip(job)) > 0 {
      NextPhase(s, t, x, Admitted);
      NextPhase(s, t, x.(phase := Admitted), Written);
      var s4 := Opened(s, t, x.(phase := Written));
      assert Step(site, Step(site, s2, Recount(t)), Write(t)) == s4;
      var effect := Effect(s.rows, x.(phase := Written));
      CloseOpened(s, t, x.(phase := Written), if effect.Some? then effect.value else s.rows);
    } else {
      CloseOpened(s, t, x, s.rows);
      assert Step(site, s2, Recount(t)) == s;
    }
  }

  /** A whole transaction writes its row exactly when its own slot has a seat, and frees its lock either way. */
  lemma WholeOutcome(site: Site, s: State, t: int, job: Job, locality: string, slot: Slot)
    requires MayBegin(site, s, t, job, locality, slot) && GateOf(locality, slot.start) !in s.gates
    ensures var effect := Effect(s.rows, Txn(job, locality, slot, Written));
      Run(site, s, Whole(t, job, locality, slot)) ==
        if Available(site, s.rows, locality, slot, Skip(job)) > 0 && effect.Some? then s.(rows := effect.value) else s
  {
    RunFive(site, s, Begin(t, job, locality, slot), Lock(t), Recount(t), Write(t), Commit(t));
    WholeStart(site, s, t, job, locality, slot);
    WholeEnd(site, s, t, job, locality, slot);
  }

  /** The same with no other transaction open: an inactive slot is refused before anything is locked. */
  lemma WholeAlone(site: Site, s: State, t: int, job: Job, locality: string, slot: Slot)
    requires s.txns == map[] && s.gates == map[]
    requires match job case Create(_, _) => locality != "" case Move(id) => id in s.rows && locality == GateLocality(s.rows[id])
    ensures var effect := Effect(s.rows, Txn(job, locality, slot, Written));
      Run(site, s, Whole(t, job, locality, slot)) ==
        if slot in site.grid && Available(site, s.rows, locality, slot, Skip(job)) > 0 && effect.Some? then s.(rows := effect.value) else s
  {
    if slot in site.grid {
      WholeOutcome(site, s, t, job, locality, slot);
    } else {
      var w := Whole(t, job, locality, slot);
      RunFive(site, s, w[0], w[1], w[2], w[3], w[4]);
    }
  }

  lemma RunCons(site: Site, s: State, e: Event, rest: seq<Event>)
    ensures Run(site, s, [e] + rest) == Run(site, Step(site, s, e), rest)
  {
  }

  lemma RunFive(site: Site, s: State, a: Event, b: Event, c: Event, d: Event, e: Event)
    ensures Run(site, s, [a, b, c, d, e]) == Step(site, Step(site, Step(site, Step(site, Step(site, s, a), b), c), d), e)
  {
    assert [a, b, c, d, e] == [a] + [b, c, d, e] && [b, c, d, e] == [b] + [c, d, e] && [c, d, e] == [c] + [d, e];
    assert [d, e] == [d] + [e] && [e] == [e] + [];
    RunCons(site, s, a, [b, c, d, e]);
    var sa := Step(site, s, a);
    RunCons(site, sa, b, [c, d, e]);
    var sb := Step(site, sa, b);
    RunCons(site, sb, c, [d, e]);
    var sc := Step(site, sb, c);
    RunCons(site, sc, d, [e]);
    RunCons(site, Step(site, sc, d), e, []);
  }

  lemma {:induction false} RunAppend(site: Site, s: State, first: seq<Event>, second: seq<Event>)
    ensures Run(site, s, first + second) == Run(site, Run(site, s, first), second)
    decreases |first|
  {
    if first == [] {
      assert first + second == second;
    } else {
      assert (first + second)[1..] == first[1..] + second;
      RunAppend(site, Step(site, s, first[0]), first[1..], second);
    }
  }

  /**
   Out of order, the gate does overcommit: with one helper, a 30-minute job at 10:00 and then one at
   09:30 (whose padded window runs to 10:15) are both admitted, and the 10:00 slot holds two bookings.
   */
  lemma OutOfOrderOvercommits(locality: string, row: Booking)
    requires row.duration == Some(30) && locality != ""
    ensures var late, early := Slot(600, 630), Slot(570, 600);
      var site := Site(map[locality := 1], map[], {late, early});
      var events := Whole(1, Create(1, row), locality, late) + Whole(2, Create(2, row), locality, early);
      Disjoint(site.grid) && Limit(site, GateOf(locality, late.start)) == 1 &&
      |Holders(Run(site, State(map[], map[], map[]), events).rows, locality, late, {})| == 2
  {
    var late, early := Slot(600, 630), Slot(570, 600);
    var site := Site(map[locality := 1], map[], {late, early});
    var s0 := State(map[], map[], map[]);
    var s1 := s0.(rows := map[1 := Placed(row, locality, late)]);
    var s2 := s0.(rows := map[1 := Placed(row, locality, late), 2 := Placed(row, locality, early)]);
    assert Holders(s0.rows, locality, late, {}) == {};
    WholeOutcome(site, s0, 1, Create(1, row), locality, late);
    assert s1 == Run(site, s0, Whole(1, Create(1, row), locality, late));
    assert Holders(s1.rows, locality, early, {}) == {};
    WholeOutcome(site, s1, 2, Create(2, row), locality, early);
    assert s2 == Run(site, s1, Whole(2, Create(2, row), locality, early));
    RunAppend(site, s0, Whole(1, Create(1, row), locality, late), Whole(2, Create(2, row), locality, early));
    assert Holders(s2.rows, locality, late, {}) == {1, 2};
  }
}
