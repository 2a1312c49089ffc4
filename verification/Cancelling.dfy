/** Cancellation: the fee is clamped to the net amount paid and the rest is routed as a refund. */
module Cancelling {
  import opened Common
  import opened Bookings

  /** The bookings, the wallet balances, and the live refund-queue row of each booking. */
  datatype Books = Books(rows: Rows, wallets: map<string, int>, queue: map<int, int>)

  datatype Refusal = NotCancellable

  predicate Cancellable(b: Booking) { b.status.Pending? || b.status.Accepted? }

  function NetPaid(b: Booking): nat {
    if b.paymentStatus == Some("paid") && b.amount > b.discount then b.amount - b.discount else 0
  }

  function EffectiveFee(b: Booking, fee: int): int {
    if fee > NetPaid(b) then NetPaid(b) else fee
  }

  function Refund(b: Booking, fee: int): int { NetPaid(b) - EffectiveFee(b, fee) }

  /** What reaches the wallet and what reaches the refund queue. */
  datatype Routing = Routing(wallet: int, queued: int)

  /** The refund router; `live` says whether the booking already has a live queue row. */
  function Route(b: Booking, refund: int, live: bool): Routing {
    if b.paymentStatus != Some("paid") || refund <= 0 || b.paymentMethod.None? then Routing(0, 0)
    else if b.paymentMethod.value == "wallet" then Routing(refund, 0)
    else if b.paymentMethod.value == "cashfree" then
      var walletPart := if b.walletApplied > refund then refund else b.walletApplied;
      var gatewayPart := refund - walletPart;
      Routing(if walletPart > 0 then walletPart else 0, if gatewayPart > 0 && !live then gatewayPart else 0)
    else Routing(0, 0)
  }

  function Moves(b: Booking, fee: int, live: bool, hasWallet: bool): Routing {
    if hasWallet && Refund(b, fee) > 0 then Route(b, Refund(b, fee), live) else Routing(0, 0)
  }

  function Stamped(b: Booking, fee: int): Booking {
    b.(status := Cancelled, feeApplied := EffectiveFee(b, fee) > 0, feeCents := EffectiveFee(b, fee))
  }

  function Balance(wallets: map<string, int>, customer: string): int {
    if customer in wallets then wallets[customer] else 0
  }

  /** The whole cancel transaction. */
  function Cancel(s: Books, id: int, fee: int, hasWallet: bool): (Result<int, Refusal>, Books) {
    if id !in s.rows || !Cancellable(s.rows[id]) then (Err(NotCancellable), s)
    else
      var b := s.rows[id];
      var m := Moves(b, fee, id in s.queue, hasWallet);
      (Ok(EffectiveFee(b, fee)),
       Books(s.rows[id := Stamped(b, fee)],
             if m.wallet > 0 then s.wallets[b.customer := Balance(s.wallets, b.customer) + m.wallet] else s.wallets,
             if m.queued > 0 then s.queue[id := m.queued] else s.queue))
  }

  // ---- One settlement ----

  /** When the rails carry the whole refund: nothing to move, or a rail that accepts it. */
  predicate Routable(b: Booking, fee: int, live: bool, hasWallet: bool) {
    || Refund(b, fee) == 0
    || (hasWallet && b.paymentMethod == Some("wallet"))
    || (hasWallet && b.paymentMethod == Some("cashfree") && b.walletApplied >= 0 && (b.walletApplied >= Refund(b, fee) || !live))
  }

  /**
   With a non-negative notional fee the effective fee lies between zero and both the notional fee and
   the net paid, and fee plus money moved is the net paid exactly when the refund is routable.
   */
  lemma SettlementExact(b: Booking, fee: nat, live: bool, hasWallet: bool)
    ensures 0 <= EffectiveFee(b, fee) <= fee && EffectiveFee(b, fee) <= NetPaid(b)
    ensures var m := Moves(b, fee, live, hasWallet); m.wallet >= 0 && m.queued >= 0
    ensures var m := Moves(b, fee, live, hasWallet);
      EffectiveFee(b, fee) + m.wallet + m.queued == NetPaid(b) <==> Routable(b, fee, live, hasWallet)
    ensures var m := Moves(b, fee, live, hasWallet);
      b.walletApplied >= 0 ==> EffectiveFee(b, fee) + m.wallet + m.queued <= NetPaid(b)
    ensures b.paymentStatus != Some("paid") ==> EffectiveFee(b, fee) == 0 && Moves(b, fee, live, hasWallet) == Routing(0, 0)
  {
  }

  /** What may be kept as a fee: no more than the notional fee, and of a paid booking no more than amount less discount. */
  predicate MayKeep(b: Booking, fee: nat, kept: int) {
    0 <= kept <= fee && (kept > 0 ==> b.paymentStatus == Some("paid") && kept <= b.amount - b.discount)
  }

  ghost predicate GreatestFee(b: Booking, fee: nat, kept: int) {
    MayKeep(b, fee, kept) && forall f :: MayKeep(b, fee, f) ==> f <= kept
  }

  /** The fee kept is the greatest there may be; whoever gets anything back has been charged the whole notional fee. */
  lemma FeeIsGreatest(b: Booking, fee: nat)
    ensures GreatestFee(b, fee, EffectiveFee(b, fee))
    ensures Refund(b, fee) > 0 ==> EffectiveFee(b, fee) == fee
  {
  }

  /**
   What the rails must do with a refund: nothing of an unpaid or empty one; all of a wallet payment into the wallet; of a
   gateway payment as much into the wallet as was taken from it, and the rest into the queue unless a row is there already.
   */
  ghost predicate RoutedRight(b: Booking, refund: int, live: bool, m: Routing) {
    var owed := if b.paymentStatus == Some("paid") && refund > 0 then refund else 0;
    && m.wallet >= 0 && m.queued >= 0
    && (b.paymentMethod == Some("wallet") ==> m == Routing(owed, 0))
    && (b.paymentMethod == Some("cashfree") && b.walletApplied >= 0 ==>
          && m.wallet <= b.walletApplied
          && (m.wallet < owed ==> m.wallet == b.walletApplied)
          && m.wallet <= owed
          && (if live then m.queued == 0 else m.wallet + m.queued == owed))
    && (b.paymentMethod != Some("wallet") && b.paymentMethod != Some("cashfree") ==> m == Routing(0, 0))
  }

  /** With no negative wallet part there is one right way, and the router takes it. */
  lemma RoutedIff(b: Booking, refund: int, live: bool, m: Routing)
    ensures RoutedRight(b, refund, live, Route(b, refund, live))
    ensures b.walletApplied >= 0 && RoutedRight(b, refund, live, m) ==> m == Route(b, refund, live)
  {
  }

  /** Only a negative notional fee refunds more than was paid. */
  lemma OverRefundIff(b: Booking, fee: int)
    ensures Refund(b, fee) > NetPaid(b) <==> fee < 0
  {
  }

  // ---- Whole runs ----

  /**
   NoProFound is the dispatcher's cancellation of a booking it could place with nobody, which refunds the whole net,
   CancelOnly every cancellation that settles nothing (a helper's, an admin's, a plain status update), Advance any other
   permitted status move, Move the write of a reschedule, whose status check may be out of date, and Pay a payment stamp.
   */
  datatype Event =
    | CancelWithFee(id: int, fee: int, hasWallet: bool)
    | NoProFound(id: int, hasWallet: bool)
    | CancelOnly(id: int)
    | Advance(id: int, status: Status)
    | Move(id: int, start: int)
    | Pay(id: int, payment: Option<string>, paidBy: Option<string>)

  predicate Unplaced(b: Booking) { b.status.Pending? && b.helper.None? }

  predicate Closed(b: Booking) { b.status.Cancelled? || b.status.Completed? }

  function SetRow(s: Books, id: int, row: Booking): Books { s.(rows := s.rows[id := row]) }

  function Step(s: Books, e: Event): Books {
    match e
    case CancelWithFee(id, fee, hasWallet) => Cancel(s, id, fee, hasWallet).1
    case NoProFound(id, hasWallet) =>
      if id in s.rows && Unplaced(s.rows[id])
      then Cancel(s, id, 0, hasWallet).1.(rows := s.rows[id := s.rows[id].(status := Cancelled)]) else s
    case CancelOnly(id) =>
      if id in s.rows && !Closed(s.rows[id]) then SetRow(s, id, s.rows[id].(status := Cancelled)) else s
    case Advance(id, status) =>
      if id in s.rows && !status.Cancelled? && IsValidTransition(s.rows[id].status, status)
      then SetRow(s, id, s.rows[id].(status := status)) else s
    case Move(id, start) =>
      if id in s.rows then SetRow(s, id, MovedTo(s.rows[id], start)) else s
    case Pay(id, payment, paidBy) =>
      if id in s.rows then SetRow(s, id, s.rows[id].(paymentStatus := payment, paymentMethod := paidBy)) else s
  }

  function Run(s: Books, events: seq<Event>): Books
    decreases |events|
  {
    if events == [] then s else Run(Step(s, events[0]), events[1..])
  }

  predicate Settles(s: Books, e: Event) {
    && e.id in s.rows
    && ((e.CancelWithFee? && Cancellable(s.rows[e.id])) || (e.NoProFound? && Unplaced(s.rows[e.id])))
  }

  /** The notional fee of a settlement. */
  function FeeFor(e: Event): int { if e.CancelWithFee? then e.fee else 0 }

  /** The net collected on the bookings a run settles, each at the time it is settled. */
  function NetSettled(s: Books, events: seq<Event>): int
    decreases |events|
  {
    if events == [] then 0
    else (if Settles(s, events[0]) then NetPaid(s.rows[events[0].id]) else 0) + NetSettled(Step(s, events[0]), events[1..])
  }

  /** The fees a run retains. */
  function FeesKept(s: Books, events: seq<Event>): int
    decreases |events|
  {
    if events == [] then 0
    else (if Settles(s, events[0]) then EffectiveFee(s.rows[events[0].id], FeeFor(events[0])) else 0) + FeesKept(Step(s, events[0]), events[1..])
  }

  /** Money given back, in wallets and in the refund queue. */
  ghost function PaidBack(s: Books): int { SumMap(s.wallets) + SumMap(s.queue) }

  /** A settlement gives back exactly what its rails carry. */
  lemma CancelMoves(s: Books, e: Event)
    requires Settles(s, e)
    ensures var m := Moves(s.rows[e.id], FeeFor(e), e.id in s.queue, e.hasWallet);
      m.wallet >= 0 && m.queued >= 0 && PaidBack(Step(s, e)) == PaidBack(s) + m.wallet + m.queued
  {
    var b := s.rows[e.id];
    var m := Moves(b, FeeFor(e), e.id in s.queue, e.hasWallet);
    SumMapWrite(s.wallets, b.customer, Balance(s.wallets, b.customer) + m.wallet);
    SumMapWrite(s.queue, e.id, m.queued);
  }

  ghost predicate AllRoutable(s: Books, events: seq<Event>)
    decreases |events|
  {
    events != [] ==>
      && (Settles(s, events[0]) ==>
            Routable(s.rows[events[0].id], FeeFor(events[0]), events[0].id in s.queue, events[0].hasWallet))
      && AllRoutable(Step(s, events[0]), events[1..])
  }

  /** No booking has a negative wallet part, and no notional fee is negative. */
  ghost predicate SaneInputs(rows: Rows, events: seq<Event>) {
    && (forall id :: id in rows ==> rows[id].walletApplied >= 0)
    && (forall e :: e in events && e.CancelWithFee? ==> e.fee >= 0)
  }

  /** What one step adds to the books: never more than the net, and exactly the net if it settles nothing or is routable. */
  lemma StepBalance(s: Books, e: Event)
    requires SaneInputs(s.rows, [e])
    ensures SaneInputs(Step(s, e).rows, [e])
    ensures var given := PaidBack(Step(s, e)) - PaidBack(s) + if Settles(s, e) then EffectiveFee(s.rows[e.id], FeeFor(e)) else 0;
      var net := if Settles(s, e) then NetPaid(s.rows[e.id]) else 0;
      && given <= net
      && (given == net <==> (Settles(s, e) ==> Routable(s.rows[e.id], FeeFor(e), e.id in s.queue, e.hasWallet)))
  {
    assert e in [e];
    if Settles(s, e) {
      CancelMoves(s, e);
      SettlementExact(s.rows[e.id], FeeFor(e), e.id in s.queue, e.hasWallet);
    } else {
      assert Step(s, e).wallets == s.wallets && Step(s, e).queue == s.queue;
    }
  }

  /**
   Conservation over every run, other cancellations, reschedules and payments included: what is given back and what is
   retained never exceed the net collected on the settled bookings, and make it up exactly when every settlement is routable.
   */
  lemma {:induction false} RunConservesIff(s: Books, events: seq<Event>)
    requires SaneInputs(s.rows, events)
    ensures PaidBack(Run(s, events)) - PaidBack(s) + FeesKept(s, events) <= NetSettled(s, events)
    ensures PaidBack(Run(s, events)) - PaidBack(s) + FeesKept(s, events) == NetSettled(s, events) <==> AllRoutable(s, events)
    decreases |events|
  {
    if events != [] {
      var e := events[0];
      assert e in events;
      StepBalance(s, e);
      assert forall f :: f in events[1..] ==> f in events;
      RunConservesIff(Step(s, e), events[1..]);
    }
  }

  // ---- The same, read off the tables ----

  function FeeOf(b: Booking): int { if b.status.Cancelled? then b.feeCents else 0 }

  function PaidOf(b: Booking): int { if b.status.Cancelled? then NetPaid(b) else 0 }

  function Fees(rows: Rows): map<int, int> { map id | id in rows :: FeeOf(rows[id]) }

  function Paid(rows: Rows): map<int, int> { map id | id in rows :: PaidOf(rows[id]) }

  lemma RowWrite(rows: Rows, id: int, row: Booking)
    requires id in rows
    ensures SumMap(Fees(rows[id := row])) == SumMap(Fees(rows)) + FeeOf(row) - FeeOf(rows[id])
    ensures SumMap(Paid(rows[id := row])) == SumMap(Paid(rows)) + PaidOf(row) - PaidOf(rows[id])
  {
    assert Fees(rows[id := row]) == Fees(rows)[id := FeeOf(row)];
    assert Paid(rows[id := row]) == Paid(rows)[id := PaidOf(row)];
    SumMapWrite(Fees(rows), id, FeeOf(row));
    SumMapWrite(Paid(rows), id, PaidOf(row));
  }

  /** Every cancellation settles, and closed bookings are left alone. */
  ghost predicate SettlesOnly(events: seq<Event>) { forall e :: e in events ==> e.CancelWithFee? || e.Advance? }

  /** Then the cancelled rows say what was retained and what was collected. */
  lemma {:induction false} TablesTell(s: Books, events: seq<Event>)
    requires SettlesOnly(events)
    ensures FeesKept(s, events) == SumMap(Fees(Run(s, events).rows)) - SumMap(Fees(s.rows))
    ensures NetSettled(s, events) == SumMap(Paid(Run(s, events).rows)) - SumMap(Paid(s.rows))
    decreases |events|
  {
    if events != [] {
      var e := events[0];
      assert e in events && forall f :: f in events[1..] ==> f in events;
      var s' := Step(s, e);
      if Settles(s, e) {
        RowWrite(s.rows, e.id, Stamped(s.rows[e.id], e.fee));
      } else if e.Advance? && s' != s {
        RowWrite(s.rows, e.id, s.rows[e.id].(status := e.status));
      }
      TablesTell(s', events[1..]);
    }
  }

  /** Refunds plus the fees on cancelled bookings, less the net collected on them. */
  ghost function Surplus(s: Books): int { PaidBack(s) + SumMap(Fees(s.rows)) - SumMap(Paid(s.rows)) }

  /** Total refunds plus the fees on cancelled bookings equal the net collected on them, exactly when all were routable. */
  lemma RunConserves(s: Books, events: seq<Event>)
    requires SaneInputs(s.rows, events) && SettlesOnly(events)
    ensures AllRoutable(s, events) <==> Surplus(s) == Surplus(Run(s, events))
  {
    RunConservesIff(s, events);
    TablesTell(s, events);
  }

  // ---- How often a booking is settled ----

  /** How many cancels of one booking settle it in a run. */
  function Settlements(s: Books, events: seq<Event>, id: int): nat
    decreases |events|
  {
    if events == [] then 0
    else (if Settles(s, events[0]) && events[0].id == id then 1 else 0) + Settlements(Step(s, events[0]), events[1..], id)
  }

  /** A reschedule that writes an assigned booking after it was closed. */
  predicate Reopens(s: Books, e: Event, id: int) {
    e.Move? && e.id == id && id in s.rows && Closed(s.rows[id]) && s.rows[id].helper.Some?
  }

  function Reopenings(s: Books, events: seq<Event>, id: int): nat
    decreases |events|
  {
    if events == [] then 0
    else (if Reopens(s, events[0], id) then 1 else 0) + Reopenings(Step(s, events[0]), events[1..], id)
  }

  /** A booking is settled at most once, and once more for each time a late reschedule reopens it; closed, only then. */
  lemma {:induction false} SettledOncePerOpening(s: Books, events: seq<Event>, id: int)
    ensures Settlements(s, events, id) <= (if id in s.rows && Closed(s.rows[id]) then 0 else 1) + Reopenings(s, events, id)
    decreases |events|
  {
    if events != [] {
      SettledOncePerOpening(Step(s, events[0]), events[1..], id);
    }
  }

  predicate SettlesIt(s: Books, e: Event, id: int) { Settles(s, e) && e.id == id }

  /** The booking is settled at some step of the run. */
  ghost predicate Settled(s: Books, events: seq<Event>, id: int)
    decreases |events|
  {
    events != [] && (SettlesIt(s, events[0], id) || Settled(Step(s, events[0]), events[1..], id))
  }

  /** It is reopened, and settled at some later step. */
  ghost predicate ReopenedSettled(s: Books, events: seq<Event>, id: int)
    decreases |events|
  {
    events != [] && ((Reopens(s, events[0], id) && Settled(Step(s, events[0]), events[1..], id))
                     || ReopenedSettled(Step(s, events[0]), events[1..], id))
  }

  /** It is settled, later reopened by a late reschedule, and later settled. */
  ghost predicate SettledReopenedSettled(s: Books, events: seq<Event>, id: int)
    decreases |events|
  {
    events != [] && ((SettlesIt(s, events[0], id) && ReopenedSettled(Step(s, events[0]), events[1..], id))
                     || SettledReopenedSettled(Step(s, events[0]), events[1..], id))
  }

  lemma {:induction false} SettledIff(s: Books, events: seq<Event>, id: int)
    ensures Settled(s, events, id) <==> Settlements(s, events, id) >= 1
    decreases |events|
  {
    if events != [] {
      SettledIff(Step(s, events[0]), events[1..], id);
    }
  }

  /** A closed booking is settled exactly after a reschedule has reopened it. */
  lemma {:induction false} ClosedSettledIff(s: Books, events: seq<Event>, id: int)
    requires id in s.rows && Closed(s.rows[id])
    ensures Settlements(s, events, id) >= 1 <==> ReopenedSettled(s, events, id)
    decreases |events|
  {
    if events != [] {
      var s' := Step(s, events[0]);
      SettledIff(s', events[1..], id);
      if Closed(s'.rows[id]) {
        ClosedSettledIff(s', events[1..], id);
      } else {
        ReopenedAreSettled(s', events[1..], id);
      }
    }
  }

  lemma {:induction false} ReopenedAreSettled(s: Books, events: seq<Event>, id: int)
    ensures ReopenedSettled(s, events, id) ==> Settled(s, events, id)
    decreases |events|
  {
    if events != [] {
      ReopenedAreSettled(Step(s, events[0]), events[1..], id);
    }
  }

  /** A booking is settled more than once exactly when, between two settlements, a late reschedule reopens it. */
  lemma {:induction false} SettledAgainIff(s: Books, events: seq<Event>, id: int)
    ensures Settlements(s, events, id) >= 2 <==> SettledReopenedSettled(s, events, id)
    decreases |events|
  {
    if events != [] {
      var s' := Step(s, events[0]);
      SettledAgainIff(s', events[1..], id);
      if SettlesIt(s, events[0], id) {
        ClosedSettledIff(s', events[1..], id);
        AgainIsAfterReopening(s', events[1..], id);
      }
    }
  }

  lemma {:induction false} AgainIsAfterReopening(s: Books, events: seq<Event>, id: int)
    ensures SettledReopenedSettled(s, events, id) ==> ReopenedSettled(s, events, id)
    decreases |events|
  {
    if events != [] {
      AgainIsAfterReopening(Step(s, events[0]), events[1..], id);
    }
  }

  /** It does happen: a reschedule that checked the status before the cancellation writes after it, and the net is refunded twice. */
  lemma SettledTwice(b: Booking, start: int)
    requires b.status.Accepted? && b.helper.Some? && NetPaid(b) > 0 && b.paymentMethod == Some("wallet")
    ensures var s := Books(map[1 := b], map[], map[]);
      var events := [CancelWithFee(1, 0, true), Move(1, start), CancelWithFee(1, 0, true)];
      Settlements(s, events, 1) == 2 && Balance(Run(s, events).wallets, b.customer) == 2 * NetPaid(b)
  {
    var s := Books(map[1 := b], map[], map[]);
    var events := [CancelWithFee(1, 0, true), Move(1, start), CancelWithFee(1, 0, true)];
    var s1 := Step(s, events[0]);
    var s2 := Step(s1, events[1]);
    var s3 := Step(s2, events[2]);
    assert events[1..][0] == events[1] && events[1..][1..] == [events[2]] && [events[2]][1..] == [];
    assert Run(s2, [events[2]]) == s3 && Settlements(s2, [events[2]], 1) == 1;
    assert Run(s1, events[1..]) == s3 && Settlements(s1, events[1..], 1) == 1;
  }
}
