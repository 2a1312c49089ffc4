/** The booking repository: each method is one transaction, run to its end against the current tables. */
module BookingRepository {
  import opened Common
  import opened Bookings
  import Capacity
  import Accepting
  import Cancelling

  datatype CreateError = SlotUnavailable | NotWritable

  datatype AcceptError = AlreadyAccepted | HelperAtMaxActive

  datatype AssignError = AlreadyClaimed | ProBusy

  datatype StatusError = NotFound | InvalidTransition

  datatype WindowCapacity = WindowCapacity(slot: Capacity.Slot, roster: nat, onLeave: nat, committed: nat, free: nat)

  datatype AvailabilitySlot = AvailabilitySlot(slot: Capacity.Slot, isAvailable: bool, availableCapacity: nat)

  /** All slots of the day, period after period. */
  function Flat<T>(periods: seq<seq<T>>): seq<T> {
    if periods == [] then [] else periods[0] + Flat(periods[1..])
  }

  lemma {:induction false} FlatPush<T>(periods: seq<seq<T>>, last: seq<T>)
    ensures Flat(periods + [last]) == Flat(periods) + last
  {
    if periods == [] {
      assert periods + [last] == [last];
      assert [last][1..] == [];
    } else {
      assert (periods + [last])[1..] == periods[1..] + [last];
      FlatPush(periods[1..], last);
    }
  }

  class Repository {
    const site: Capacity.Site
    var rows: Rows
    var wallets: map<string, int>
    var queue: map<int, int>

    constructor (site: Capacity.Site)
      ensures this.site == site && rows == map[] && wallets == map[] && queue == map[]
    {
      this.site := site;
      rows, wallets, queue := map[], map[], map[];
    }

    function Books(): Cancelling.Books
      reads this
    {
      Cancelling.Books(rows, wallets, queue)
    }

    function Tables(): Capacity.State
      reads this
    {
      Capacity.State(rows, map[], map[])
    }

    /** One more booking in the slot would still have a helper of its own: on the roster and not on leave that day. */
    predicate Fits(before: Rows, locality: string, slot: Capacity.Slot, skip: set<int>) {
      Capacity.Staffed(site, locality, slot.start / 1440, |Capacity.Holders(before, locality, slot, skip)| + 1)
    }

    /**
     Inserts a booking. The gate runs only for the scheduled flow with a slot and a named locality; there
     the new tables are those the interleavable steps of the gate reach when run alone.
     */
    method CreateScheduledBooking(id: int, row: Booking, locality: Option<string>, slot: Option<Capacity.Slot>,
                                  scheduledTime: int, enforceCapacity: bool)
      returns (r: Result<Booking, CreateError>)
      requires slot.Some? ==> scheduledTime == slot.value.start
      requires row.duration.Some?
      modifies this`rows
      ensures var gated := enforceCapacity && slot.Some? && locality.Some? && locality.value != "";
        && (gated ==> Tables() == Capacity.Run(site, old(Tables()), Capacity.Whole(0, Capacity.Create(id, row), locality.value, slot.value)))
        && (r == Err(SlotUnavailable) <==>
             (slot.Some? && slot.value !in site.grid)
             || (gated && !Fits(old(rows), locality.value, slot.value, {})))
      ensures r.Ok? ==> id !in old(rows) && rows == old(rows)[id := r.value]
      ensures r.Ok? ==> r.value == row.(status := Pending, helper := None, locality := locality, scheduled := Some(scheduledTime))
      ensures r.Err? ==> rows == old(rows)
      ensures r == Err(NotWritable) ==> id in old(rows)
    {
      if slot.Some? && slot.value !in site.grid {
        if locality.Some? && locality.value != "" {
          Capacity.WholeAlone(site, Tables(), 0, Capacity.Create(id, row), locality.value, slot.value);
        }
        return Err(SlotUnavailable);
      }
      if enforceCapacity && slot.Some? && locality.Some? && locality.value != "" {
        Capacity.WholeAlone(site, Tables(), 0, Capacity.Create(id, row), locality.value, slot.value);
        var avail := Capacity.Available(site, rows, locality.value, slot.value, {});
        Capacity.HeadroomIff(site, rows, locality.value, slot.value, {}, 1);
        if avail <= 0 {
          return Err(SlotUnavailable);
        }
      }
      if id in rows {
        return Err(NotWritable);
      }
      rows := rows[id := row.(status := Pending, helper := None, locality := locality, scheduled := Some(scheduledTime))];
      return Ok(rows[id]);
    }

    /** The gated move: the row's own old window is left out of the re-count, and an assigned helper is released. */
    method RescheduleBooking(id: int, slot: Capacity.Slot) returns (r: Result<(), CreateError>)
      requires id in rows
      modifies this`rows
      ensures var row := old(rows)[id];
        var locality := if row.locality.Some? && row.locality.value != "" then row.locality.value else "Orchid Island Gurugram";
        && Tables() == Capacity.Run(site, old(Tables()), Capacity.Whole(0, Capacity.Move(id), locality, slot))
        && (r.Ok? <==> slot in site.grid && Fits(old(rows), locality, slot, {id}))
      ensures rows == if r.Err? then old(rows) else
        var row := old(rows)[id];
        old(rows)[id := row.(scheduled := Some(slot.start), helper := None, status := if row.helper.Some? then Pending else row.status)]
    {
      var locality := Capacity.GateLocality(rows[id]);
      Capacity.WholeAlone(site, Tables(), 0, Capacity.Move(id), locality, slot);
      Capacity.HeadroomIff(site, rows, locality, slot, {id}, 1);
      if slot !in site.grid {
        return Err(SlotUnavailable);
      }
      var avail := Capacity.Available(site, rows, locality, slot, {id});
      if avail <= 0 {
        return Err(SlotUnavailable);
      }
      if rows[id].helper.Some? {
        rows := rows[id := rows[id].(scheduled := Some(slot.start), helper := None, status := Pending)];
      } else {
        rows := rows[id := rows[id].(scheduled := Some(slot.start))];
      }
      return Ok(());
    }

    /** The lock, count and guarded claim of an accept, run alone. */
    method AcceptBooking(id: int, helper: string, maxActive: int) returns (r: Result<(), AcceptError>)
      modifies this`rows
      ensures var end := Accepting.Run(maxActive, Accepting.Fresh(old(rows)), Accepting.Whole(Accepting.Begin(0, id, helper), 0));
        rows == end.rows && 0 in end.done && (r.Ok? <==> end.done[0].Won?)
        && (r == Err(HelperAtMaxActive) <==> end.done[0].AtMaxActive?)
      ensures var holds := set b | b in old(rows) && old(rows)[b].helper == Some(helper) && (old(rows)[b].status == Accepted || old(rows)[b].status == InProgress);
        && (r == Err(HelperAtMaxActive) <==> |holds| >= maxActive)
        && (r.Ok? <==> |holds| < maxActive && id in old(rows) && old(rows)[id].status in {Pending, Searching})
      ensures rows == if r.Ok? then old(rows)[id := old(rows)[id].(helper := Some(helper), status := Accepted)] else old(rows)
    {
      Accepting.WholeOutcome(maxActive, rows, 0, id, helper);
      Accepting.ActiveIs(rows, helper);
      var activeCount := |Accepting.Active(rows, helper)|;
      if activeCount >= maxActive {
        return Err(HelperAtMaxActive);
      }
      if !Accepting.Claimable(rows, id) {
        return Err(AlreadyAccepted);
      }
      rows := rows[id := rows[id].(helper := Some(helper), status := Accepted)];
      return Ok(());
    }

    /**
     The dispatcher's lock, clash probe and guarded claim, run alone. The window is the one it loaded earlier; `pad` is the
     travel buffer.
     */
    method Assign(id: int, start: int, duration: nat, helper: string, pad: nat) returns (r: Result<(), AssignError>)
      modifies this`rows
      ensures var a := Accepting.Attempt(id, helper, Accepting.Probing(start, duration, pad), Accepting.Begun);
        var end := Accepting.Run(0, Accepting.Opened(Accepting.Fresh(old(rows)), 0, a), Accepting.Rest(0));
        rows == end.rows && 0 in end.done && (r.Ok? <==> end.done[0].Won?) && (r == Err(ProBusy) <==> end.done[0].ProBusy?)
      ensures r == Err(ProBusy) <==> exists other, t ::
        other in old(rows) && other != id && Accepting.BusyAt(old(rows)[other], helper, t, pad) && During(t, start, start + duration + pad)
      ensures r == Err(AlreadyClaimed) ==> id !in old(rows) || !old(rows)[id].status.Pending? || old(rows)[id].helper.Some?
      ensures r.Ok? ==> id in old(rows) && old(rows)[id].status.Pending? && old(rows)[id].helper.None?
      ensures rows == if r.Ok? then old(rows)[id := old(rows)[id].(helper := Some(helper), status := Accepted)] else old(rows)
    {
      Accepting.RestEnds(0, Accepting.Fresh(rows), 0, Accepting.Attempt(id, helper, Accepting.Probing(start, duration, pad), Accepting.Begun));
      Accepting.ClashIff(rows, helper, id, start, duration, pad);
      var clash := exists other :: other in rows && other != id && Accepting.ClashesWith(rows[other], helper, start, duration, pad);
      if clash {
        return Err(ProBusy);
      }
      if id !in rows || rows[id].helper.Some? || !rows[id].status.Pending? {
        return Err(AlreadyClaimed);
      }
      rows := rows[id := rows[id].(helper := Some(helper), status := Accepted)];
      return Ok(());
    }

    method UpdateBookingStatus(id: int, status: Status) returns (r: Result<(), StatusError>)
      modifies this`rows
      ensures r == Err(NotFound) <==> id !in old(rows)
      ensures r.Ok? ==> 0 <= Stage(old(rows)[id].status) < 3 && (Stage(status) == Stage(old(rows)[id].status) + 1 || status == Cancelled)
      ensures r.Ok? <==> id in old(rows) && IsValidTransition(old(rows)[id].status, status)
      ensures rows == if r.Ok? then old(rows)[id := old(rows)[id].(status := status)] else old(rows)
    {
      if id !in rows {
        return Err(NotFound);
      }
      TransitionsClimb(rows[id].status, status);
      if !IsValidTransition(rows[id].status, status) {
        return Err(InvalidTransition);
      }
      rows := rows[id := rows[id].(status := status)];
      return Ok(());
    }

    /**
     Cancel, clamp the fee, and send the refund down its rail. The fee kept is the most that neither the notional fee nor the
     net paid forbids, so a customer who gets anything back has been charged the whole fee.
     */
    method CancelBookingWithFee(id: int, feeCents: int, hasWallet: bool) returns (r: Result<int, Cancelling.Refusal>)
      modifies this
      ensures (r, Books()) == Cancelling.Cancel(old(Books()), id, feeCents, hasWallet)
      ensures r.Ok? <==> id in old(rows) && (old(rows)[id].status == Pending || old(rows)[id].status == Accepted)
      ensures r.Ok? ==>
        var b := old(rows)[id];
        && rows == old(rows)[id := b.(status := Cancelled, feeApplied := r.value > 0, feeCents := r.value)]
        && (feeCents >= 0 ==> Cancelling.GreatestFee(b, feeCents, r.value))
        && ((wallets, queue) != (old(wallets), old(queue)) ==> r.value == feeCents)
      ensures r.Err? ==> rows == old(rows) && wallets == old(wallets) && queue == old(queue)
    {
      if id !in rows || !(rows[id].status.Pending? || rows[id].status.Accepted?) {
        return Err(Cancelling.NotCancellable);
      }
      var b := rows[id];
      if feeCents >= 0 {
        Cancelling.FeeIsGreatest(b, feeCents);
      }
      var paid := b.paymentStatus == Some("paid");
      var netPaid := 0;
      if paid {
        netPaid := b.amount - b.discount;
        if netPaid < 0 {
          netPaid := 0;
        }
      }
      var effectiveFee := feeCents;
      if effectiveFee > netPaid {
        effectiveFee := netPaid;
      }
      var feeApplied := effectiveFee > 0;
      rows := rows[id := b.(status := Cancelled, feeApplied := feeApplied, feeCents := effectiveFee)];
      var refundAmount := netPaid - effectiveFee;
      if hasWallet && refundAmount > 0 {
        RecordBookingRefund(id, b, refundAmount);
      }
      return Ok(effectiveFee);
    }

    /** The shared refund router: wallet credit, refund-queue row, or nothing. */
    method RecordBookingRefund(id: int, b: Booking, amount: int)
      modifies this`wallets, this`queue
      ensures var m := Cancelling.Route(b, amount, id in old(queue));
        && wallets == (if m.wallet > 0
             then old(wallets)[b.customer := Cancelling.Balance(old(wallets), b.customer) + m.wallet] else old(wallets))
        && queue == if m.queued > 0 then old(queue)[id := m.queued] else old(queue)
      ensures Cancelling.RoutedRight(b, amount, id in old(queue), Cancelling.Route(b, amount, id in old(queue)))
    {
      Cancelling.RoutedIff(b, amount, id in old(queue), Cancelling.Route(b, amount, id in old(queue)));
      if b.paymentStatus != Some("paid") || amount <= 0 || b.paymentMethod.None? {
        return;
      }
      if b.paymentMethod.value == "wallet" {
        Credit(b.customer, amount);
      } else if b.paymentMethod.value == "cashfree" {
        var walletPart := b.walletApplied;
        if walletPart > amount {
          walletPart := amount;
        }
        var cashfreePart := amount - walletPart;
        if walletPart > 0 {
          Credit(b.customer, walletPart);
        }
        if cashfreePart > 0 && id !in queue {
          queue := queue[id := cashfreePart];
        }
      }
    }

    method Credit(customer: string, amount: int)
      modifies this`wallets
      ensures wallets == old(wallets)[customer := Cancelling.Balance(old(wallets), customer) + amount]
    {
      wallets := wallets[customer := Cancelling.Balance(wallets, customer) + amount];
    }

    /** The window's figures: helpers on the roster and on leave, bookings in the slot, and how many more it can take. */
    predicate Describes(w: WindowCapacity, locality: string, date: int)
      reads this
    {
      && w.roster == (if locality in site.roster then site.roster[locality] else 0)
      && w.onLeave == (if Capacity.Gate(locality, date) in site.leave then site.leave[Capacity.Gate(locality, date)] else 0)
      && w.committed == |Capacity.Holders(rows, locality, w.slot, {})|
      && w.free == (if w.roster > w.onLeave + w.committed then w.roster - w.onLeave - w.committed else 0)
    }

    function CapacityOf(locality: string, date: int, slot: Capacity.Slot): WindowCapacity
      reads this
    {
      var g := Capacity.Gate(locality, date);
      var roster := Capacity.RosterOf(site, g);
      var onLeave := Capacity.LeaveOf(site, g);
      var committed := |Capacity.Holders(rows, locality, slot, {})|;
      WindowCapacity(slot, roster, onLeave, committed, if roster - onLeave - committed < 0 then 0 else roster - onLeave - committed)
    }

    /** The day's capacity breakdown: one window a slot, in order, each with the headroom the gate would see. */
    method CapacityForDate(locality: string, date: int, periods: seq<seq<Capacity.Slot>>) returns (out: seq<WindowCapacity>)
      requires forall p, s :: p in periods && s in p ==> s.start / Capacity.MINUTES_PER_DAY == date
      ensures |out| == |Flat(periods)|
      ensures forall i :: 0 <= i < |out| ==> out[i].slot == Flat(periods)[i] && Describes(out[i], locality, date)
    {
      out := [];
      for i := 0 to |periods|
        invariant |out| == |Flat(periods[..i])|
        invariant forall k :: 0 <= k < |out| ==> out[k] == CapacityOf(locality, date, Flat(periods[..i])[k])
      {
        var p := periods[i];
        FlatPush(periods[..i], p);
        assert periods[..i + 1] == periods[..i] + [p];
        ghost var before := Flat(periods[..i]);
        for j := 0 to |p|
          invariant |out| == |before| + j
          invariant forall k :: 0 <= k < |out| ==> out[k] == CapacityOf(locality, date, (before + p)[k])
        {
          out := out + [CapacityOf(locality, date, p[j])];
        }
      }
      assert periods[..|periods|] == periods;
      forall i | 0 <= i < |out| ensures Flat(periods)[i].start / Capacity.MINUTES_PER_DAY == date {
        FlatMember(periods, i);
      }
    }

    /** The picker's view of the day: a slot stays available only while the gate would still admit it. */
    method GetSlotAvailability(locality: string, date: int, periods: seq<seq<AvailabilitySlot>>) returns (out: seq<seq<AvailabilitySlot>>)
      requires forall p, s :: p in periods && s in p ==> s.slot.start / Capacity.MINUTES_PER_DAY == date
      ensures |out| == |periods| && forall i :: 0 <= i < |out| ==> |out[i]| == |periods[i]|
      ensures forall i, j :: 0 <= i < |out| && 0 <= j < |out[i]| ==>
        var avail := Capacity.Available(site, rows, locality, periods[i][j].slot, {});
        out[i][j] == AvailabilitySlot(periods[i][j].slot, periods[i][j].isAvailable && avail > 0, avail)
      ensures forall i, j :: 0 <= i < |out| && 0 <= j < |out[i]| ==>
        (out[i][j].isAvailable <==> periods[i][j].isAvailable && Fits(rows, locality, periods[i][j].slot, {}))
    {
      forall slot: Capacity.Slot ensures Capacity.Available(site, rows, locality, slot, {}) > 0 <==> Fits(rows, locality, slot, {}) {
        Capacity.HeadroomIff(site, rows, locality, slot, {}, 1);
      }
      out := [];
      for i := 0 to |periods|
        invariant |out| == i && forall k :: 0 <= k < i ==> |out[k]| == |periods[k]|
        invariant forall k, j :: 0 <= k < i && 0 <= j < |out[k]| ==>
          var avail := Capacity.Available(site, rows, locality, periods[k][j].slot, {});
          out[k][j] == AvailabilitySlot(periods[k][j].slot, periods[k][j].isAvailable && avail > 0, avail)
      {
        var ap: seq<AvailabilitySlot> := [];
        for j := 0 to |periods[i]|
          invariant |ap| == j
          invariant forall k :: 0 <= k < j ==>
            var avail := Capacity.Available(site, rows, locality, periods[i][k].slot, {});
            ap[k] == AvailabilitySlot(periods[i][k].slot, periods[i][k].isAvailable && avail > 0, avail)
        {
          var sl := periods[i][j];
          assert periods[i] in periods && sl in periods[i];
          var free := CapacityOf(locality, date, sl.slot).free;
          ap := ap + [AvailabilitySlot(sl.slot, sl.isAvailable && free > 0, free)];
        }
        out := out + [ap];
      }
    }
  }

  lemma {:induction false} FlatMember<T>(periods: seq<seq<T>>, i: nat)
    requires i < |Flat(periods)|
    ensures exists p :: p in periods && Flat(periods)[i] in p
  {
    if i < |periods[0]| {
      assert periods[0] in periods;
    } else {
      var rest := i - |periods[0]|;
      FlatMember(periods[1..], rest);
      var p :| p in periods[1..] && Flat(periods[1..])[rest] in p;
      assert p in periods && Flat(periods)[i] == Flat(periods[1..])[rest];
    }
  }
}
