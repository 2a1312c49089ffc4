/** The bookings table: one row type shared by the capacity, accept and cancel protocols. */
module Bookings {
  import opened Common

  datatype Status = Pending | Searching | Accepted | Arrived | InProgress | Completed | Cancelled

  /** The statuses that hold a helper for the booked window. */
  predicate Committed(s: Status) {
    s.Pending? || s.Searching? || s.Accepted? || s.Arrived? || s.InProgress?
  }

  /** The transition table of UpdateBookingStatus. */
  predicate IsValidTransition(from: Status, to: Status) {
    match from
    case Pending => to.Accepted? || to.Cancelled?
    case Accepted => to.InProgress? || to.Cancelled?
    case InProgress => to.Completed? || to.Cancelled?
    case _ => false
  }

  /** One row. NULL columns are None; amounts are paise; times are IST minutes. */
  datatype Booking = Booking(
    customer: string,
    status: Status,
    helper: Option<string>,
    locality: Option<string>,
    scheduled: Option<int>,
    duration: Option<nat>,
    amount: int,
    discount: int,
    paymentMethod: Option<string>,
    paymentStatus: Option<string>,
    walletApplied: int,
    feeApplied: bool,
    feeCents: int)

  type Rows = map<int, Booking>

  /** A booking climbs one step at a time, and can be cancelled on any but the last. */
  function Stage(s: Status): int {
    match s case Pending => 0 case Accepted => 1 case InProgress => 2 case Completed => 3 case _ => -10
  }

  lemma TransitionsClimb(from: Status, to: Status)
    ensures IsValidTransition(from, to) <==> 0 <= Stage(from) < 3 && (Stage(to) == Stage(from) + 1 || to == Cancelled)
  {
  }

  /** A rescheduled row; an assigned booking goes back to pending and loses its helper. */
  function MovedTo(row: Booking, start: int): Booking {
    if row.helper.Some? then row.(scheduled := Some(start), helper := None, status := Pending)
    else row.(scheduled := Some(start))
  }
}
