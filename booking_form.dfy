/**
 * The "New Booking" dialog of ui/booking.py: which rooms it offers, the
 * total it previews, and the checks `submit` makes before it calls
 * `create_booking`. Dates are day numbers. The room the user picks is the
 * row the dialog listed when it opened, so its price is that snapshot's.
 */
module BookingForm {
  import opened Common
  import opened Schema
  import Tables
  import Store
  import Lifecycle

  // ---------------------------------------------------------------------
  // The room selector
  // ---------------------------------------------------------------------

  /** The rows the room selector offers: the available ones, in the order listed. */
  function Offered(rows: seq<(nat, Room)>): (r: seq<(nat, Room)>)
    ensures forall i :: 0 <= i < |r| ==> r[i].1.status == Available
    ensures forall x :: x in r <==> x in rows && x.1.status == Available
    ensures |r| <= |rows|
  {
    if rows == [] then []
    else
      var rest := Offered(rows[1..]);
      assert forall x :: x in rows <==> x == rows[0] || x in rows[1..];
      if rows[0].1.status == Available then [rows[0]] + rest else rest
  }

  // ---------------------------------------------------------------------
  // calc_total
  // ---------------------------------------------------------------------

  /** The total label: left as it was, the date warning, or nights × price = total. */
  datatype Preview = Unchanged | Warning | Line(nights: int, price: real, total: real)

  /** The stay in nights: the difference of the two day numbers. */
  function Nights(checkIn: int, checkOut: int): int {
    checkOut - checkIn
  }

  /** The price of a stay: nights × the nightly price. */
  function StayTotal(nights: int, price: real): real {
    nights as real * price
  }

  /**
   * `calc_total`: a stay of no night warns whatever the room; otherwise with
   * a room chosen it shows nights, the room's price and their product.
   */
  function CalcTotal(room: Option<(nat, Room)>, checkIn: int, checkOut: int): (p: Preview)
    ensures p.Warning? <==> checkOut <= checkIn
    ensures p.Unchanged? <==> checkIn < checkOut && room.None?
    ensures p.Line? ==> room.Some? && p.nights == checkOut - checkIn > 0 && p.price == room.value.1.price
    ensures p.Line? ==> p.total == StayTotal(p.nights, p.price)
  {
    var nights := Nights(checkIn, checkOut);
    if nights <= 0 then Warning
    else if room.Some? then Line(nights, room.value.1.price, StayTotal(nights, room.value.1.price))
    else Unchanged
  }

  // ---------------------------------------------------------------------
  // submit
  // ---------------------------------------------------------------------

  const SelectMessage := "Please select a room and guest."
  const DatesMessage := "Check-out must be after check-in."

  /** The advance entry: empty, a number, or text `float` refuses. */
  datatype AdvanceField = Blank | Amount(value: real) | Unreadable

  /** `float(advance or 0)`: an empty entry is an advance of 0. */
  function AdvanceAmount(a: AdvanceField): real
    requires !a.Unreadable?
  {
    if a.Amount? then a.value else 0.0
  }

  /** Why `submit` raised: the advance is not a number, or the database refused the insert. */
  datatype Failure = AdvanceNotANumber | Database(error: DbError)

  /** What `submit` ends with: a new booking, a message from its checks, or a caught exception. */
  datatype Outcome = Created(bookingId: nat) | Refused(message: string) | Raised(failure: Failure)

  /** The end of `submit` once `create_booking` has run: the new id, or the exception it raised. */
  function Finish(step: Tables.Step<Result<nat, DbError>>): Tables.Step<Outcome> {
    Tables.Step(step.db, if step.value.Ok? then Created(step.value.value) else Raised(Database(step.value.error)))
  }

  /**
   * `submit`: a room and a guest must be chosen, the stay must be at least one
   * night and the advance must read as a number; then the booking is stored
   * with total nights × the listed price.
   */
  function Submit(db: Db, room: Option<(nat, Room)>, guestId: Option<nat>, checkIn: int, checkOut: int,
                  advance: AdvanceField, notes: string, now: int): (r: Tables.Step<Outcome>)
    requires WellFormed(db)
    ensures WellFormed(r.db)
  {
    if room.None? || guestId.None? then Tables.Step(db, Refused(SelectMessage))
    else
      if Nights(checkIn, checkOut) <= 0 then Tables.Step(db, Refused(DatesMessage))
      else if advance.Unreadable? then Tables.Step(db, Raised(AdvanceNotANumber))
      else Finish(Tables.CreateBooking(db, room.value.0, guestId.value, checkIn, checkOut, Nights(checkIn, checkOut),
                                       StayTotal(Nights(checkIn, checkOut), room.value.1.price), AdvanceAmount(advance),
                                       notes, now))
  }

  /**
   * The checks `submit` makes, in order: a room and a guest, at least one
   * night, a readable advance. Only when all pass, and the foreign keys
   * accept the ids, is a booking stored, for nights × the listed price and
   * with the advance an empty entry makes 0.
   */
  lemma SubmitChecks(db: Db, room: Option<(nat, Room)>, guestId: Option<nat>, checkIn: int, checkOut: int,
                     advance: AdvanceField, notes: string, now: int, r: Tables.Step<Outcome>)
    requires WellFormed(db) && r == Submit(db, room, guestId, checkIn, checkOut, advance, notes, now)
    ensures !r.value.Created? ==> r.db == db
    ensures room.None? || guestId.None? ==> r.value == Refused(SelectMessage)
    ensures room.Some? && guestId.Some? && checkOut <= checkIn ==> r.value == Refused(DatesMessage)
    ensures room.Some? && guestId.Some? && checkIn < checkOut && advance.Unreadable? ==>
      r.value == Raised(AdvanceNotANumber)
    ensures r.value.Created? <==>
      && room.Some? && guestId.Some? && checkIn < checkOut && !advance.Unreadable?
      && room.value.0 in db.rooms && guestId.value in db.guests
    ensures r.value.Created? ==>
      var id := r.value.bookingId;
      && id !in db.bookings && id in r.db.bookings
      && r.db.bookings[id].roomId == room.value.0 && r.db.bookings[id].guestId == guestId.value
      && r.db.bookings[id].checkIn == checkIn && r.db.bookings[id].checkOut == checkOut
      && r.db.bookings[id].nights == checkOut - checkIn > 0
      && r.db.bookings[id].total == StayTotal(checkOut - checkIn, room.value.1.price)
      && r.db.bookings[id].advance == AdvanceAmount(advance)
      && r.db.bookings[id].status == Active
      && r.db.rooms[room.value.0].status == Booked
  {
  }

  /** The booking `submit` stores has the total the preview showed for the same room and dates. */
  lemma SubmitAgreesWithPreview(db: Db, room: Option<(nat, Room)>, guestId: Option<nat>, checkIn: int,
                                checkOut: int, advance: AdvanceField, notes: string, now: int)
    requires WellFormed(db)
    requires Submit(db, room, guestId, checkIn, checkOut, advance, notes, now).value.Created?
    ensures var r := Submit(db, room, guestId, checkIn, checkOut, advance, notes, now);
      var b := r.db.bookings[r.value.bookingId];
      CalcTotal(room, checkIn, checkOut) == Line(b.nights, room.value.1.price, b.total)
  {
  }

  /** When the preview warns, `submit` with a room and a guest refuses with the same complaint and stores nothing. */
  lemma WarningMeansRefused(db: Db, room: Option<(nat, Room)>, guestId: Option<nat>, checkIn: int,
                            checkOut: int, advance: AdvanceField, notes: string, now: int)
    requires WellFormed(db) && room.Some? && guestId.Some?
    requires CalcTotal(room, checkIn, checkOut).Warning?
    ensures Submit(db, room, guestId, checkIn, checkOut, advance, notes, now) == Tables.Step(db, Refused(DatesMessage))
  {
  }

  /** The event a successful `submit` amounts to: the `create_booking` call it makes. */
  function SubmitEvent(room: (nat, Room), guestId: nat, checkIn: int, checkOut: int, advance: AdvanceField,
                       notes: string, now: int): Lifecycle.Event
    requires !advance.Unreadable?
  {
    var nights := Nights(checkIn, checkOut);
    Lifecycle.Book(room.0, guestId, checkIn, checkOut, nights, StayTotal(nights, room.1.price),
                   AdvanceAmount(advance), notes, now)
  }

  /** Whatever `submit` does to the database, it does by that one call or not at all. */
  lemma SubmitIsBook(db: Db, room: (nat, Room), guestId: nat, checkIn: int, checkOut: int, advance: AdvanceField,
                     notes: string, now: int)
    requires WellFormed(db)
    ensures var r := Submit(db, Some(room), Some(guestId), checkIn, checkOut, advance, notes, now);
      r.db == db || (!advance.Unreadable? &&
                     r.db == Lifecycle.Apply(db, SubmitEvent(room, guestId, checkIn, checkOut, advance, notes, now)))
  {
    if checkIn < checkOut && !advance.Unreadable? {
      var e := SubmitEvent(room, guestId, checkIn, checkOut, advance, notes, now);
      assert Lifecycle.Apply(db, e) == Submit(db, Some(room), Some(guestId), checkIn, checkOut, advance, notes, now).db;
    }
  }

  /**
   * Booking a room the selector offers, from a listing that is still
   * current, keeps rooms and active bookings in agreement.
   */
  lemma SubmitOfferedKeepsSynced(db: Db, rows: seq<(nat, Room)>, i: nat, guestId: Option<nat>, checkIn: int,
                                 checkOut: int, advance: AdvanceField, notes: string, now: int)
    requires WellFormed(db) && Lifecycle.Synced(db)
    requires forall x :: x in rows ==> x.0 in db.rooms && db.rooms[x.0] == x.1
    requires i < |Offered(rows)|
    ensures Lifecycle.Synced(Submit(db, Some(Offered(rows)[i]), guestId, checkIn, checkOut, advance, notes, now).db)
  {
    var row := Offered(rows)[i];
    assert row in Offered(rows);
    if guestId.Some? {
      SubmitIsBook(db, row, guestId.value, checkIn, checkOut, advance, notes, now);
      if !advance.Unreadable? {
        var e := SubmitEvent(row, guestId.value, checkIn, checkOut, advance, notes, now);
        assert Lifecycle.Disciplined(db, e);
        Lifecycle.BookKeeps(db, e);
      }
    }
  }

  /** `submit` on the database file, through `create_booking`. */
  method SubmitForm(h: Store.Hotel, room: Option<(nat, Room)>, guestId: Option<nat>, checkIn: int, checkOut: int,
                    advance: AdvanceField, notes: string, now: int) returns (o: Outcome)
    requires h.Valid()
    modifies h
    ensures Submit(old(h.State()), room, guestId, checkIn, checkOut, advance, notes, now) == Tables.Step(h.State(), o)
    ensures h.Valid()
  {
    if room.None? || guestId.None? {
      return Refused(SelectMessage);
    }
    var nights := Nights(checkIn, checkOut);
    if nights <= 0 {
      return Refused(DatesMessage);
    }
    if advance.Unreadable? {
      return Raised(AdvanceNotANumber);
    }
    ghost var db := h.State();
    var total := StayTotal(nights, room.value.1.price);
    var r := h.CreateBooking(room.value.0, guestId.value, checkIn, checkOut, nights, total, AdvanceAmount(advance),
                             notes, now);
    o := if r.Ok? then Created(r.value) else Raised(Database(r.error));
    assert Submit(db, room, guestId, checkIn, checkOut, advance, notes, now)
           == Tables.Step(Tables.CreateBooking(db, room.value.0, guestId.value, checkIn, checkOut, nights, total,
                                               AdvanceAmount(advance), notes, now).db, o);
  }
}
