/**
 * The writes of database.py as functions from the database before a call to
 * the database after it (each call commits once, so each is one step).
 * A statement that fails on a constraint raises before the commit, so a
 * failing call leaves the database as it was.
 */
module Tables {
  import opened Common
  import opened Schema

  /** The database after a call, with what the call returned. */
  datatype Step<+T> = Step(db: Db, value: T)

  // ---------------------------------------------------------------------
  // Rooms
  // ---------------------------------------------------------------------

  /** `update_room_status`: unconditional; an unknown id updates no row. */
  function UpdateRoomStatus(db: Db, roomId: nat, status: RoomStatus): (r: Db)
    requires WellFormed(db)
    ensures WellFormed(r)
    ensures r.rooms.Keys == db.rooms.Keys
    ensures roomId in db.rooms ==> r.rooms[roomId] == db.rooms[roomId].(status := status)
    ensures forall id :: id in db.rooms && id != roomId ==> r.rooms[id] == db.rooms[id]
    ensures r == db.(rooms := r.rooms)
  {
    if roomId in db.rooms then
      RoomRewritten(db, roomId, db.rooms[roomId].(status := status));
      db.(rooms := db.rooms[roomId := db.rooms[roomId].(status := status)])
    else db
  }

  /**
   * `update_room`: changes the type, the nightly price and the description
   * of one room. The room's status and every booking (in particular its
   * stored total) are untouched: totals stay as they were when booked.
   */
  function UpdateRoom(db: Db, roomId: nat, roomType: string, price: real, description: string): (r: Db)
    requires WellFormed(db)
    ensures WellFormed(r)
    ensures r.rooms.Keys == db.rooms.Keys
    ensures roomId in db.rooms ==>
      && r.rooms[roomId].roomType == roomType
      && r.rooms[roomId].price == price
      && r.rooms[roomId].description == Some(description)
      && r.rooms[roomId].status == db.rooms[roomId].status
      && r.rooms[roomId].number == db.rooms[roomId].number
      && r.rooms[roomId].floor == db.rooms[roomId].floor
    ensures forall id :: id in db.rooms && id != roomId ==> r.rooms[id] == db.rooms[id]
    ensures r.bookings == db.bookings
    ensures r == db.(rooms := r.rooms)
  {
    if roomId in db.rooms then
      var room := db.rooms[roomId];
      RoomRewritten(db, roomId, room.(roomType := roomType, price := price, description := Some(description)));
      db.(rooms := db.rooms[roomId := room.(roomType := roomType, price := price, description := Some(description))])
    else db
  }

  // ---------------------------------------------------------------------
  // Guests
  // ---------------------------------------------------------------------

  /** `add_guest`: inserts a row under a fresh id and returns that id. */
  function AddGuest(db: Db, fullName: string, phone: string, email: string, nid: string,
                    address: string, now: int): (r: Step<nat>)
    requires WellFormed(db)
    ensures WellFormed(r.db)
    ensures r.value > 0 && r.value !in db.guests
    ensures r.db.guests.Keys == db.guests.Keys + {r.value}
    ensures r.db.guests[r.value] == Guest(fullName, phone, email, nid, address, now)
    ensures forall id :: id in db.guests ==> r.db.guests[id] == db.guests[id]
    ensures r.db == db.(guests := r.db.guests, nextGuest := r.db.nextGuest)
  {
    var id := db.nextGuest;
    GuestInserted(db, Guest(fullName, phone, email, nid, address, now));
    Step(db.(guests := db.guests[id := Guest(fullName, phone, email, nid, address, now)],
             nextGuest := id + 1), id)
  }

  /** `update_guest`: rewrites the five editable columns; `created_at` is kept. */
  function UpdateGuest(db: Db, guestId: nat, fullName: string, phone: string, email: string,
                       nid: string, address: string): (r: Db)
    requires WellFormed(db)
    ensures WellFormed(r)
    ensures r.guests.Keys == db.guests.Keys
    ensures guestId in db.guests ==>
      r.guests[guestId] == Guest(fullName, phone, email, nid, address, db.guests[guestId].createdAt)
    ensures forall id :: id in db.guests && id != guestId ==> r.guests[id] == db.guests[id]
    ensures r == db.(guests := r.guests)
  {
    if guestId in db.guests then
      var g := db.guests[guestId];
      GuestRewritten(db, guestId, Guest(fullName, phone, email, nid, address, g.createdAt));
      db.(guests := db.guests[guestId := Guest(fullName, phone, email, nid, address, g.createdAt)])
    else db
  }

  /** Some booking refers to guest `guestId`. */
  predicate GuestReferenced(db: Db, guestId: nat) {
    exists id :: id in db.bookings && db.bookings[id].guestId == guestId
  }

  /**
   * `delete_guest`: with foreign keys enforced, deleting a guest that a
   * booking refers to fails and changes nothing; otherwise the row (if any)
   * is removed.
   */
  function DeleteGuest(db: Db, guestId: nat): (r: Step<Result<(), DbError>>)
    requires WellFormed(db)
    ensures WellFormed(r.db)
    ensures r.value.Err? <==> GuestReferenced(db, guestId)
    ensures r.value.Err? ==> r.value.error == ForeignKeyViolation && r.db == db
    ensures r.value.Ok? ==> r.db == db.(guests := db.guests - {guestId})
  {
    if GuestReferenced(db, guestId) then Step(db, Err(ForeignKeyViolation))
    else
      GuestRemoved(db, guestId);
      Step(db.(guests := db.guests - {guestId}), Ok(()))
  }

  // ---------------------------------------------------------------------
  // Settings
  // ---------------------------------------------------------------------

  /** `set_setting`: INSERT OR REPLACE on the key. */
  function SetSetting(db: Db, key: string, value: string): (r: Db)
    requires WellFormed(db)
    ensures WellFormed(r)
    ensures key in r.settings && r.settings[key] == value
    ensures forall k :: k != key ==> (k in r.settings <==> k in db.settings)
    ensures forall k :: k in db.settings && k != key ==> r.settings[k] == db.settings[k]
    ensures r == db.(settings := r.settings)
  {
    db.(settings := db.settings[key := value])
  }

  // ---------------------------------------------------------------------
  // Bookings
  // ---------------------------------------------------------------------

  /**
   * `create_booking`: inserts an active booking carrying exactly the given
   * fields and marks its room booked, in one commit. The function checks
   * nothing about dates, amounts or the room's status; only the foreign keys
   * can make the insert fail, and then nothing is written.
   */
  function CreateBooking(db: Db, roomId: nat, guestId: nat, checkIn: int, checkOut: int, nights: int,
                         total: real, advance: real, notes: string, now: int): (r: Step<Result<nat, DbError>>)
    requires WellFormed(db)
    ensures r.value.Ok? <==> roomId in db.rooms && guestId in db.guests
    ensures r.value.Err? ==> r.value.error == ForeignKeyViolation && r.db == db
    ensures r.value.Ok? ==>
      var id := r.value.value;
      && id > 0 && id !in db.bookings
      && r.db.bookings.Keys == db.bookings.Keys + {id}
      && r.db.bookings[id]
         == Booking(roomId, guestId, checkIn, checkOut, nights, total, advance, Active, notes, now)
      && (forall k :: k in db.bookings ==> r.db.bookings[k] == db.bookings[k])
      && r.db.rooms.Keys == db.rooms.Keys
      && r.db.rooms[roomId] == db.rooms[roomId].(status := Booked)
      && (forall k :: k in db.rooms && k != roomId ==> r.db.rooms[k] == db.rooms[k])
      && r.db == db.(rooms := r.db.rooms, bookings := r.db.bookings, nextBooking := r.db.nextBooking)
    ensures WellFormed(r.db)
  {
    if roomId !in db.rooms || guestId !in db.guests then
      Step(db, Err(ForeignKeyViolation))
    else
      var id := db.nextBooking;
      var b := Booking(roomId, guestId, checkIn, checkOut, nights, total, advance, Active, notes, now);
      BookingInserted(db, b);
      var inserted := db.(bookings := db.bookings[id := b], nextBooking := id + 1);
      var rooms := db.rooms[roomId := db.rooms[roomId].(status := Booked)];
      RoomRewritten(inserted, roomId, rooms[roomId]);
      var res := db.(rooms := rooms, bookings := inserted.bookings, nextBooking := id + 1);
      assert res == inserted.(rooms := rooms);
      Step(res, Ok(id))
  }

  /**
   * The shared shape of `cancel_booking` and `checkout_booking`: look the
   * booking up; if it exists, set its room to available (whatever the
   * booking's own status and whatever other bookings hold the room); then set
   * the booking's status. An unknown id changes nothing.
   */
  function CloseBooking(db: Db, bookingId: nat, to: BookingStatus): (r: Db)
    requires WellFormed(db)
    ensures WellFormed(r)
    ensures bookingId !in db.bookings ==> r == db
    ensures bookingId in db.bookings ==>
      var b := db.bookings[bookingId];
      && r.bookings.Keys == db.bookings.Keys
      && r.bookings[bookingId] == b.(status := to)
      && (forall k :: k in db.bookings && k != bookingId ==> r.bookings[k] == db.bookings[k])
      && r.rooms.Keys == db.rooms.Keys
      && r.rooms[b.roomId] == db.rooms[b.roomId].(status := Available)
      && (forall k :: k in db.rooms && k != b.roomId ==> r.rooms[k] == db.rooms[k])
      && r == db.(rooms := r.rooms, bookings := r.bookings)
  {
    if bookingId in db.bookings then
      var b := db.bookings[bookingId];
      RoomRewritten(db, b.roomId, db.rooms[b.roomId].(status := Available));
      var freed := db.(rooms := db.rooms[b.roomId := db.rooms[b.roomId].(status := Available)]);
      BookingRewritten(freed, bookingId, b.(status := to));
      freed.(bookings := db.bookings[bookingId := b.(status := to)])
    else db
  }

  /** `cancel_booking`. */
  function CancelBooking(db: Db, bookingId: nat): (r: Db)
    requires WellFormed(db)
    ensures WellFormed(r)
    ensures bookingId !in db.bookings ==> r == db
    ensures bookingId in db.bookings ==>
      && bookingId in r.bookings && r.bookings[bookingId].status == Cancelled
      && db.bookings[bookingId].roomId in r.rooms
      && r.rooms[db.bookings[bookingId].roomId].status == Available
    ensures bookingId in db.bookings ==>
      var b := db.bookings[bookingId];
      && r.bookings == db.bookings[bookingId := b.(status := Cancelled)]
      && r.rooms == db.rooms[b.roomId := db.rooms[b.roomId].(status := Available)]
      && r == db.(rooms := r.rooms, bookings := r.bookings)
  {
    CloseBooking(db, bookingId, Cancelled)
  }

  /** `checkout_booking`. */
  function CheckoutBooking(db: Db, bookingId: nat): (r: Db)
    requires WellFormed(db)
    ensures WellFormed(r)
    ensures bookingId !in db.bookings ==> r == db
    ensures bookingId in db.bookings ==>
      && bookingId in r.bookings && r.bookings[bookingId].status == CheckedOut
      && db.bookings[bookingId].roomId in r.rooms
      && r.rooms[db.bookings[bookingId].roomId].status == Available
    ensures bookingId in db.bookings ==>
      var b := db.bookings[bookingId];
      && r.bookings == db.bookings[bookingId := b.(status := CheckedOut)]
      && r.rooms == db.rooms[b.roomId := db.rooms[b.roomId].(status := Available)]
      && r == db.(rooms := r.rooms, bookings := r.bookings)
  {
    CloseBooking(db, bookingId, CheckedOut)
  }

  /** Closing a booking that is already closed that way, on a free room, writes nothing new. */
  lemma CloseAlreadyClosed(db: Db, bookingId: nat, to: BookingStatus)
    requires WellFormed(db) && bookingId in db.bookings
    requires db.bookings[bookingId].status == to
    requires db.rooms[db.bookings[bookingId].roomId].status == Available
    ensures CloseBooking(db, bookingId, to) == db
  {
    var b := db.bookings[bookingId];
    assert db.rooms[b.roomId := db.rooms[b.roomId].(status := Available)] == db.rooms;
    assert db.bookings[bookingId := b.(status := to)] == db.bookings;
  }

  /** Closing a booking a second time with the same status leaves the state of the first close. */
  lemma CloseIdempotent(db: Db, bookingId: nat, to: BookingStatus)
    requires WellFormed(db)
    ensures CloseBooking(CloseBooking(db, bookingId, to), bookingId, to) == CloseBooking(db, bookingId, to)
  {
    if bookingId in db.bookings {
      CloseAlreadyClosed(CloseBooking(db, bookingId, to), bookingId, to);
    }
  }

  /** Calling `cancel_booking` twice leaves the same state as calling it once. */
  lemma CancelIdempotent(db: Db, bookingId: nat)
    requires WellFormed(db)
    ensures CancelBooking(CancelBooking(db, bookingId), bookingId) == CancelBooking(db, bookingId)
  {
    CloseIdempotent(db, bookingId, Cancelled);
  }

  /** The same holds for `checkout_booking`. */
  lemma CheckoutIdempotent(db: Db, bookingId: nat)
    requires WellFormed(db)
    ensures CheckoutBooking(CheckoutBooking(db, bookingId), bookingId) == CheckoutBooking(db, bookingId)
  {
    CloseIdempotent(db, bookingId, CheckedOut);
  }

  // ---------------------------------------------------------------------
  // Invoices
  // ---------------------------------------------------------------------

  /** Some invoice already carries this number. */
  predicate InvoiceNumberTaken(db: Db, number: string) {
    exists id :: id in db.invoices && db.invoices[id].number == number
  }

  /** The status `create_invoice` records: paid iff paid_amount >= amount. */
  function InvoiceStatusFor(amount: real, paid: real): (s: InvoiceStatus)
    ensures s == Paid <==> paid >= amount
    ensures s == Partial <==> paid < amount
  {
    if paid >= amount then Paid else Partial
  }

  /**
   * `create_invoice`: the number is "INV-" and six random digits (`digits`
   * stands for the random draw). A number already in use is refused by the
   * UNIQUE column and a missing booking by the foreign key; either way
   * nothing is written. On success the new row is added under a fresh id and
   * the number is returned.
   */
  function CreateInvoice(db: Db, bookingId: nat, amount: real, discount: real, tax: real, paid: real,
                         digits: InvoiceDigits, now: int): (r: Step<Result<string, DbError>>)
    requires WellFormed(db)
    ensures WellFormed(r.db)
    ensures r.value.Ok? <==> !InvoiceNumberTaken(db, "INV-" + digits) && bookingId in db.bookings
    ensures InvoiceNumberTaken(db, "INV-" + digits) ==> r.value == Err(UniqueViolation)
    ensures r.value.Err? ==> r.db == db
    ensures r.value.Ok? ==>
      var id := db.nextInvoice;
      && IsInvoiceNumber(r.value.value) && r.value.value[4..] == digits
      && id > 0 && id !in db.invoices
      && r.db.invoices.Keys == db.invoices.Keys + {id}
      && r.db.invoices[id] == Invoice(bookingId, r.value.value, amount, discount, tax, paid,
                                      InvoiceStatusFor(amount, paid), now)
      && (forall k :: k in db.invoices ==> r.db.invoices[k] == db.invoices[k])
      && r.db == db.(invoices := r.db.invoices, nextInvoice := r.db.nextInvoice)
  {
    var number := "INV-" + digits;
    assert number[4..] == digits;
    if InvoiceNumberTaken(db, number) then Step(db, Err(UniqueViolation))
    else if bookingId !in db.bookings then Step(db, Err(ForeignKeyViolation))
    else
      var id := db.nextInvoice;
      var inv := Invoice(bookingId, number, amount, discount, tax, paid, InvoiceStatusFor(amount, paid), now);
      InvoiceInserted(db, inv);
      Step(db.(invoices := db.invoices[id := inv], nextInvoice := id + 1), Ok(number))
  }
}
