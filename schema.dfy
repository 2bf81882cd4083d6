/**
 * The six tables of the hotel database as values: users, settings, rooms,
 * guests, bookings and invoices. Each table with an integer primary key is a
 * map from id to row; `settings` is the key/value table. The AUTOINCREMENT
 * sequence of each id table is an explicit counter: ids start at 1 and a new
 * row always takes the counter's value, so ids are never reused.
 *
 * Amounts (REAL columns) are `real`; timestamps (CURRENT_TIMESTAMP) are
 * seconds since the epoch; check-in and check-out dates are day numbers.
 */
module Schema {
  import opened Common

  datatype RoomStatus = Available | Booked | Maintenance

  datatype BookingStatus = Active | Cancelled | CheckedOut

  datatype InvoiceStatus = Paid | Partial

  datatype User = User(username: string, digest: string, role: string, fullName: string, createdAt: int)

  datatype Room = Room(number: string, roomType: string, floor: int, price: real,
                       status: RoomStatus, description: Option<string>)

  datatype Guest = Guest(fullName: string, phone: string, email: string, nid: string,
                         address: string, createdAt: int)

  datatype Booking = Booking(roomId: nat, guestId: nat, checkIn: int, checkOut: int, nights: int,
                             total: real, advance: real, status: BookingStatus, notes: string,
                             createdAt: int)

  datatype Invoice = Invoice(bookingId: nat, number: string, amount: real, discount: real, tax: real,
                             paid: real, status: InvoiceStatus, issuedAt: int)

  /** The storage-layer failures the core can meet. */
  datatype DbError = ForeignKeyViolation | UniqueViolation

  /** The six random decimal digits of a generated invoice number. */
  type InvoiceDigits = s: string | |s| == 6 && AllDigits(s) witness "000000"

  datatype Db = Db(
    users: map<nat, User>,
    settings: map<string, string>,
    rooms: map<nat, Room>,
    guests: map<nat, Guest>,
    bookings: map<nat, Booking>,
    invoices: map<nat, Invoice>,
    nextUser: nat, nextRoom: nat, nextGuest: nat, nextBooking: nat, nextInvoice: nat)

  /** A database with the tables created and nothing in them. */
  const EmptyDb := Db(map[], map[], map[], map[], map[], map[], 1, 1, 1, 1, 1)

  /** `"INV-"` followed by six decimal digits. */
  predicate IsInvoiceNumber(s: string) {
    |s| == 10 && s[..4] == "INV-" && AllDigits(s[4..])
  }

  /** Every id of a table lies in [1, next), `next` being its AUTOINCREMENT sequence. */
  ghost predicate IdsBelow<T>(m: map<nat, T>, next: nat) {
    next > 0 && forall id :: id in m ==> 0 < id < next
  }

  ghost predicate UniqueUsernames(users: map<nat, User>) {
    forall a, b :: a in users && b in users && users[a].username == users[b].username ==> a == b
  }

  ghost predicate UniqueRoomNumbers(rooms: map<nat, Room>) {
    forall a, b :: a in rooms && b in rooms && rooms[a].number == rooms[b].number ==> a == b
  }

  ghost predicate UniqueInvoiceNumbers(invoices: map<nat, Invoice>) {
    forall a, b :: a in invoices && b in invoices && invoices[a].number == invoices[b].number ==> a == b
  }

  /** The foreign keys of `bookings`: room_id -> rooms(id), guest_id -> guests(id). */
  ghost predicate BookingRefsHold(bookings: map<nat, Booking>, roomIds: set<nat>, guestIds: set<nat>) {
    forall id :: id in bookings ==> bookings[id].roomId in roomIds && bookings[id].guestId in guestIds
  }

  /** The foreign key of `invoices`: booking_id -> bookings(id). */
  ghost predicate InvoiceRefsHold(invoices: map<nat, Invoice>, bookingIds: set<nat>) {
    forall id :: id in invoices ==> invoices[id].bookingId in bookingIds
  }

  ghost predicate InvoiceNumbersWellFormed(invoices: map<nat, Invoice>) {
    forall id :: id in invoices ==> IsInvoiceNumber(invoices[id].number)
  }

  /** What the schema (and the way the code writes rows) guarantees of every reachable database. */
  ghost predicate WellFormed(db: Db) {
    && IdsBelow(db.users, db.nextUser)
    && IdsBelow(db.rooms, db.nextRoom)
    && IdsBelow(db.guests, db.nextGuest)
    && IdsBelow(db.bookings, db.nextBooking)
    && IdsBelow(db.invoices, db.nextInvoice)
    && UniqueUsernames(db.users)
    && UniqueRoomNumbers(db.rooms)
    && UniqueInvoiceNumbers(db.invoices)
    && BookingRefsHold(db.bookings, db.rooms.Keys, db.guests.Keys)
    && InvoiceRefsHold(db.invoices, db.bookings.Keys)
    && InvoiceNumbersWellFormed(db.invoices)
  }

  lemma EmptyDbWellFormed()
    ensures WellFormed(EmptyDb)
  {
  }

  // ---------------------------------------------------------------------
  // Which single-row writes keep the database well formed
  // ---------------------------------------------------------------------

  lemma RoomRewritten(db: Db, id: nat, room: Room)
    requires WellFormed(db) && id in db.rooms && room.number == db.rooms[id].number
    ensures WellFormed(db.(rooms := db.rooms[id := room]))
  {
    var rooms := db.rooms[id := room];
    assert rooms.Keys == db.rooms.Keys;
    assert UniqueRoomNumbers(rooms) by {
      forall a, b | a in rooms && b in rooms && rooms[a].number == rooms[b].number ensures a == b {
        assert db.rooms[a].number == rooms[a].number && db.rooms[b].number == rooms[b].number;
      }
    }
  }

  lemma RoomInserted(db: Db, room: Room)
    requires WellFormed(db)
    requires forall id :: id in db.rooms ==> db.rooms[id].number != room.number
    ensures WellFormed(db.(rooms := db.rooms[db.nextRoom := room], nextRoom := db.nextRoom + 1))
  {
    var rooms := db.rooms[db.nextRoom := room];
    assert BookingRefsHold(db.bookings, rooms.Keys, db.guests.Keys);
  }

  lemma GuestRewritten(db: Db, id: nat, guest: Guest)
    requires WellFormed(db) && id in db.guests
    ensures WellFormed(db.(guests := db.guests[id := guest]))
  {
    assert db.guests[id := guest].Keys == db.guests.Keys;
  }

  lemma GuestInserted(db: Db, guest: Guest)
    requires WellFormed(db)
    ensures WellFormed(db.(guests := db.guests[db.nextGuest := guest], nextGuest := db.nextGuest + 1))
  {
    var guests := db.guests[db.nextGuest := guest];
    assert BookingRefsHold(db.bookings, db.rooms.Keys, guests.Keys);
  }

  lemma GuestRemoved(db: Db, id: nat)
    requires WellFormed(db)
    requires forall b :: b in db.bookings ==> db.bookings[b].guestId != id
    ensures WellFormed(db.(guests := db.guests - {id}))
  {
  }

  lemma BookingRewritten(db: Db, id: nat, booking: Booking)
    requires WellFormed(db) && id in db.bookings
    requires booking.roomId in db.rooms && booking.guestId in db.guests
    ensures WellFormed(db.(bookings := db.bookings[id := booking]))
  {
    assert db.bookings[id := booking].Keys == db.bookings.Keys;
  }

  lemma BookingInserted(db: Db, booking: Booking)
    requires WellFormed(db)
    requires booking.roomId in db.rooms && booking.guestId in db.guests
    ensures WellFormed(db.(bookings := db.bookings[db.nextBooking := booking], nextBooking := db.nextBooking + 1))
  {
    var bookings := db.bookings[db.nextBooking := booking];
    assert InvoiceRefsHold(db.invoices, bookings.Keys);
  }

  lemma InvoiceInserted(db: Db, invoice: Invoice)
    requires WellFormed(db)
    requires invoice.bookingId in db.bookings && IsInvoiceNumber(invoice.number)
    requires forall id :: id in db.invoices ==> db.invoices[id].number != invoice.number
    ensures WellFormed(db.(invoices := db.invoices[db.nextInvoice := invoice], nextInvoice := db.nextInvoice + 1))
  {
  }

  lemma UserRewritten(db: Db, id: nat, user: User)
    requires WellFormed(db) && id in db.users && user.username == db.users[id].username
    ensures WellFormed(db.(users := db.users[id := user]))
  {
    var users := db.users[id := user];
    assert UniqueUsernames(users) by {
      forall a, b | a in users && b in users && users[a].username == users[b].username ensures a == b {
        assert db.users[a].username == users[a].username && db.users[b].username == users[b].username;
      }
    }
  }

  lemma UserInserted(db: Db, user: User)
    requires WellFormed(db)
    requires forall id :: id in db.users ==> db.users[id].username != user.username
    ensures WellFormed(db.(users := db.users[db.nextUser := user], nextUser := db.nextUser + 1))
  {
  }

  lemma UserRemoved(db: Db, id: nat)
    requires WellFormed(db)
    ensures WellFormed(db.(users := db.users - {id}))
  {
  }
}
