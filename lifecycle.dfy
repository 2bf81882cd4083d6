/**
 * The room/booking lifecycle. The database layer never checks that a room's
 * status agrees with its bookings: `update_room_status` is unconditional,
 * `create_booking` books whatever room it is given, and closing a booking
 * frees its room whatever the booking's status was. This module states the
 * agreement ("a room is booked exactly when it has an active booking, and it
 * has at most one"), proves that it holds after seeding and is kept by every
 * trace of calls that respects the booking discipline, and exhibits short
 * traces of calls the code accepts that break it.
 */
module Lifecycle {
  import opened Common
  import opened Schema
  import Tables
  import Seed

  // ---------------------------------------------------------------------
  // The agreement between room statuses and bookings
  // ---------------------------------------------------------------------

  /** Booking `id` is stored, active, and on room `roomId`. */
  ghost predicate ActiveOn(db: Db, id: nat, roomId: nat) {
    id in db.bookings && db.bookings[id].roomId == roomId && db.bookings[id].status == Active
  }

  ghost predicate HasActive(db: Db, roomId: nat) {
    exists id :: ActiveOn(db, id, roomId)
  }

  /** No room has two active bookings. */
  ghost predicate AtMostOneActive(db: Db) {
    forall a, b, roomId :: ActiveOn(db, a, roomId) && ActiveOn(db, b, roomId) ==> a == b
  }

  /** Every room is booked exactly when it has an active booking, and it has at most one. */
  ghost predicate Synced(db: Db) {
    && (forall roomId :: roomId in db.rooms ==> (db.rooms[roomId].status == Booked <==> HasActive(db, roomId)))
    && AtMostOneActive(db)
  }

  // ---------------------------------------------------------------------
  // Calls as events
  // ---------------------------------------------------------------------

  /** One call of a database.py write. */
  datatype Event =
    | Book(roomId: nat, guestId: nat, checkIn: int, checkOut: int, nights: int, total: real, advance: real,
           notes: string, now: int)
    | Cancel(bookingId: nat)
    | Checkout(bookingId: nat)
    | SetRoomStatus(roomId: nat, status: RoomStatus)
    | EditRoom(roomId: nat, roomType: string, price: real, description: string)
    | NewGuest(fullName: string, phone: string, email: string, nid: string, address: string, now: int)
    | EditGuest(guestId: nat, fullName: string, phone: string, email: string, nid: string, address: string)
    | RemoveGuest(guestId: nat)
    | Setting(key: string, value: string)
    | NewInvoice(bookingId: nat, amount: real, discount: real, tax: real, paid: real, digits: InvoiceDigits, now: int)

  function Apply(db: Db, e: Event): (r: Db)
    requires WellFormed(db)
    ensures WellFormed(r)
  {
    match e
    case Book(roomId, guestId, checkIn, checkOut, nights, total, advance, notes, now) =>
      Tables.CreateBooking(db, roomId, guestId, checkIn, checkOut, nights, total, advance, notes, now).db
    case Cancel(bookingId) => Tables.CancelBooking(db, bookingId)
    case Checkout(bookingId) => Tables.CheckoutBooking(db, bookingId)
    case SetRoomStatus(roomId, status) => Tables.UpdateRoomStatus(db, roomId, status)
    case EditRoom(roomId, roomType, price, description) => Tables.UpdateRoom(db, roomId, roomType, price, description)
    case NewGuest(fullName, phone, email, nid, address, now) =>
      Tables.AddGuest(db, fullName, phone, email, nid, address, now).db
    case EditGuest(guestId, fullName, phone, email, nid, address) =>
      Tables.UpdateGuest(db, guestId, fullName, phone, email, nid, address)
    case RemoveGuest(guestId) => Tables.DeleteGuest(db, guestId).db
    case Setting(key, value) => Tables.SetSetting(db, key, value)
    case NewInvoice(bookingId, amount, discount, tax, paid, digits, now) =>
      Tables.CreateInvoice(db, bookingId, amount, discount, tax, paid, digits, now).db
  }

  /** The calls in order. */
  function Run(db: Db, es: seq<Event>): (r: Db)
    requires WellFormed(db)
    ensures WellFormed(r)
    decreases |es|
  {
    if es == [] then db else Run(Apply(db, es[0]), es[1..])
  }

  /**
   * The booking discipline the UI mostly follows: book only a room that is
   * available, close only an active booking, and change a room's status by
   * hand only between available and maintenance on a room with no active
   * booking.
   */
  ghost predicate Disciplined(db: Db, e: Event) {
    match e
    case Book(roomId, _, _, _, _, _, _, _, _) => roomId in db.rooms && db.rooms[roomId].status == Available
    case Cancel(bookingId) => bookingId in db.bookings ==> db.bookings[bookingId].status == Active
    case Checkout(bookingId) => bookingId in db.bookings ==> db.bookings[bookingId].status == Active
    case SetRoomStatus(roomId, status) => roomId in db.rooms ==> status != Booked && !HasActive(db, roomId)
    case _ => true
  }

  ghost predicate DisciplinedRun(db: Db, es: seq<Event>)
    requires WellFormed(db)
    decreases |es|
  {
    es == [] || (Disciplined(db, es[0]) && DisciplinedRun(Apply(db, es[0]), es[1..]))
  }

  // ---------------------------------------------------------------------
  // The agreement holds after seeding and is kept by disciplined calls
  // ---------------------------------------------------------------------

  /** A newly seeded database, all rooms available and no bookings, is in agreement. */
  lemma SeededSynced(hash: string -> string, now: int)
    ensures Synced(Seed.InitializeDatabase(EmptyDb, hash, now))
  {
    EmptyDbWellFormed();
    Seed.InitializeNewDatabase(hash, now);
  }

  /** If two databases have the same bookings, the same room statuses hold the same agreement. */
  lemma SyncedFrom(db: Db, r: Db)
    requires Synced(db)
    requires r.bookings == db.bookings && r.rooms.Keys == db.rooms.Keys
    requires forall id :: id in db.rooms ==> r.rooms[id].status == db.rooms[id].status
    ensures Synced(r)
  {
    forall roomId | roomId in r.rooms ensures r.rooms[roomId].status == Booked <==> HasActive(r, roomId) {
      assert HasActive(r, roomId) <==> HasActive(db, roomId) by {
        forall id ensures ActiveOn(r, id, roomId) <==> ActiveOn(db, id, roomId) {
        }
      }
    }
    assert AtMostOneActive(r) by {
      forall a, b, roomId | ActiveOn(r, a, roomId) && ActiveOn(r, b, roomId) ensures a == b {
        assert ActiveOn(db, a, roomId) && ActiveOn(db, b, roomId);
      }
    }
  }

  /** Booking an available room of an agreeing database keeps the agreement. */
  lemma BookKeeps(db: Db, e: Event)
    requires WellFormed(db) && Synced(db) && e.Book? && Disciplined(db, e)
    ensures Synced(Apply(db, e))
  {
    var step := Tables.CreateBooking(db, e.roomId, e.guestId, e.checkIn, e.checkOut, e.nights, e.total,
                                     e.advance, e.notes, e.now);
    var r := step.db;
    if step.value.Ok? {
      var n := step.value.value;
      assert !HasActive(db, e.roomId);
      assert ActiveOn(r, n, e.roomId);
      forall id, roomId ensures ActiveOn(r, id, roomId) <==> ActiveOn(db, id, roomId) || (id == n && roomId == e.roomId) {
        if id != n && id in r.bookings {
          assert r.bookings[id] == db.bookings[id];
        }
      }
      forall roomId | roomId in r.rooms ensures r.rooms[roomId].status == Booked <==> HasActive(r, roomId) {
        if roomId != e.roomId {
          if HasActive(r, roomId) {
            var id :| ActiveOn(r, id, roomId);
            assert ActiveOn(db, id, roomId);
          }
          if HasActive(db, roomId) {
            var id :| ActiveOn(db, id, roomId);
            assert ActiveOn(r, id, roomId);
          }
        }
      }
      forall a | ActiveOn(r, a, e.roomId) ensures a == n {
      }
      forall a, b, roomId | ActiveOn(r, a, roomId) && ActiveOn(r, b, roomId) ensures a == b {
        if roomId != e.roomId {
          assert ActiveOn(db, a, roomId) && ActiveOn(db, b, roomId);
        }
      }
    }
  }

  /** Closing an active booking (or an unknown id) keeps the agreement. */
  lemma CloseKeeps(db: Db, bookingId: nat, to: BookingStatus)
    requires WellFormed(db) && Synced(db) && to != Active
    requires bookingId in db.bookings ==> db.bookings[bookingId].status == Active
    ensures Synced(Tables.CloseBooking(db, bookingId, to))
  {
    var r := Tables.CloseBooking(db, bookingId, to);
    if bookingId in db.bookings {
      var room := db.bookings[bookingId].roomId;
      forall id, roomId ensures ActiveOn(r, id, roomId) <==> ActiveOn(db, id, roomId) && id != bookingId {
        if id != bookingId && id in r.bookings {
          assert r.bookings[id] == db.bookings[id];
        }
      }
      assert ActiveOn(db, bookingId, room);
      forall id ensures !ActiveOn(r, id, room) {
        assert ActiveOn(db, id, room) ==> id == bookingId;
      }
      forall roomId | roomId in r.rooms ensures r.rooms[roomId].status == Booked <==> HasActive(r, roomId) {
        if roomId != room {
          if HasActive(r, roomId) {
            var id :| ActiveOn(r, id, roomId);
            assert ActiveOn(db, id, roomId);
          }
          if HasActive(db, roomId) {
            var id :| ActiveOn(db, id, roomId);
            assert id != bookingId;
            assert ActiveOn(r, id, roomId);
          }
        }
      }
      forall a, b, roomId | ActiveOn(r, a, roomId) && ActiveOn(r, b, roomId) ensures a == b {
        assert ActiveOn(db, a, roomId) && ActiveOn(db, b, roomId);
      }
    }
  }

  /** Setting a status by hand on a room with no active booking, to available or maintenance, keeps the agreement. */
  lemma SetStatusKeeps(db: Db, roomId: nat, status: RoomStatus)
    requires WellFormed(db) && Synced(db)
    requires roomId in db.rooms ==> status != Booked && !HasActive(db, roomId)
    ensures Synced(Tables.UpdateRoomStatus(db, roomId, status))
  {
    var r := Tables.UpdateRoomStatus(db, roomId, status);
    assert r.bookings == db.bookings;
    forall x | x in r.rooms ensures r.rooms[x].status == Booked <==> HasActive(r, x) {
      assert HasActive(r, x) <==> HasActive(db, x) by {
        forall id ensures ActiveOn(r, id, x) <==> ActiveOn(db, id, x) {
        }
      }
    }
    assert AtMostOneActive(r) by {
      forall a, b, x | ActiveOn(r, a, x) && ActiveOn(r, b, x) ensures a == b {
        assert ActiveOn(db, a, x) && ActiveOn(db, b, x);
      }
    }
  }

  /** Every disciplined call keeps the agreement. */
  lemma ApplyKeeps(db: Db, e: Event)
    requires WellFormed(db) && Synced(db) && Disciplined(db, e)
    ensures Synced(Apply(db, e))
  {
    match e
    case Book(_, _, _, _, _, _, _, _, _) => BookKeeps(db, e);
    case Cancel(bookingId) => CloseKeeps(db, bookingId, Cancelled);
    case Checkout(bookingId) => CloseKeeps(db, bookingId, CheckedOut);
    case SetRoomStatus(roomId, status) => SetStatusKeeps(db, roomId, status);
    case _ => OthersKeep(db, e);
  }

  /** The agreement depends only on the rooms and bookings tables. */
  lemma SameRoomsKeep(db: Db, r: Db)
    requires Synced(db) && r.rooms == db.rooms && r.bookings == db.bookings
    ensures Synced(r)
  {
    SyncedFrom(db, r);
  }

  /** Editing a room's type, price or description keeps the agreement. */
  lemma EditRoomKeeps(db: Db, roomId: nat, roomType: string, price: real, description: string)
    requires WellFormed(db) && Synced(db)
    ensures Synced(Tables.UpdateRoom(db, roomId, roomType, price, description))
  {
    var r := Tables.UpdateRoom(db, roomId, roomType, price, description);
    assert forall id :: id in db.rooms ==> r.rooms[id].status == db.rooms[id].status;
    SyncedFrom(db, r);
  }

  /** The calls that touch neither bookings nor room statuses keep the agreement. */
  lemma OthersKeep(db: Db, e: Event)
    requires WellFormed(db) && Synced(db)
    requires !(e.Book? || e.Cancel? || e.Checkout? || e.SetRoomStatus?)
    ensures Synced(Apply(db, e))
  {
    match e
    case EditRoom(roomId, roomType, price, description) => EditRoomKeeps(db, roomId, roomType, price, description);
    case NewGuest(fullName, phone, email, nid, address, now) =>
      SameRoomsKeep(db, Tables.AddGuest(db, fullName, phone, email, nid, address, now).db);
    case EditGuest(guestId, fullName, phone, email, nid, address) =>
      SameRoomsKeep(db, Tables.UpdateGuest(db, guestId, fullName, phone, email, nid, address));
    case RemoveGuest(guestId) =>
      SameRoomsKeep(db, Tables.DeleteGuest(db, guestId).db);
    case Setting(key, value) =>
      SameRoomsKeep(db, Tables.SetSetting(db, key, value));
    case NewInvoice(bookingId, amount, discount, tax, paid, digits, now) =>
      SameRoomsKeep(db, Tables.CreateInvoice(db, bookingId, amount, discount, tax, paid, digits, now).db);
  }

  /** Every disciplined trace from an agreeing database ends in agreement. */
  lemma {:induction false} DisciplinedRunKeeps(db: Db, es: seq<Event>)
    requires WellFormed(db) && Synced(db) && DisciplinedRun(db, es)
    ensures Synced(Run(db, es))
    decreases |es|
  {
    if es != [] {
      ApplyKeeps(db, es[0]);
      DisciplinedRunKeeps(Apply(db, es[0]), es[1..]);
    }
  }

  /** In particular every disciplined trace after seeding a new database. */
  lemma SeededRunsSynced(hash: string -> string, now: int, es: seq<Event>)
    requires DisciplinedRun(Seed.InitializeDatabase(EmptyDb, hash, now), es)
    ensures Synced(Run(Seed.InitializeDatabase(EmptyDb, hash, now), es))
  {
    SeededSynced(hash, now);
    DisciplinedRunKeeps(Seed.InitializeDatabase(EmptyDb, hash, now), es);
  }

  // ---------------------------------------------------------------------
  // Calls the code accepts that break the agreement
  // ---------------------------------------------------------------------

  /** A database with one available room and one guest, ids 1. */
  const Start: Db := EmptyDb.(rooms := map[1 := Room("101", "Standard", 1, 1500.0, Available, None)],
                              guests := map[1 := Guest("Guest", "", "", "", "", 0)],
                              nextRoom := 2, nextGuest := 2)

  /** Booking room 1 for guest 1 at time `now`. */
  function BookRoomOne(now: int): Event {
    Book(1, 1, 0, 1, 1, 1500.0, 0.0, "", now)
  }

  lemma StartSynced()
    ensures WellFormed(Start) && Synced(Start)
  {
  }

  /** Room 1 with status `s`. */
  function RoomOne(s: RoomStatus): Room {
    Room("101", "Standard", 1, 1500.0, s, None)
  }

  /** The booking `BookRoomOne(now)` stores, with status `s`. */
  function BookingOne(now: int, s: BookingStatus): Booking {
    Booking(1, 1, 0, 1, 1, 1500.0, 0.0, s, "", now)
  }

  lemma BookedOnce()
    ensures WellFormed(Start)
    ensures Apply(Start, BookRoomOne(0))
            == Start.(rooms := map[1 := RoomOne(Booked)], bookings := map[1 := BookingOne(0, Active)], nextBooking := 2)
  {
  }

  lemma CheckedOutOnce(s1: Db)
    requires s1 == Start.(rooms := map[1 := RoomOne(Booked)], bookings := map[1 := BookingOne(0, Active)], nextBooking := 2)
    ensures WellFormed(s1)
    ensures Apply(s1, Checkout(1))
            == s1.(rooms := map[1 := RoomOne(Available)], bookings := map[1 := BookingOne(0, CheckedOut)])
  {
  }

  lemma BookedAgain(s2: Db)
    requires s2 == Start.(rooms := map[1 := RoomOne(Available)], bookings := map[1 := BookingOne(0, CheckedOut)], nextBooking := 2)
    ensures WellFormed(s2)
    ensures Apply(s2, BookRoomOne(1))
            == s2.(rooms := map[1 := RoomOne(Booked)],
                   bookings := map[1 := BookingOne(0, CheckedOut), 2 := BookingOne(1, Active)], nextBooking := 3)
  {
  }

  lemma CancelledStale(s3: Db)
    requires s3 == Start.(rooms := map[1 := RoomOne(Booked)],
                          bookings := map[1 := BookingOne(0, CheckedOut), 2 := BookingOne(1, Active)], nextBooking := 3)
    ensures WellFormed(s3)
    ensures Apply(s3, Cancel(1)).rooms == map[1 := RoomOne(Available)]
    ensures Apply(s3, Cancel(1)).bookings == map[1 := BookingOne(0, Cancelled), 2 := BookingOne(1, Active)]
  {
    assert s3.bookings[1].roomId == 1;
    var r := Tables.CloseBooking(s3, 1, Cancelled);
    assert r.rooms == s3.rooms[1 := RoomOne(Available)];
    assert r.bookings == s3.bookings[1 := BookingOne(0, Cancelled)];
  }

  /** Booking room 1, checking out and booking room 1 again is a disciplined trace, and it ends in agreement. */
  lemma RebookingSynced()
    ensures WellFormed(Start)
    ensures DisciplinedRun(Start, [BookRoomOne(0), Checkout(1), BookRoomOne(1)])
    ensures Synced(Run(Start, [BookRoomOne(0), Checkout(1), BookRoomOne(1)]))
  {
    StartSynced();
    BookedOnce();
    var s1 := Apply(Start, BookRoomOne(0));
    CheckedOutOnce(s1);
    var s2 := Apply(s1, Checkout(1));
    BookedAgain(s2);
    var ps := [BookRoomOne(0), Checkout(1), BookRoomOne(1)];
    assert ps[1..] == [Checkout(1), BookRoomOne(1)];
    assert ps[1..][1..] == [BookRoomOne(1)];
    DisciplinedRunKeeps(Start, ps);
  }

  /**
   * ... but cancelling the first, already checked-out, booking then frees
   * room 1 although the second booking still holds it.
   */
  lemma StaleCancelBreaks()
    ensures WellFormed(Start)
    ensures !Synced(Run(Start, [BookRoomOne(0), Checkout(1), BookRoomOne(1), Cancel(1)]))
  {
    BookedOnce();
    var s1 := Apply(Start, BookRoomOne(0));
    CheckedOutOnce(s1);
    var s2 := Apply(s1, Checkout(1));
    BookedAgain(s2);
    var s3 := Apply(s2, BookRoomOne(1));
    CancelledStale(s3);
    var s4 := Apply(s3, Cancel(1));
    assert ActiveOn(s4, 2, 1) && s4.rooms[1].status == Available;
    var es := [BookRoomOne(0), Checkout(1), BookRoomOne(1), Cancel(1)];
    assert es[1..] == [Checkout(1), BookRoomOne(1), Cancel(1)];
    assert es[1..][1..] == [BookRoomOne(1), Cancel(1)];
    assert es[1..][1..][1..] == [Cancel(1)];
  }

  /** `create_booking` does not look at the room's status: booking a booked room gives it two active bookings. */
  lemma DoubleBookingBreaks()
    ensures WellFormed(Start)
    ensures !Synced(Run(Start, [BookRoomOne(0), BookRoomOne(1)]))
  {
    BookedOnce();
    var s1 := Apply(Start, BookRoomOne(0));
    var s2 := Apply(s1, BookRoomOne(1));
    assert ActiveOn(s2, 1, 1) && ActiveOn(s2, 2, 1);
    assert [BookRoomOne(0), BookRoomOne(1)][1..] == [BookRoomOne(1)];
  }

  /** `update_room_status` is unconditional: marking a free room booked leaves a booked room with no booking. */
  lemma MarkBookedBreaks()
    ensures WellFormed(Start)
    ensures !Synced(Run(Start, [SetRoomStatus(1, Booked)]))
  {
    var s1 := Apply(Start, SetRoomStatus(1, Booked));
    assert s1.rooms[1].status == Booked && s1.bookings == map[];
  }

  /** ... and marking a booked room available leaves an active booking on a free room. */
  lemma MarkAvailableBreaks()
    ensures WellFormed(Start)
    ensures !Synced(Run(Start, [BookRoomOne(0), SetRoomStatus(1, Available)]))
  {
    BookedOnce();
    var s1 := Apply(Start, BookRoomOne(0));
    var s2 := Apply(s1, SetRoomStatus(1, Available));
    assert ActiveOn(s2, 1, 1) && s2.rooms[1].status == Available;
    assert [BookRoomOne(0), SetRoomStatus(1, Available)][1..] == [SetRoomStatus(1, Available)];
  }
}
