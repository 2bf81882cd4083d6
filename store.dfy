/**
 * The hotel database file as one mutable object. Its fields are the six
 * tables and their AUTOINCREMENT sequences; each method is one function of
 * database.py and commits once, so its effect is exactly the matching
 * transition of `Tables` (or `Seed` for the seeding).
 */
module Store {
  import opened Common
  import opened Schema
  import Tables
  import Seed

  class Hotel {
    var users: map<nat, User>
    var settings: map<string, string>
    var rooms: map<nat, Room>
    var guests: map<nat, Guest>
    var bookings: map<nat, Booking>
    var invoices: map<nat, Invoice>
    var nextUser: nat
    var nextRoom: nat
    var nextGuest: nat
    var nextBooking: nat
    var nextInvoice: nat

    /** The tables as a value. */
    function State(): Db
      reads this
    {
      Db(users, settings, rooms, guests, bookings, invoices, nextUser, nextRoom, nextGuest, nextBooking, nextInvoice)
    }

    ghost predicate Valid()
      reads this
    {
      WellFormed(State())
    }

    /** The six CREATE TABLE statements on a new database file. */
    constructor()
      ensures State() == EmptyDb && Valid()
    {
      users, settings, rooms, guests, bookings, invoices := map[], map[], map[], map[], map[], map[];
      nextUser, nextRoom, nextGuest, nextBooking, nextInvoice := 1, 1, 1, 1, 1;
      EmptyDbWellFormed();
    }

    // -------------------------------------------------------------------
    // initialize_database
    // -------------------------------------------------------------------

    /**
     * The seeding of `initialize_database`: INSERT OR IGNORE of each default
     * setting, of the administrator, then of the rooms of floors 1..3, rooms
     * 1..10 each. The statements run in one transaction, kept in local
     * variables and written back at the commit.
     */
    method Initialize(hash: string -> string, now: int)
      requires Valid()
      modifies this
      ensures State() == Seed.InitializeDatabase(old(State()), hash, now)
      ensures Valid()
    {
      SeedDefaultSettings();
      SeedAdmin(hash, now);
      SeedGrid();
    }

    /** The settings loop: INSERT OR IGNORE of each default setting. */
    method SeedDefaultSettings()
      requires Valid()
      modifies this
      ensures State() == Seed.SeedDefaults(old(State()))
      ensures Valid()
    {
      var seeded := SeedSettingsLoop(settings, Seed.DefaultSettingKeys);
      Seed.SeedDefaultSettings(settings);
      settings := seeded;
    }

    /** INSERT OR IGNORE of the administrator: the row is skipped when the username is taken, its id is not. */
    method SeedAdmin(hash: string -> string, now: int)
      requires Valid()
      modifies this
      ensures State() == Seed.SeedAdmin(old(State()), hash, now)
      ensures Valid()
    {
      if !Seed.HasUser(State(), "admin") {
        users := users[nextUser := Seed.AdminUser(hash, now)];
      }
      nextUser := nextUser + 1;
    }

    /** The nested room loops. */
    method SeedGrid()
      requires Valid()
      modifies this
      ensures State() == Seed.SeedRooms(old(State()), Seed.Grid)
      ensures Valid()
    {
      Seed.SeedRoomsWellFormed(State(), Seed.Grid);
      var t := SeedRoomLoops(Seed.RoomTable(rooms, nextRoom));
      rooms, nextRoom := t.rooms, t.next;
    }

    // -------------------------------------------------------------------
    // Settings, rooms, guests
    // -------------------------------------------------------------------

    /** `set_setting`. */
    method SetSetting(key: string, value: string)
      requires Valid()
      modifies this
      ensures State() == Tables.SetSetting(old(State()), key, value)
      ensures Valid()
    {
      settings := settings[key := value];
    }

    /** `update_room_status`. */
    method UpdateRoomStatus(roomId: nat, status: RoomStatus)
      requires Valid()
      modifies this
      ensures State() == Tables.UpdateRoomStatus(old(State()), roomId, status)
      ensures Valid()
    {
      if roomId in rooms {
        rooms := rooms[roomId := rooms[roomId].(status := status)];
      }
    }

    /** `update_room`. */
    method UpdateRoom(roomId: nat, roomType: string, price: real, description: string)
      requires Valid()
      modifies this
      ensures State() == Tables.UpdateRoom(old(State()), roomId, roomType, price, description)
      ensures Valid()
    {
      if roomId in rooms {
        rooms := rooms[roomId := rooms[roomId].(roomType := roomType, price := price, description := Some(description))];
      }
    }

    /** `add_guest`: returns the new row's id (`lastrowid`). */
    method AddGuest(fullName: string, phone: string, email: string, nid: string, address: string, now: int)
      returns (id: nat)
      requires Valid()
      modifies this
      ensures Tables.AddGuest(old(State()), fullName, phone, email, nid, address, now) == Tables.Step(State(), id)
      ensures Valid()
    {
      id := nextGuest;
      guests := guests[id := Guest(fullName, phone, email, nid, address, now)];
      nextGuest := nextGuest + 1;
    }

    /** `update_guest`. */
    method UpdateGuest(guestId: nat, fullName: string, phone: string, email: string, nid: string, address: string)
      requires Valid()
      modifies this
      ensures State() == Tables.UpdateGuest(old(State()), guestId, fullName, phone, email, nid, address)
      ensures Valid()
    {
      if guestId in guests {
        guests := guests[guestId := Guest(fullName, phone, email, nid, address, guests[guestId].createdAt)];
      }
    }

    /** `delete_guest`: the foreign key from bookings refuses the delete of a referenced guest. */
    method DeleteGuest(guestId: nat) returns (r: Result<(), DbError>)
      requires Valid()
      modifies this
      ensures Tables.DeleteGuest(old(State()), guestId) == Tables.Step(State(), r)
      ensures Valid()
    {
      if Tables.GuestReferenced(State(), guestId) {
        return Err(ForeignKeyViolation);
      }
      guests := guests - {guestId};
      r := Ok(());
    }

    // -------------------------------------------------------------------
    // Bookings
    // -------------------------------------------------------------------

    /** `create_booking`: the insert (checked by the foreign keys), then the room update, then the commit. */
    method CreateBooking(roomId: nat, guestId: nat, checkIn: int, checkOut: int, nights: int,
                         total: real, advance: real, notes: string, now: int)
      returns (r: Result<nat, DbError>)
      requires Valid()
      modifies this
      ensures Tables.CreateBooking(old(State()), roomId, guestId, checkIn, checkOut, nights, total, advance, notes, now)
              == Tables.Step(State(), r)
      ensures Valid()
    {
      if roomId !in rooms || guestId !in guests {
        return Err(ForeignKeyViolation);
      }
      var id := nextBooking;
      bookings := bookings[id := Booking(roomId, guestId, checkIn, checkOut, nights, total, advance, Active, notes, now)];
      nextBooking := nextBooking + 1;
      rooms := rooms[roomId := rooms[roomId].(status := Booked)];
      r := Ok(id);
    }

    /** The body `cancel_booking` and `checkout_booking` share. */
    method CloseBooking(bookingId: nat, to: BookingStatus)
      requires Valid()
      modifies this
      ensures State() == Tables.CloseBooking(old(State()), bookingId, to)
      ensures Valid()
    {
      if bookingId in bookings {
        var roomId := bookings[bookingId].roomId;
        if roomId in rooms {
          rooms := rooms[roomId := rooms[roomId].(status := Available)];
        }
      }
      if bookingId in bookings {
        bookings := bookings[bookingId := bookings[bookingId].(status := to)];
      }
    }

    /** `cancel_booking`. */
    method CancelBooking(bookingId: nat)
      requires Valid()
      modifies this
      ensures State() == Tables.CancelBooking(old(State()), bookingId)
      ensures Valid()
    {
      CloseBooking(bookingId, Cancelled);
    }

    /** `checkout_booking`. */
    method CheckoutBooking(bookingId: nat)
      requires Valid()
      modifies this
      ensures State() == Tables.CheckoutBooking(old(State()), bookingId)
      ensures Valid()
    {
      CloseBooking(bookingId, CheckedOut);
    }

    // -------------------------------------------------------------------
    // Invoices
    // -------------------------------------------------------------------

    /** `create_invoice`; `digits` is the draw of `random.choices`. Returns the invoice number. */
    method CreateInvoice(bookingId: nat, amount: real, discount: real, tax: real, paid: real,
                         digits: InvoiceDigits, now: int)
      returns (r: Result<string, DbError>)
      requires Valid()
      modifies this
      ensures Tables.CreateInvoice(old(State()), bookingId, amount, discount, tax, paid, digits, now)
              == Tables.Step(State(), r)
      ensures Valid()
    {
      var number := "INV-" + digits;
      if Tables.InvoiceNumberTaken(State(), number) {
        return Err(UniqueViolation);
      }
      if bookingId !in bookings {
        return Err(ForeignKeyViolation);
      }
      var status := if paid >= amount then Paid else Partial;
      invoices := invoices[nextInvoice := Invoice(bookingId, number, amount, discount, tax, paid, status, now)];
      nextInvoice := nextInvoice + 1;
      r := Ok(number);
    }
  }

  /** The settings loop of `initialize_database`: INSERT OR IGNORE of the default of each key in turn. */
  method SeedSettingsLoop(settings: map<string, string>, keys: seq<string>) returns (s: map<string, string>)
    requires forall j :: 0 <= j < |keys| ==> keys[j] in Seed.DefaultSettings
    ensures s == Seed.SeedSettings(settings, keys)
  {
    s := settings;
    var i := 0;
    while i < |keys|
      invariant 0 <= i <= |keys|
      invariant s == Seed.SeedSettings(settings, keys[..i])
    {
      var k := keys[i];
      SeedSettingsStep(settings, keys, i);
      if k !in s {
        s := s[k := Seed.DefaultSettings[k]];
      }
      i := i + 1;
    }
    assert keys[..|keys|] == keys;
  }

  /** The nested room loops of `initialize_database`: floors 1..3 in turn. */
  method SeedRoomLoops(t0: Seed.RoomTable) returns (t: Seed.RoomTable)
    ensures t == Seed.SeedRoomTable(t0, Seed.Grid)
  {
    t := t0;
    var floor := 1;
    while floor < 4
      invariant 1 <= floor <= 4
      invariant t == Seed.SeedRoomTable(t0, Seed.GridUpTo(Seed.SeedRoom, floor - 1))
    {
      ghost var earlier := Seed.GridUpTo(Seed.SeedRoom, floor - 1);
      t := SeedFloorLoop(t, floor);
      SeedRoomTableConcat(t0, earlier, Seed.FloorRooms(Seed.SeedRoom, floor, 10));
      floor := floor + 1;
    }
  }

  /** The inner loop: rooms 1..10 of one floor, each INSERT OR IGNORE. */
  method SeedFloorLoop(t0: Seed.RoomTable, floor: nat) returns (t: Seed.RoomTable)
    ensures t == Seed.SeedRoomTable(t0, Seed.FloorRooms(Seed.SeedRoom, floor, 10))
  {
    t := t0;
    var num := 1;
    while num < 11
      invariant 1 <= num <= 11
      invariant t == Seed.SeedRoomTable(t0, Seed.FloorRooms(Seed.SeedRoom, floor, num - 1))
    {
      SeedFloorStep(t0, floor, num);
      t := InsertRoom(t, Seed.SeedRoom(floor, num));
      num := num + 1;
    }
  }

  /** One INSERT OR IGNORE into the rooms table: the row only when its number is free, an id either way. */
  method InsertRoom(t: Seed.RoomTable, room: Room) returns (u: Seed.RoomTable)
    ensures u == Seed.InsertRoomOrIgnore(t, room)
  {
    var rooms := t.rooms;
    if !Seed.NumberTaken(rooms, room.number) {
      rooms := rooms[t.next := room];
    }
    u := Seed.RoomTable(rooms, t.next + 1);
  }

  /** One more turn of the settings loop seeds one more key. */
  lemma SeedSettingsStep(settings: map<string, string>, keys: seq<string>, i: nat)
    requires i < |keys| && forall j :: 0 <= j < |keys| ==> keys[j] in Seed.DefaultSettings
    ensures var before := Seed.SeedSettings(settings, keys[..i]);
      Seed.SeedSettings(settings, keys[..i + 1])
      == if keys[i] in before then before else before[keys[i] := Seed.DefaultSettings[keys[i]]]
  {
    assert keys[..i + 1][..i] == keys[..i];
  }

  /** One more turn of the room loop inserts, or ignores, one more room. */
  lemma SeedFloorStep(t0: Seed.RoomTable, floor: nat, num: nat)
    requires num > 0
    ensures Seed.SeedRoomTable(t0, Seed.FloorRooms(Seed.SeedRoom, floor, num))
            == Seed.InsertRoomOrIgnore(Seed.SeedRoomTable(t0, Seed.FloorRooms(Seed.SeedRoom, floor, num - 1)),
                                       Seed.SeedRoom(floor, num))
  {
    var done := Seed.FloorRooms(Seed.SeedRoom, floor, num - 1);
    assert (done + [Seed.SeedRoom(floor, num)])[..|done|] == done;
  }

  /** Seeding `a` and then `b` is seeding `a + b`. */
  lemma {:induction false} SeedRoomTableConcat(t: Seed.RoomTable, a: seq<Room>, b: seq<Room>)
    ensures Seed.SeedRoomTable(t, a + b) == Seed.SeedRoomTable(Seed.SeedRoomTable(t, a), b)
  {
    if b == [] {
      assert a + b == a;
    } else {
      assert (a + b)[..|a + b| - 1] == a + b[..|b| - 1];
      SeedRoomTableConcat(t, a, b[..|b| - 1]);
    }
  }
}
