/**
 * The seeding half of `initialize_database`: default settings, the default
 * administrator and the 3 x 10 room grid, each written with INSERT OR IGNORE,
 * so running it on a database that already holds those rows adds no row. An
 * ignored insert still consumes an AUTOINCREMENT id, so the users and rooms
 * sequences advance on every run.
 */
module Seed {
  import opened Common
  import opened Schema

  // ---------------------------------------------------------------------
  // Default settings
  // ---------------------------------------------------------------------

  /** The keys of the defaults in the order the source lists them. */
  const DefaultSettingKeys: seq<string> :=
    ["hotel_name", "hotel_address", "hotel_phone", "hotel_email", "currency", "tax_rate"]

  const DefaultSettings: map<string, string> := map[
    "hotel_name" := "Grand Hotel",
    "hotel_address" := "123 Main Street, Dhaka",
    "hotel_phone" := "01700000000",
    "hotel_email" := "info@grandhotel.com",
    "currency" := "BDT",
    "tax_rate" := "0"]

  /** INSERT OR IGNORE of the defaults for `keys`, one after the other. */
  function SeedSettings(settings: map<string, string>, keys: seq<string>): (r: map<string, string>)
    requires forall i :: 0 <= i < |keys| ==> keys[i] in DefaultSettings
    ensures forall k :: k in r <==> k in settings || k in keys
    ensures forall k :: k in settings ==> r[k] == settings[k]
    ensures forall k :: k in keys && k !in settings ==> r[k] == DefaultSettings[k]
  {
    if keys == [] then settings
    else
      var init := keys[..|keys| - 1];
      var k := keys[|keys| - 1];
      assert forall x :: x in keys <==> x in init || x == k;
      var before := SeedSettings(settings, init);
      if k in before then before else before[k := DefaultSettings[k]]
  }

  /** Seeding the defaults adds exactly the missing keys and keeps every stored value. */
  lemma SeedDefaultSettings(settings: map<string, string>)
    ensures SeedSettings(settings, DefaultSettingKeys) == DefaultSettings + settings
  {
    assert forall k :: k in DefaultSettings <==> k in DefaultSettingKeys;
    SeedAllKeys(settings, DefaultSettingKeys);
  }

  /** Seeding a list of keys that covers every default is the defaults overridden by the stored values. */
  lemma SeedAllKeys(settings: map<string, string>, keys: seq<string>)
    requires forall i :: 0 <= i < |keys| ==> keys[i] in DefaultSettings
    requires forall k :: k in DefaultSettings <==> k in keys
    ensures SeedSettings(settings, keys) == DefaultSettings + settings
  {
    var r := SeedSettings(settings, keys);
    assert r.Keys == (DefaultSettings + settings).Keys;
    forall k | k in r ensures r[k] == (DefaultSettings + settings)[k] {
    }
  }

  // ---------------------------------------------------------------------
  // Default administrator
  // ---------------------------------------------------------------------

  /** Some user has this username. */
  predicate HasUser(db: Db, username: string) {
    exists id :: id in db.users && db.users[id].username == username
  }

  /** The administrator row the source seeds (password "admin123"). */
  function AdminUser(hash: string -> string, now: int): User {
    User("admin", hash("admin123"), "admin", "Administrator", now)
  }

  /**
   * INSERT OR IGNORE of the administrator; the UNIQUE username decides. An ignored
   * row still consumes an AUTOINCREMENT id, so the users sequence advances either way.
   */
  function SeedAdmin(db: Db, hash: string -> string, now: int): (r: Db)
    requires WellFormed(db)
    ensures WellFormed(r) && HasUser(r, "admin")
    ensures HasUser(db, "admin") ==> r == db.(nextUser := db.nextUser + 1)
    ensures !HasUser(db, "admin") ==>
      r == db.(users := db.users[db.nextUser := AdminUser(hash, now)], nextUser := db.nextUser + 1)
  {
    if HasUser(db, "admin") then db.(nextUser := db.nextUser + 1)
    else
      UserInserted(db, AdminUser(hash, now));
      var r := db.(users := db.users[db.nextUser := AdminUser(hash, now)], nextUser := db.nextUser + 1);
      assert r.users[db.nextUser].username == "admin";
      r
  }

  // ---------------------------------------------------------------------
  // The room grid
  // ---------------------------------------------------------------------

  function FloorRoomType(floor: int): string {
    if floor == 1 then "Standard" else if floor == 2 then "Deluxe" else "Suite"
  }

  function FloorPrice(floor: int): real {
    if floor == 1 then 1500.0 else if floor == 2 then 2500.0 else 4000.0
  }

  /** `f"{floor}{num:02d}"`. */
  function RoomNumber(floor: nat, num: nat): string {
    NatToDecimal(floor) + ZeroPad(NatToDecimal(num), 2)
  }

  /** The row seeded for room `num` of `floor`. */
  function SeedRoom(floor: nat, num: nat): Room {
    Room(RoomNumber(floor, num), FloorRoomType(floor), floor, FloorPrice(floor), Available, None)
  }

  /** Rooms 1..n of `floor`, each the row `mk` builds, as the inner loop visits them. */
  function FloorRooms(mk: (nat, nat) -> Room, floor: nat, n: nat): (rs: seq<Room>)
    ensures |rs| == n
    ensures forall k :: 0 <= k < n ==> rs[k] == mk(floor, k + 1)
  {
    if n == 0 then [] else FloorRooms(mk, floor, n - 1) + [mk(floor, n)]
  }

  /** The rooms of floors 1..floors, ten per floor, as the outer loop visits them. */
  function GridUpTo(mk: (nat, nat) -> Room, floors: nat): (rs: seq<Room>)
    ensures |rs| == 10 * floors
  {
    if floors == 0 then [] else GridUpTo(mk, floors - 1) + FloorRooms(mk, floors, 10)
  }

  /** Position i of the grid holds room i % 10 + 1 of floor i / 10 + 1: floor by floor, rooms in order. */
  lemma {:induction false} GridUpToAt(mk: (nat, nat) -> Room, floors: nat)
    ensures forall i :: 0 <= i < |GridUpTo(mk, floors)| ==> GridUpTo(mk, floors)[i] == mk(i / 10 + 1, i % 10 + 1)
  {
    if floors > 0 {
      var a, b := GridUpTo(mk, floors - 1), FloorRooms(mk, floors, 10);
      GridUpToAt(mk, floors - 1);
      forall i | 0 <= i < |a + b| ensures (a + b)[i] == mk(i / 10 + 1, i % 10 + 1) {
        if i >= |a| {
          assert i / 10 == floors - 1 && i % 10 == i - |a|;
          assert (a + b)[i] == b[i - |a|];
        } else {
          assert (a + b)[i] == a[i];
        }
      }
    }
  }

  /** The thirty rooms the nested loops visit, in order. */
  const Grid: seq<Room> := GridUpTo(SeedRoom, 3)

  lemma RoomNumberExamples()
    ensures RoomNumber(1, 1) == "101" && RoomNumber(2, 7) == "207" && RoomNumber(3, 10) == "310"
  {
    assert NatToDecimal(10) == "10";
  }

  /** On a single-digit floor the room number starts with the floor's digit. */
  lemma RoomNumberFloorDigit(floor: nat, num: nat)
    requires 1 <= floor <= 9
    ensures |RoomNumber(floor, num)| > 0 && RoomNumber(floor, num)[0] as int - '0' as int == floor
  {
  }

  /** On a single-digit floor distinct numbers get distinct room numbers. */
  lemma RoomNumberInjective(floor: nat, n1: nat, n2: nat)
    requires 1 <= floor <= 9
    requires RoomNumber(floor, n1) == RoomNumber(floor, n2)
    ensures n1 == n2
  {
    var a, b := RoomNumber(floor, n1), RoomNumber(floor, n2);
    assert a[1..] == ZeroPad(NatToDecimal(n1), 2);
    assert b[1..] == ZeroPad(NatToDecimal(n2), 2);
    PaddedDecimalRoundTrip(n1, 2);
    PaddedDecimalRoundTrip(n2, 2);
  }

  /**
   * What the grid needs of a row builder: on floors 1..9 every row is available,
   * its number starts with the floor's digit, and rooms of one floor get
   * different numbers.
   */
  ghost predicate NumberedByFloor(mk: (nat, nat) -> Room) {
    && (forall f, n :: 1 <= f <= 9 ==> mk(f, n).status == Available)
    && (forall f, n :: 1 <= f <= 9 ==>
          |mk(f, n).number| > 0 && mk(f, n).number[0] as int - '0' as int == f)
    && (forall f, n1, n2 :: 1 <= f <= 9 && mk(f, n1).number == mk(f, n2).number ==> n1 == n2)
  }

  /** The source's row builder numbers rooms by floor. */
  lemma SeedRoomNumberedByFloor()
    ensures NumberedByFloor(SeedRoom)
  {
    forall f: nat, n: nat | 1 <= f <= 9
      ensures |SeedRoom(f, n).number| > 0 && SeedRoom(f, n).number[0] as int - '0' as int == f
    {
      RoomNumberFloorDigit(f, n);
    }
    forall f: nat, n1: nat, n2: nat | 1 <= f <= 9 && SeedRoom(f, n1).number == SeedRoom(f, n2).number
      ensures n1 == n2
    {
      RoomNumberInjective(f, n1, n2);
    }
  }

  /** The room's number starts with a digit no larger than `floors`. */
  predicate FloorDigitAtMost(r: Room, floors: nat) {
    |r.number| > 0 && r.number[0] as int - '0' as int <= floors
  }

  /** The rooms of one floor have distinct numbers. */
  lemma FloorRoomsDistinct(mk: (nat, nat) -> Room, floor: nat, n: nat)
    requires NumberedByFloor(mk) && 1 <= floor <= 9
    ensures DistinctNumbers(FloorRooms(mk, floor, n))
  {
    var rs := FloorRooms(mk, floor, n);
    forall i, j | 0 <= i < n && 0 <= j < n && rs[i].number == rs[j].number ensures i == j {
      assert rs[i] == mk(floor, i + 1) && rs[j] == mk(floor, j + 1);
    }
  }

  /** Two lists with distinct numbers and no number in common concatenate to one with distinct numbers. */
  lemma DistinctConcat(a: seq<Room>, b: seq<Room>)
    requires DistinctNumbers(a) && DistinctNumbers(b)
    requires forall i, j :: 0 <= i < |a| && 0 <= j < |b| ==> a[i].number != b[j].number
    ensures DistinctNumbers(a + b)
  {
    var c := a + b;
    forall i, j | 0 <= i < |c| && 0 <= j < |c| && c[i].number == c[j].number ensures i == j {
      if i < |a| && j < |a| {
        assert a[i] == c[i] && a[j] == c[j];
      } else if i >= |a| && j >= |a| {
        assert b[i - |a|] == c[i] && b[j - |a|] == c[j];
      }
    }
  }

  /** Every room of the grid of `floors` floors is available. */
  lemma {:induction false} GridUpToAvailable(mk: (nat, nat) -> Room, floors: nat)
    requires NumberedByFloor(mk) && floors <= 9
    ensures forall i :: 0 <= i < |GridUpTo(mk, floors)| ==> GridUpTo(mk, floors)[i].status == Available
  {
    if floors > 0 {
      var a, b := GridUpTo(mk, floors - 1), FloorRooms(mk, floors, 10);
      GridUpToAvailable(mk, floors - 1);
      var c := a + b;
      forall i | 0 <= i < |c| ensures c[i].status == Available {
        if i < |a| {
          assert c[i] == a[i];
        } else {
          assert c[i] == b[i - |a|] == mk(floors, i - |a| + 1);
        }
      }
    }
  }

  /** Every room of the grid of `floors` floors is numbered on one of those floors. */
  lemma {:induction false} GridUpToDigits(mk: (nat, nat) -> Room, floors: nat)
    requires NumberedByFloor(mk) && floors <= 9
    ensures forall i :: 0 <= i < |GridUpTo(mk, floors)| ==> FloorDigitAtMost(GridUpTo(mk, floors)[i], floors)
  {
    if floors > 0 {
      var a, b := GridUpTo(mk, floors - 1), FloorRooms(mk, floors, 10);
      GridUpToDigits(mk, floors - 1);
      var c := a + b;
      forall i | 0 <= i < |c| ensures FloorDigitAtMost(c[i], floors) {
        if i < |a| {
          assert c[i] == a[i] && FloorDigitAtMost(a[i], floors - 1);
        } else {
          assert c[i] == b[i - |a|] == mk(floors, i - |a| + 1);
        }
      }
    }
  }

  /** The rooms of the floors below `floor` share no number with the rooms of `floor`. */
  lemma FloorApart(mk: (nat, nat) -> Room, floor: nat, a: seq<Room>, b: seq<Room>)
    requires NumberedByFloor(mk) && 1 <= floor <= 9
    requires forall i :: 0 <= i < |a| ==> FloorDigitAtMost(a[i], floor - 1)
    requires b == FloorRooms(mk, floor, 10)
    ensures forall i, j :: 0 <= i < |a| && 0 <= j < |b| ==> a[i].number != b[j].number
  {
    forall i, j | 0 <= i < |a| && 0 <= j < |b| ensures a[i].number != b[j].number {
      assert FloorDigitAtMost(a[i], floor - 1);
      assert b[j] == mk(floor, j + 1);
    }
  }

  /** Adding a floor to a grid with distinct numbers keeps them distinct. */
  lemma GridStepDistinct(mk: (nat, nat) -> Room, floor: nat)
    requires NumberedByFloor(mk) && 1 <= floor <= 9
    requires DistinctNumbers(GridUpTo(mk, floor - 1))
    ensures DistinctNumbers(GridUpTo(mk, floor))
  {
    var a, b := GridUpTo(mk, floor - 1), FloorRooms(mk, floor, 10);
    FloorRoomsDistinct(mk, floor, 10);
    GridUpToDigits(mk, floor - 1);
    FloorApart(mk, floor, a, b);
    DistinctConcat(a, b);
  }

  /** The grid of `floors` floors has distinct room numbers. */
  lemma {:induction false} GridUpToDistinct(mk: (nat, nat) -> Room, floors: nat)
    requires NumberedByFloor(mk) && floors <= 9
    ensures DistinctNumbers(GridUpTo(mk, floors))
  {
    if floors > 0 {
      GridUpToDistinct(mk, floors - 1);
      GridStepDistinct(mk, floors);
    }
  }

  /** The grid's thirty rooms have thirty different numbers, all available. */
  lemma GridWellFormed()
    ensures |Grid| == 30 && DistinctNumbers(Grid)
    ensures forall i :: 0 <= i < |Grid| ==> Grid[i].status == Available
  {
    SeedRoomNumberedByFloor();
    GridUpToDistinct(SeedRoom, 3);
    GridUpToAvailable(SeedRoom, 3);
  }

  // ---------------------------------------------------------------------
  // Seeding the rooms table
  // ---------------------------------------------------------------------

  /** The rooms table together with its AUTOINCREMENT sequence. */
  datatype RoomTable = RoomTable(rooms: map<nat, Room>, next: nat)

  /** Some room of the table has this number. */
  predicate NumberTaken(rooms: map<nat, Room>, number: string) {
    exists id :: id in rooms && rooms[id].number == number
  }

  /**
   * INSERT OR IGNORE of one room; the UNIQUE room number decides. The id is drawn
   * from the sequence before the conflict is found, so an ignored row consumes it too.
   */
  function InsertRoomOrIgnore(t: RoomTable, room: Room): RoomTable {
    if NumberTaken(t.rooms, room.number) then RoomTable(t.rooms, t.next + 1)
    else RoomTable(t.rooms[t.next := room], t.next + 1)
  }

  /** INSERT OR IGNORE of each room of `rs` in turn. */
  function SeedRoomTable(t: RoomTable, rs: seq<Room>): RoomTable {
    if rs == [] then t else InsertRoomOrIgnore(SeedRoomTable(t, rs[..|rs| - 1]), rs[|rs| - 1])
  }

  /** The room loop of `initialize_database`: only the rooms table and its sequence change. */
  function SeedRooms(db: Db, rs: seq<Room>): Db {
    var t := SeedRoomTable(RoomTable(db.rooms, db.nextRoom), rs);
    db.(rooms := t.rooms, nextRoom := t.next)
  }

  /** Every room of `before` is still in `after`, unchanged. */
  ghost predicate KeepsRooms(before: map<nat, Room>, after: map<nat, Room>) {
    forall id :: id in before ==> id in after && after[id] == before[id]
  }

  /** `u` grew from `t`: the same rooms and more, and a sequence no lower. */
  ghost predicate Grows(t: RoomTable, u: RoomTable) {
    KeepsRooms(t.rooms, u.rooms) && t.next <= u.next
  }

  /** The schema's guarantees for the rooms table: ids below the sequence, numbers UNIQUE. */
  ghost predicate TableOk(t: RoomTable) {
    IdsBelow(t.rooms, t.next) && UniqueRoomNumbers(t.rooms)
  }

  /** One INSERT OR IGNORE keeps every room, leaves the number taken, and keeps the table well formed. */
  lemma InsertRoomGrows(t: RoomTable, room: Room)
    requires IdsBelow(t.rooms, t.next)
    ensures var u := InsertRoomOrIgnore(t, room);
      && IdsBelow(u.rooms, u.next) && Grows(t, u) && NumberTaken(u.rooms, room.number)
      && (UniqueRoomNumbers(t.rooms) ==> UniqueRoomNumbers(u.rooms))
  {
    if !NumberTaken(t.rooms, room.number) {
      assert t.rooms[t.next := room][t.next].number == room.number;
    }
  }

  /** Seeding rooms keeps every stored room and keeps the table well formed. */
  lemma {:induction false} SeedRoomTableGrows(t: RoomTable, rs: seq<Room>)
    requires IdsBelow(t.rooms, t.next)
    ensures var u := SeedRoomTable(t, rs);
      && IdsBelow(u.rooms, u.next) && Grows(t, u) && (TableOk(t) ==> TableOk(u))
  {
    if rs != [] {
      var before := SeedRoomTable(t, rs[..|rs| - 1]);
      SeedRoomTableGrows(t, rs[..|rs| - 1]);
      InsertRoomGrows(before, rs[|rs| - 1]);
    }
  }

  /** Seeding rooms keeps the database well formed. */
  lemma SeedRoomsWellFormed(db: Db, rs: seq<Room>)
    requires WellFormed(db)
    ensures WellFormed(SeedRooms(db, rs))
  {
    var t := RoomTable(db.rooms, db.nextRoom);
    SeedRoomTableGrows(t, rs);
    var u := SeedRoomTable(t, rs);
    assert BookingRefsHold(db.bookings, u.rooms.Keys, db.guests.Keys);
  }

  lemma TakenStaysTaken(rooms: map<nat, Room>, after: map<nat, Room>, number: string)
    requires KeepsRooms(rooms, after) && NumberTaken(rooms, number)
    ensures NumberTaken(after, number)
  {
    var id :| id in rooms && rooms[id].number == number;
    assert id in after && after[id].number == number;
  }

  /** After seeding `rs`, every number of `rs` is taken. */
  lemma {:induction false} SeedRoomTableTakes(t: RoomTable, rs: seq<Room>)
    requires IdsBelow(t.rooms, t.next)
    ensures forall i :: 0 <= i < |rs| ==> NumberTaken(SeedRoomTable(t, rs).rooms, rs[i].number)
  {
    if rs != [] {
      var init := rs[..|rs| - 1];
      var before := SeedRoomTable(t, init);
      var u := SeedRoomTable(t, rs);
      SeedRoomTableTakes(t, init);
      SeedRoomTableGrows(t, init);
      InsertRoomGrows(before, rs[|rs| - 1]);
      forall i | 0 <= i < |rs| ensures NumberTaken(u.rooms, rs[i].number) {
        if i < |init| {
          assert rs[i] == init[i];
          TakenStaysTaken(before.rooms, u.rooms, rs[i].number);
        }
      }
    }
  }

  /** Once every number of `rs` is taken, seeding `rs` again adds no room; the sequence advances by |rs|. */
  lemma {:induction false} SeedRoomTableAgain(t: RoomTable, rs: seq<Room>)
    requires forall i :: 0 <= i < |rs| ==> NumberTaken(t.rooms, rs[i].number)
    ensures SeedRoomTable(t, rs) == RoomTable(t.rooms, t.next + |rs|)
  {
    if rs != [] {
      SeedRoomTableAgain(t, rs[..|rs| - 1]);
    }
  }

  // ---------------------------------------------------------------------
  // Seeding fresh rooms
  // ---------------------------------------------------------------------

  /** The rooms of `rs` under the consecutive ids next, next + 1, ... */
  function Layout(next: nat, rs: seq<Room>): map<nat, Room> {
    if rs == [] then map[] else Layout(next, rs[..|rs| - 1])[next + |rs| - 1 := rs[|rs| - 1]]
  }

  /** Layout's ids are next .. next + |rs| - 1, and id next + i holds room i. */
  lemma {:induction false} LayoutFacts(next: nat, rs: seq<Room>)
    ensures forall id :: id in Layout(next, rs) <==> next <= id < next + |rs|
    ensures forall i :: 0 <= i < |rs| ==> next + i in Layout(next, rs) && Layout(next, rs)[next + i] == rs[i]
  {
    if rs != [] {
      LayoutFacts(next, rs[..|rs| - 1]);
    }
  }

  /** No two rooms of a list share a number. */
  ghost predicate DistinctNumbers(rs: seq<Room>) {
    forall i, j :: 0 <= i < |rs| && 0 <= j < |rs| && rs[i].number == rs[j].number ==> i == j
  }

  /** The last room of `rs` has a number no earlier room has. */
  ghost predicate LastNumberNew(rs: seq<Room>)
    requires rs != []
  {
    forall i :: 0 <= i < |rs| - 1 ==> rs[i].number != rs[|rs| - 1].number
  }

  /** Each room of `rs` has a number none before it has: `DistinctNumbers` in insertion order. */
  ghost predicate NewNumbersInOrder(rs: seq<Room>) {
    rs == [] || (NewNumbersInOrder(rs[..|rs| - 1]) && LastNumberNew(rs))
  }

  lemma DistinctPrefix(rs: seq<Room>)
    requires rs != [] && DistinctNumbers(rs)
    ensures DistinctNumbers(rs[..|rs| - 1])
  {
    var init := rs[..|rs| - 1];
    forall i, j | 0 <= i < |init| && 0 <= j < |init| && init[i].number == init[j].number ensures i == j {
      assert init[i] == rs[i] && init[j] == rs[j];
    }
  }

  lemma {:induction false} DistinctInOrder(rs: seq<Room>)
    requires DistinctNumbers(rs)
    ensures NewNumbersInOrder(rs)
  {
    if rs != [] {
      DistinctPrefix(rs);
      DistinctInOrder(rs[..|rs| - 1]);
    }
  }

  /** After all but the last room of `rs` went in fresh, the last one's number is still free. */
  lemma FreshRoomFree(rooms: map<nat, Room>, next: nat, rs: seq<Room>)
    requires rs != [] && LastNumberNew(rs)
    requires forall i, id :: 0 <= i < |rs| && id in rooms ==> rooms[id].number != rs[i].number
    ensures !NumberTaken(rooms + Layout(next, rs[..|rs| - 1]), rs[|rs| - 1].number)
  {
    var k := |rs| - 1;
    var layout := Layout(next, rs[..k]);
    LayoutFacts(next, rs[..k]);
    var after := rooms + layout;
    forall id | id in after ensures after[id].number != rs[k].number {
      if id in layout {
        var i := id - next;
        assert 0 <= i < k && layout[next + i] == rs[..k][i] == rs[i];
      } else {
        assert after[id] == rooms[id];
      }
    }
  }

  lemma MergeUpdate<K, V>(a: map<K, V>, b: map<K, V>, k: K, v: V)
    ensures (a + b)[k := v] == a + b[k := v]
  {
  }

  /** When none of the numbers of `rs` is taken, room i of `rs` goes to id next + i. */
  lemma {:induction false} SeedRoomTableFresh(t: RoomTable, rs: seq<Room>)
    requires NewNumbersInOrder(rs)
    requires forall i, id :: 0 <= i < |rs| && id in t.rooms ==> t.rooms[id].number != rs[i].number
    ensures SeedRoomTable(t, rs) == RoomTable(t.rooms + Layout(t.next, rs), t.next + |rs|)
  {
    if rs == [] {
      assert t.rooms + Layout(t.next, rs) == t.rooms;
    } else {
      var init := rs[..|rs| - 1];
      SeedRoomTableFresh(t, init);
      FreshRoomFree(t.rooms, t.next, rs);
      MergeUpdate(t.rooms, Layout(t.next, init), t.next + |init|, rs[|rs| - 1]);
    }
  }

  /** Seeding distinct available rooms into an empty table stores room i of `rs` under id i + 1. */
  lemma SeedRoomsIntoEmpty(rs: seq<Room>)
    requires DistinctNumbers(rs)
    requires forall i :: 0 <= i < |rs| ==> rs[i].status == Available
    ensures SeedRoomTable(RoomTable(map[], 1), rs) == RoomTable(Layout(1, rs), |rs| + 1)
    ensures |Layout(1, rs)| == |rs| && forall id :: id in Layout(1, rs) <==> 1 <= id <= |rs|
    ensures forall i :: 0 <= i < |rs| ==> i + 1 in Layout(1, rs) && Layout(1, rs)[i + 1] == rs[i]
    ensures forall id :: id in Layout(1, rs) ==> Layout(1, rs)[id].status == Available
  {
    DistinctInOrder(rs);
    SeedRoomTableFresh(RoomTable(map[], 1), rs);
    assert map[] + Layout(1, rs) == Layout(1, rs);
    LayoutSize(1, rs);
    LayoutFacts(1, rs);
    LayoutFromOne(rs);
    LayoutAvailable(1, rs);
  }

  /** Room i of the layout from id 1 sits under id i + 1. */
  lemma LayoutFromOne(rs: seq<Room>)
    ensures forall i :: 0 <= i < |rs| ==> i + 1 in Layout(1, rs) && Layout(1, rs)[i + 1] == rs[i]
  {
    LayoutFacts(1, rs);
    var m := Layout(1, rs);
    forall i | 0 <= i < |rs| ensures i + 1 in m && m[i + 1] == rs[i] {
      assert 1 + i == i + 1;
    }
  }

  /** A layout of available rooms holds available rooms only. */
  lemma LayoutAvailable(next: nat, rs: seq<Room>)
    requires forall i :: 0 <= i < |rs| ==> rs[i].status == Available
    ensures forall id :: id in Layout(next, rs) ==> Layout(next, rs)[id].status == Available
  {
    LayoutFacts(next, rs);
    var m := Layout(next, rs);
    forall id | id in m ensures m[id].status == Available {
      assert m[next + (id - next)] == rs[id - next];
    }
  }

  lemma {:induction false} LayoutSize(next: nat, rs: seq<Room>)
    ensures |Layout(next, rs)| == |rs|
  {
    if rs != [] {
      LayoutSize(next, rs[..|rs| - 1]);
      LayoutFacts(next, rs[..|rs| - 1]);
    }
  }

  /** The ids lo, lo + 1, ..., lo + n - 1. */
  function IdRange(lo: nat, n: nat): (ids: set<nat>)
    ensures forall i: nat :: i in ids <==> lo <= i < lo + n
    ensures |ids| == n
  {
    if n == 0 then {} else IdRange(lo, n - 1) + {lo + n - 1}
  }

  // ---------------------------------------------------------------------
  // initialize_database
  // ---------------------------------------------------------------------

  /** The first step of `initialize_database`: the default settings. */
  function SeedDefaults(db: Db): (r: Db)
    requires WellFormed(db)
    ensures WellFormed(r) && r == db.(settings := DefaultSettings + db.settings)
  {
    SeedDefaultSettings(db.settings);
    db.(settings := SeedSettings(db.settings, DefaultSettingKeys))
  }

  /** `initialize_database`'s seeding, in the order the source runs it. */
  function InitializeDatabase(db: Db, hash: string -> string, now: int): (r: Db)
    requires WellFormed(db)
    ensures WellFormed(r)
  {
    var withAdmin := SeedAdmin(SeedDefaults(db), hash, now);
    SeedRoomsWellFormed(withAdmin, Grid);
    SeedRooms(withAdmin, Grid)
  }

  /** On a new database the settings and administrator steps give the defaults and user 1. */
  lemma NewAdmin(hash: string -> string, now: int) returns (withAdmin: Db)
    ensures WellFormed(EmptyDb) && withAdmin == SeedAdmin(SeedDefaults(EmptyDb), hash, now)
    ensures withAdmin == EmptyDb.(settings := DefaultSettings, users := map[1 := AdminUser(hash, now)], nextUser := 2)
  {
    EmptyDbWellFormed();
    var withSettings := SeedDefaults(EmptyDb);
    assert DefaultSettings + map[] == DefaultSettings;
    assert !HasUser(withSettings, "admin");
    withAdmin := SeedAdmin(withSettings, hash, now);
  }

  /** Seeding a new database: the six defaults, one administrator, rooms 1..30 in grid order, nothing else. */
  lemma InitializeNewDatabase(hash: string -> string, now: int)
    ensures var r := InitializeDatabase(EmptyDb, hash, now);
      && r.settings == DefaultSettings
      && r.users == map[1 := AdminUser(hash, now)]
      && |r.rooms| == 30 && (forall id :: id in r.rooms <==> 1 <= id <= 30)
      && (forall i :: 0 <= i < 30 ==> i + 1 in r.rooms && r.rooms[i + 1] == Grid[i])
      && (forall id :: id in r.rooms ==> r.rooms[id].status == Available)
      && r.guests == map[] && r.bookings == map[] && r.invoices == map[]
  {
    var withAdmin := NewAdmin(hash, now);
    GridWellFormed();
    SeedRoomsIntoEmpty(Grid);
  }

  /** A seeded settings table is left alone by a second seeding. */
  lemma SeedSettingsAgain(settings: map<string, string>)
    requires forall k :: k in DefaultSettingKeys ==> k in settings
    ensures SeedSettings(settings, DefaultSettingKeys) == settings
  {
    var r := SeedSettings(settings, DefaultSettingKeys);
    assert r.Keys == settings.Keys;
  }

  /** Seeding rooms whose numbers are all taken adds no room and advances the rooms sequence by |rs|. */
  lemma SeedRoomsAgain(db: Db, rs: seq<Room>)
    requires forall i :: 0 <= i < |rs| ==> NumberTaken(db.rooms, rs[i].number)
    ensures SeedRooms(db, rs) == db.(nextRoom := db.nextRoom + |rs|)
  {
    SeedRoomTableAgain(RoomTable(db.rooms, db.nextRoom), rs);
  }

  /** On a database already seeded, `initialize_database` adds no row and advances the two sequences. */
  lemma InitializeSeeded(x: Db, hash: string -> string, later: int)
    requires WellFormed(x) && HasUser(x, "admin")
    requires forall k :: k in DefaultSettingKeys ==> k in x.settings
    requires forall i :: 0 <= i < |Grid| ==> NumberTaken(x.rooms, Grid[i].number)
    ensures InitializeDatabase(x, hash, later) == x.(nextUser := x.nextUser + 1, nextRoom := x.nextRoom + 30)
  {
    SeedSettingsAgain(x.settings);
    assert SeedDefaults(x) == x;
    var again := SeedAdmin(x, hash, later);
    SeedRoomsAgain(again, Grid);
    GridWellFormed();
  }

  /**
   * `initialize_database` is idempotent on every table: a second run (at any time) adds
   * no row; only the users and rooms sequences advance, by the 1 + 30 ignored inserts.
   */
  lemma InitializeIdempotent(db: Db, hash: string -> string, now: int, later: int)
    requires WellFormed(db)
    ensures var once := InitializeDatabase(db, hash, now);
      InitializeDatabase(once, hash, later) == once.(nextUser := once.nextUser + 1, nextRoom := once.nextRoom + 30)
  {
    var once := InitializeDatabase(db, hash, now);
    var withAdmin := SeedAdmin(SeedDefaults(db), hash, now);
    assert once.settings == withAdmin.settings && once.users == withAdmin.users;
    assert HasUser(once, "admin") by {
      var id :| id in withAdmin.users && withAdmin.users[id].username == "admin";
    }
    SeedRoomTableTakes(RoomTable(withAdmin.rooms, withAdmin.nextRoom), Grid);
    InitializeSeeded(once, hash, later);
  }
}
