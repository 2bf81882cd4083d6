/**
 * The read side of database.py: lookups, listings, counts and the revenue
 * report, as functions of the database. A table is scanned in ascending id
 * order (the order SQLite visits rows of a table without an index), and an
 * `ORDER BY` is a stable sort of that scan: rows with the same sort key stay
 * in ascending id order.
 */
module Queries {
  import opened Common
  import opened Schema

  /** `DATE(ts)` as a day number: whole days since the epoch (UTC). */
  function Day(ts: int): int {
    ts / 86400
  }

  // ---------------------------------------------------------------------
  // get_invoice_by_booking: ORDER BY id DESC LIMIT 1
  // ---------------------------------------------------------------------

  /** Scanning ids n - 1, n - 2, ..., 0: the first invoice of `bookingId` met. */
  function LatestInvoiceBelow(invoices: map<nat, Invoice>, bookingId: nat, n: nat): (r: Option<nat>)
    ensures r.Some? ==> r.value < n && r.value in invoices && invoices[r.value].bookingId == bookingId
    ensures forall id :: id in invoices && id < n && invoices[id].bookingId == bookingId ==>
      r.Some? && id <= r.value
  {
    if n == 0 then None
    else if n - 1 in invoices && invoices[n - 1].bookingId == bookingId then Some(n - 1)
    else LatestInvoiceBelow(invoices, bookingId, n - 1)
  }

  /** `get_invoice_by_booking`: the id of the booking's invoice with the largest id, if it has one. */
  function GetInvoiceByBooking(db: Db, bookingId: nat): (r: Option<nat>)
    requires IdsBelow(db.invoices, db.nextInvoice)
    ensures r.Some? <==> exists id :: id in db.invoices && db.invoices[id].bookingId == bookingId
    ensures r.Some? ==> r.value in db.invoices && db.invoices[r.value].bookingId == bookingId
    ensures r.Some? ==> forall id :: id in db.invoices && db.invoices[id].bookingId == bookingId ==> id <= r.value
  {
    LatestInvoiceBelow(db.invoices, bookingId, db.nextInvoice)
  }

  // ---------------------------------------------------------------------
  // get_dashboard_stats
  // ---------------------------------------------------------------------

  datatype DashboardStats = DashboardStats(totalRooms: nat, booked: nat, available: nat, maintenance: nat,
                                           todayRevenue: real, totalGuests: nat)

  /** The ids of the rooms with status `s`. */
  function RoomsWith(rooms: map<nat, Room>, s: RoomStatus): set<nat> {
    set id | id in rooms && rooms[id].status == s
  }

  /** The two WHERE clauses over bookings by creation day that the core runs. */
  datatype BookingFilter =
    | ActiveCreatedOn(day: int)   // today's revenue: status = 'active' AND DATE(created_at) = day
    | CountedOn(day: int)         // the report: status != 'cancelled' AND DATE(created_at) = day

  predicate Keeps(f: BookingFilter, b: Booking) {
    match f
    case ActiveCreatedOn(d) => b.status == Active && Day(b.createdAt) == d
    case CountedOn(d) => b.status != Cancelled && Day(b.createdAt) == d
  }

  /** The bookings with id below `n` that `f` keeps, in id order. */
  function BookingsWhere(bookings: map<nat, Booking>, n: nat, f: BookingFilter): (bs: seq<Booking>)
    ensures forall k :: 0 <= k < |bs| ==> Keeps(f, bs[k])
  {
    if n == 0 then []
    else BookingsWhere(bookings, n - 1, f) + (if n - 1 in bookings && Keeps(f, bookings[n - 1]) then [bookings[n - 1]] else [])
  }

  function SumTotals(bs: seq<Booking>): real {
    if bs == [] then 0.0 else SumTotals(bs[..|bs| - 1]) + bs[|bs| - 1].total
  }

  function SumAdvances(bs: seq<Booking>): real {
    if bs == [] then 0.0 else SumAdvances(bs[..|bs| - 1]) + bs[|bs| - 1].advance
  }

  /**
   * `get_dashboard_stats`, with `today` standing for `DATE('now')`. The three
   * status counts partition the rooms, since every room has one of the three
   * statuses.
   */
  function GetDashboardStats(db: Db, today: int): (st: DashboardStats)
    ensures st.totalRooms == |db.rooms| && st.totalGuests == |db.guests|
    ensures st.totalRooms == st.booked + st.available + st.maintenance
    ensures st.booked == |RoomsWith(db.rooms, Booked)| && st.available == |RoomsWith(db.rooms, Available)|
    ensures st.maintenance == |RoomsWith(db.rooms, Maintenance)|
    ensures st.todayRevenue == SumTotals(BookingsWhere(db.bookings, db.nextBooking, ActiveCreatedOn(today)))
  {
    var booked, available, maintenance :=
      RoomsWith(db.rooms, Booked), RoomsWith(db.rooms, Available), RoomsWith(db.rooms, Maintenance);
    assert db.rooms.Keys == booked + available + maintenance;
    assert booked * available == {} && (booked + available) * maintenance == {};
    DashboardStats(|db.rooms|, |booked|, |available|, |maintenance|,
                   SumTotals(BookingsWhere(db.bookings, db.nextBooking, ActiveCreatedOn(today))), |db.guests|)
  }

  // ---------------------------------------------------------------------
  // get_revenue_report
  // ---------------------------------------------------------------------

  datatype ReportRow = ReportRow(day: int, bookings: nat, revenue: real, collected: real)

  /** The bookings the report groups under day `d`. */
  function DayGroup(db: Db, d: int): seq<Booking> {
    BookingsWhere(db.bookings, db.nextBooking, CountedOn(d))
  }

  /** One GROUP BY row: how many bookings, the sum of their totals and of their advances. */
  function DayRow(db: Db, d: int): ReportRow {
    var group := DayGroup(db, d);
    ReportRow(d, |group|, SumTotals(group), SumAdvances(group))
  }

  /**
   * The report rows for days first..last, in strictly ascending day order: one
   * row per day that has bookings, counting and summing exactly that day's
   * group.
   */
  function RevenueReport(db: Db, first: int, last: int): (rows: seq<ReportRow>)
    decreases last - first
    ensures forall k :: 0 <= k < |rows| ==>
      first <= rows[k].day <= last && rows[k] == DayRow(db, rows[k].day) && rows[k].bookings > 0
    ensures forall k, l :: 0 <= k < l < |rows| ==> rows[k].day < rows[l].day
  {
    if first > last then []
    else
      var head := if DayGroup(db, first) != [] then [DayRow(db, first)] else [];
      var rest := RevenueReport(db, first + 1, last);
      ReportPrepend(db, first, head, rest);
      head + rest
  }

  /** A row for `first`, if any, in front of rows for later days keeps the report's shape. */
  lemma ReportPrepend(db: Db, first: int, head: seq<ReportRow>, rest: seq<ReportRow>)
    requires head == [] || head == [DayRow(db, first)]
    requires forall k :: 0 <= k < |head| ==> head[k].bookings > 0
    requires forall k :: 0 <= k < |rest| ==> first < rest[k].day && rest[k] == DayRow(db, rest[k].day)
    requires forall k, l :: 0 <= k < l < |rest| ==> rest[k].day < rest[l].day
    ensures forall k :: 0 <= k < |head + rest| ==>
      first <= (head + rest)[k].day && (head + rest)[k] == DayRow(db, (head + rest)[k].day)
    ensures forall k, l :: 0 <= k < l < |head + rest| ==> (head + rest)[k].day < (head + rest)[l].day
  {
    var rows := head + rest;
    assert forall k :: |head| <= k < |rows| ==> rows[k] == rest[k - |head|];
    assert forall k :: 0 <= k < |head| ==> rows[k].day == first;
  }

  /** A day in first..last has a row exactly when some booking counts on it. */
  lemma {:induction false} RevenueReportDays(db: Db, first: int, last: int, d: int)
    decreases last - first
    ensures HasDay(RevenueReport(db, first, last), d) <==> first <= d <= last && DayGroup(db, d) != []
  {
    var rows := RevenueReport(db, first, last);
    if HasDay(rows, d) {
      var k :| 0 <= k < |rows| && rows[k].day == d;
      assert rows[k] == DayRow(db, d);
    }
    if first <= d <= last && DayGroup(db, d) != [] {
      var head := if DayGroup(db, first) != [] then [DayRow(db, first)] else [];
      var rest := RevenueReport(db, first + 1, last);
      assert rows == head + rest;
      if d == first {
        assert rows[0].day == d;
      } else {
        RevenueReportDays(db, first + 1, last, d);
        HasDayAppend(head, rest, d);
      }
    }
  }

  /** Some row of `rows` is for day `d`. */
  predicate HasDay(rows: seq<ReportRow>, d: int) {
    exists k :: 0 <= k < |rows| && rows[k].day == d
  }

  lemma HasDayAppend(head: seq<ReportRow>, rest: seq<ReportRow>, d: int)
    requires HasDay(rest, d)
    ensures HasDay(head + rest, d)
  {
    var k :| 0 <= k < |rest| && rest[k].day == d;
    assert (head + rest)[|head| + k] == rest[k];
  }

  /** Membership in a day's group: exactly the stored bookings with a smaller id than the sequence that count on d. */
  lemma {:induction false} BookingsWhereMembers(bookings: map<nat, Booking>, n: nat, f: BookingFilter, b: Booking)
    ensures b in BookingsWhere(bookings, n, f) <==> exists id :: id < n && id in bookings && bookings[id] == b && Keeps(f, b)
  {
    if n > 0 {
      BookingsWhereMembers(bookings, n - 1, f, b);
    }
  }

  /** A booking `f` rejects can be removed without changing what `BookingsWhere` selects. */
  lemma {:induction false} BookingsWhereIgnores(bookings: map<nat, Booking>, n: nat, f: BookingFilter, id: nat)
    requires id in bookings && !Keeps(f, bookings[id])
    ensures BookingsWhere(bookings - {id}, n, f) == BookingsWhere(bookings, n, f)
  {
    if n > 0 {
      BookingsWhereIgnores(bookings, n - 1, f, id);
    }
  }

  /** Cancelled bookings are invisible to the report: deleting one changes no row. */
  lemma {:induction false} RevenueReportIgnoresCancelled(db: Db, first: int, last: int, id: nat)
    requires id in db.bookings && db.bookings[id].status == Cancelled
    decreases last - first
    ensures RevenueReport(db.(bookings := db.bookings - {id}), first, last) == RevenueReport(db, first, last)
  {
    if first <= last {
      BookingsWhereIgnores(db.bookings, db.nextBooking, CountedOn(first), id);
      RevenueReportIgnoresCancelled(db, first + 1, last, id);
    }
  }

  // ---------------------------------------------------------------------
  // get_all_bookings, get_active_bookings, search_bookings
  // ---------------------------------------------------------------------

  /** A booking joined with its room and its guest: `b.*, r.room_number, r.room_type, g.full_name, g.phone`. */
  datatype BookingRow = BookingRow(id: nat, booking: Booking, roomNumber: string, roomType: string,
                                   guestName: string, phone: string)

  /** The inner join of booking `id` with rooms and guests; a booking whose room or guest is gone has no row. */
  function Joined(db: Db, id: nat): (r: Option<BookingRow>)
    ensures r.Some? <==> id in db.bookings && db.bookings[id].roomId in db.rooms && db.bookings[id].guestId in db.guests
    ensures r.Some? ==> r.value.id == id && r.value.booking == db.bookings[id]
  {
    if id in db.bookings && db.bookings[id].roomId in db.rooms && db.bookings[id].guestId in db.guests then
      var b := db.bookings[id];
      var room, guest := db.rooms[b.roomId], db.guests[b.guestId];
      Some(BookingRow(id, b, room.number, room.roomType, guest.fullName, guest.phone))
    else
      None
  }

  /** With the foreign keys enforced every booking joins, so the listings lose none. */
  lemma JoinTotal(db: Db, id: nat)
    requires WellFormed(db) && id in db.bookings
    ensures Joined(db, id).Some?
    ensures Joined(db, id).value.roomNumber == db.rooms[db.bookings[id].roomId].number
    ensures Joined(db, id).value.guestName == db.guests[db.bookings[id].guestId].fullName
  {
  }

  /** The WHERE clauses of the three listings. */
  datatype RowFilter =
    | AllRows           // get_all_bookings
    | ActiveOnly        // get_active_bookings: b.status = 'active'
    | Matching(q: string)  // search_bookings: guest name or room number contains q

  predicate KeepsRow(f: RowFilter, r: BookingRow) {
    match f
    case AllRows => true
    case ActiveOnly => r.booking.status == Active
    case Matching(q) => Contains(r.guestName, q) || Contains(r.roomNumber, q)
  }

  /** The joined rows with id below `n` that `f` keeps, in ascending id order. */
  function JoinBelow(db: Db, n: nat, f: RowFilter): (rows: seq<BookingRow>)
    ensures forall k :: 0 <= k < |rows| ==> rows[k].id < n && Joined(db, rows[k].id) == Some(rows[k]) && KeepsRow(f, rows[k])
    ensures forall k, l :: 0 <= k < l < |rows| ==> rows[k].id < rows[l].id
  {
    if n == 0 then []
    else
      var row := Joined(db, n - 1);
      var prefix := JoinBelow(db, n - 1, f);
      var rows := prefix + (if row.Some? && KeepsRow(f, row.value) then [row.value] else []);
      assert forall k :: 0 <= k < |prefix| ==> rows[k] == prefix[k];
      rows
  }

  /** Every joined row that `f` keeps is listed. */
  lemma {:induction false} JoinBelowComplete(db: Db, n: nat, f: RowFilter, id: nat)
    requires id < n && Joined(db, id).Some? && KeepsRow(f, Joined(db, id).value)
    ensures Joined(db, id).value in JoinBelow(db, n, f)
  {
    if id < n - 1 {
      JoinBelowComplete(db, n - 1, f, id);
    }
  }

  /** The two ORDER BY keys: `b.check_in` and `b.created_at DESC`. */
  datatype Order = ByCheckIn | NewestFirst

  function Key(o: Order, r: BookingRow): int {
    match o
    case ByCheckIn => r.booking.checkIn
    case NewestFirst => -r.booking.createdAt
  }

  /** `a` comes before `b`: a smaller key, or the same key and a smaller id. */
  predicate Precedes(o: Order, a: BookingRow, b: BookingRow) {
    Key(o, a) < Key(o, b) || (Key(o, a) == Key(o, b) && a.id < b.id)
  }

  predicate SortedBy(o: Order, rows: seq<BookingRow>) {
    forall k, l :: 0 <= k < l < |rows| ==> Precedes(o, rows[k], rows[l])
  }

  /** No two rows share an id. */
  predicate DistinctIds(rows: seq<BookingRow>) {
    forall k, l :: 0 <= k < l < |rows| ==> rows[k].id != rows[l].id
  }

  /** `x` placed into the sorted `s` at its place. */
  function Insert(o: Order, x: BookingRow, s: seq<BookingRow>): (r: seq<BookingRow>)
    requires SortedBy(o, s) && forall k :: 0 <= k < |s| ==> s[k].id != x.id
    ensures SortedBy(o, r) && multiset(r) == multiset(s) + multiset{x}
  {
    if s == [] || Precedes(o, x, s[0]) then
      [x] + s
    else
      var tail := Insert(o, x, s[1..]);
      assert s == [s[0]] + s[1..];
      assert Precedes(o, s[0], x);
      forall k | 0 <= k < |tail| ensures Precedes(o, s[0], tail[k]) {
        assert tail[k] in multiset(tail);
        if tail[k] != x {
          assert tail[k] in s[1..];
        }
      }
      [s[0]] + tail
  }

  /** The ORDER BY: a sort by (key, id); with distinct ids the result is a sorted permutation. */
  function Sort(o: Order, s: seq<BookingRow>): (r: seq<BookingRow>)
    requires DistinctIds(s)
    ensures SortedBy(o, r) && multiset(r) == multiset(s)
  {
    if s == [] then []
    else
      var init := s[..|s| - 1];
      var sorted := Sort(o, init);
      forall k | 0 <= k < |sorted| ensures sorted[k].id != s[|s| - 1].id {
        assert sorted[k] in multiset(init);
      }
      assert s == init + [s[|s| - 1]];
      Insert(o, s[|s| - 1], sorted)
  }

  /** A listing: the kept rows of the join ordered by `o`. */
  function Listing(db: Db, f: RowFilter, o: Order): (rows: seq<BookingRow>)
    ensures SortedBy(o, rows)
    ensures multiset(rows) == multiset(JoinBelow(db, db.nextBooking, f))
    ensures DistinctIds(rows)
  {
    var scan := JoinBelow(db, db.nextBooking, f);
    var rows := Sort(o, scan);
    forall k, l | 0 <= k < l < |rows| ensures rows[k].id != rows[l].id {
      assert rows[k] in multiset(scan) && rows[l] in multiset(scan);
      assert Joined(db, rows[k].id) == Some(rows[k]) && Joined(db, rows[l].id) == Some(rows[l]);
    }
    rows
  }

  /** `get_all_bookings`: newest first. */
  function AllBookings(db: Db): seq<BookingRow> {
    Listing(db, AllRows, NewestFirst)
  }

  /** `get_active_bookings`: the active bookings by check-in day. */
  function ActiveBookings(db: Db): seq<BookingRow> {
    Listing(db, ActiveOnly, ByCheckIn)
  }

  /** `search_bookings(q)`: bookings whose guest name or room number contains `q`, newest first. */
  function SearchBookings(db: Db, q: string): seq<BookingRow> {
    Listing(db, Matching(q), NewestFirst)
  }

  /** A row is listed exactly when it is the join of a stored booking that the filter keeps. */
  lemma ListingMembers(db: Db, f: RowFilter, o: Order, r: BookingRow)
    requires IdsBelow(db.bookings, db.nextBooking)
    ensures r in Listing(db, f, o) <==> r.id in db.bookings && Joined(db, r.id) == Some(r) && KeepsRow(f, r)
  {
    var scan := JoinBelow(db, db.nextBooking, f);
    assert r in Listing(db, f, o) <==> r in multiset(scan);
    if r.id in db.bookings && Joined(db, r.id) == Some(r) && KeepsRow(f, r) {
      JoinBelowComplete(db, db.nextBooking, f, r.id);
    }
  }

  /** Under the schema's constraints: a booking is in `get_all_bookings` exactly when it is stored. */
  lemma AllBookingsExactly(db: Db, id: nat)
    requires WellFormed(db)
    ensures (exists r :: r in AllBookings(db) && r.id == id) <==> id in db.bookings
  {
    if id in db.bookings {
      JoinTotal(db, id);
      ListingMembers(db, AllRows, NewestFirst, Joined(db, id).value);
    }
    forall r | r in AllBookings(db) ensures r.id in db.bookings {
      ListingMembers(db, AllRows, NewestFirst, r);
    }
  }

  /** A booking is in `get_active_bookings` exactly when it is stored with status active. */
  lemma ActiveBookingsExactly(db: Db, id: nat)
    requires WellFormed(db)
    ensures (exists r :: r in ActiveBookings(db) && r.id == id) <==> id in db.bookings && db.bookings[id].status == Active
  {
    if id in db.bookings {
      JoinTotal(db, id);
      ListingMembers(db, ActiveOnly, ByCheckIn, Joined(db, id).value);
    }
    forall r | r in ActiveBookings(db) ensures r.id in db.bookings && db.bookings[r.id].status == Active {
      ListingMembers(db, ActiveOnly, ByCheckIn, r);
    }
  }

  /** A booking is found by `search_bookings(q)` exactly when its guest's name or its room's number contains `q`. */
  lemma SearchBookingsExactly(db: Db, q: string, id: nat)
    requires WellFormed(db)
    ensures (exists r :: r in SearchBookings(db, q) && r.id == id) <==>
      id in db.bookings && (IsSubstring(q, db.guests[db.bookings[id].guestId].fullName)
                            || IsSubstring(q, db.rooms[db.bookings[id].roomId].number))
  {
    if id in db.bookings {
      JoinTotal(db, id);
      ListingMembers(db, Matching(q), NewestFirst, Joined(db, id).value);
    }
    forall r | r in SearchBookings(db, q) ensures r.id in db.bookings && KeepsRow(Matching(q), Joined(db, r.id).value) {
      ListingMembers(db, Matching(q), NewestFirst, r);
    }
  }

  // ---------------------------------------------------------------------
  // search_guests
  // ---------------------------------------------------------------------

  /** `full_name LIKE '%q%' OR phone LIKE '%q%' OR nid LIKE '%q%'`. */
  predicate GuestMatches(g: Guest, q: string) {
    Contains(g.fullName, q) || Contains(g.phone, q) || Contains(g.nid, q)
  }

  /** The matching guests with id below `n`, with their ids, in ascending id order (the query has no ORDER BY). */
  function GuestsBelow(guests: map<nat, Guest>, n: nat, q: string): (rows: seq<(nat, Guest)>)
    ensures forall k :: 0 <= k < |rows| ==>
      rows[k].0 < n && rows[k].0 in guests && guests[rows[k].0] == rows[k].1 && GuestMatches(rows[k].1, q)
    ensures forall k, l :: 0 <= k < l < |rows| ==> rows[k].0 < rows[l].0
  {
    if n == 0 then []
    else
      var prefix := GuestsBelow(guests, n - 1, q);
      var rows := prefix + (if n - 1 in guests && GuestMatches(guests[n - 1], q) then [(n - 1, guests[n - 1])] else []);
      assert forall k :: 0 <= k < |prefix| ==> rows[k] == prefix[k];
      rows
  }

  lemma {:induction false} GuestsBelowComplete(guests: map<nat, Guest>, n: nat, q: string, id: nat)
    requires id < n && id in guests && GuestMatches(guests[id], q)
    ensures (id, guests[id]) in GuestsBelow(guests, n, q)
  {
    if id < n - 1 {
      GuestsBelowComplete(guests, n - 1, q, id);
    }
  }

  /** `search_guests(q)`. */
  function SearchGuests(db: Db, q: string): seq<(nat, Guest)> {
    GuestsBelow(db.guests, db.nextGuest, q)
  }

  /** A guest is found exactly when its name, phone or national id contains `q`, and is listed once. */
  lemma SearchGuestsExactly(db: Db, q: string, id: nat, g: Guest)
    requires IdsBelow(db.guests, db.nextGuest)
    ensures (id, g) in SearchGuests(db, q) <==>
      id in db.guests && db.guests[id] == g
      && (IsSubstring(q, g.fullName) || IsSubstring(q, g.phone) || IsSubstring(q, g.nid))
    ensures forall k, l :: 0 <= k < l < |SearchGuests(db, q)| ==> SearchGuests(db, q)[k].0 != SearchGuests(db, q)[l].0
  {
    if id in db.guests && db.guests[id] == g && GuestMatches(g, q) {
      GuestsBelowComplete(db.guests, db.nextGuest, q, id);
    }
  }
}
