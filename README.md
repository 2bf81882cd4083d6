# Hotel management: a verified model of the data layer

This project models the core of a small hotel management desktop program and
proves properties of that model. The program's core is:

- its SQLite data layer (`database.py`): six tables for users, settings,
  rooms, guests, bookings and invoices, plus the functions that seed, change
  and query them;
- its authentication module (`auth.py`);
- the validation and arithmetic of two screens: the new-booking dialog
  (`ui/booking.py`) and the billing view (`ui/billing.py`).

The model is in layers:

- `schema.dfy` defines the tables as one value, `Db`. Each table is a map
  from row id to record, and each AUTOINCREMENT sequence is a counter.
  `WellFormed` collects what the schema guarantees:
  - ids are below their counter;
  - usernames, room numbers and invoice numbers are UNIQUE;
  - the foreign keys from bookings and invoices hold.
- `tables.dfy` gives each writing function of `database.py` as a pure
  transition from `Db` to `Db`, returning what the call returns. Each
  transition is proved to keep `WellFormed`.
- `seed.dfy` models `initialize_database`:
  - INSERT OR IGNORE of the six default settings;
  - the administrator account;
  - thirty rooms on three floors.

  It proves the resulting state on a new database and proves that a second
  run adds no row. SQLite draws an AUTOINCREMENT id before it finds the
  UNIQUE conflict that makes INSERT OR IGNORE skip a row, so each ignored
  insert still advances its table's counter. A second run therefore moves the
  users counter by 1 and the rooms counter by 30. An insert that fails with an
  error is rolled back, counter included.
- `store.dfy` is the database file as an object: class `Hotel`, one field per
  table and sequence. Each method updates the fields in place, and its
  postcondition ties the new state to the matching transition. The seeding
  loops are `while` loops with their invariants.
- `queries.dfy` models the reading functions:
  - the dashboard counts;
  - the revenue report grouped by day;
  - the booking listings (the inner joins, the filters and the two sort orders);
  - guest search;
  - the latest invoice of a booking.
- `lifecycle.dfy` treats every write as an event. It proves when room
  statuses and active bookings stay in agreement: a room is booked exactly
  when one active booking is on it. It also gives concrete traces of each
  call the code accepts that breaks the agreement (sections below).
- `auth.dfy` models login, registration, password change and user deletion,
  including each error message and the order of the checks.
- `booking_form.dfy` models the new-booking dialog:
  - the rooms it offers;
  - the preview of the total;
  - the checks `submit` makes before it calls `create_booking`.
- `billing.dfy` models the billing view:
  - the tax, total and due figures;
  - the invoice number the bill shows;
  - the check-then-create of "Generate Invoice".

Some conventions run through the whole model:

- SHA-256 is the parameter `hash`.
- The moment of a call is the parameter `now`, in seconds; a calendar day is
  `now / 86400`.
- The booking dialog's dates are day numbers.
- Money is `real`.
- The six random digits of an invoice number are the parameter `digits`.

### Foreign keys

The connection turns on `PRAGMA foreign_keys` (`database.py:14`), and the
model follows the code. With the pragma on:

- `create_booking` with an unknown room or guest fails and writes nothing;
- `delete_guest` of a guest that some booking refers to fails.

### What the code allows

- `create_booking` and `update_room_status` never look at the room's status.
- `cancel_booking` and `checkout_booking` free the room whatever the
  booking's status.

So the agreement between rooms and bookings holds only for "disciplined"
callers. `Lifecycle.DisciplinedRunKeeps` proves that it holds for them. The
booking dialog is such a caller when its room list is current
(`BookingForm.SubmitOfferedKeepsSynced`). `Lifecycle.StaleCancelBreaks` shows
the program's own screens breaking it. The booking list offers "Cancel" on
every booking. So cancelling a booking that was already checked out marks a
room available even though a later booking on that room is still active.

## Model

| member | source | states |
|---|---|---|
| Common.Contains | database.py:224-231 | `LIKE '%q%'` matching: true exactly when `q` occurs as a contiguous run of `s` |
| Common.Trim | auth.py:31 | `strip()`: the result is `s[a..b]` where everything before `a` and from `b` on is whitespace, and it neither starts nor ends with whitespace |
| Common.NatToDecimal | ui/billing.py:110 | `f"{n}"` is a non-empty digit string that starts with '0' exactly when n is 0 |
| Common.DecimalLength | ui/billing.py:110 | `n` renders in at most k digits exactly when n < 10^k |
| Common.PaddedDecimalRoundTrip | ui/billing.py:110 | `{id:04d}` yields exactly max(4, digits of id) digits that read back as `id` |
| Common.DecimalRoundTrip | ui/billing.py:110 | the decimal digits of `n` read back as `n` |
| Schema.EmptyDbWellFormed | database.py:24-102 | the six new, empty tables satisfy every schema constraint |
| Tables.UpdateRoomStatus | database.py:170-174 | only the status of room `roomId` changes; an unknown id changes nothing |
| Tables.UpdateRoom | database.py:177-182 | type, price and description of that room change and nothing else does; an unknown id changes nothing |
| Tables.AddGuest | database.py:195-204 | a fresh id is returned; it holds exactly the given guest; other guests and tables are untouched |
| Tables.UpdateGuest | database.py:207-214 | the five columns are rewritten, `created_at` is kept, and no other guest changes |
| Tables.DeleteGuest | database.py:217-221 | fails with a foreign-key error exactly when a booking refers to the guest, and then writes nothing; otherwise only that row goes |
| Tables.SetSetting | database.py:153-157 | INSERT OR REPLACE: the key maps to the value; other keys are unchanged |
| Tables.CreateBooking | database.py:264-275 | succeeds exactly when room and guest exist; the new active booking carries the given fields under a fresh id; the room becomes booked; nothing else changes; on failure nothing is written |
| Tables.CloseBooking | database.py:278-295 | a stored booking's room becomes available and the booking gets the new status; an unknown id changes nothing |
| Tables.CancelBooking | database.py:278-285 | `cancel_booking`: the booking becomes cancelled and its room available; no other field, row or table changes; an unknown id changes nothing |
| Tables.CheckoutBooking | database.py:288-295 | `checkout_booking`: the booking becomes checked out and its room available; no other field, row or table changes; an unknown id changes nothing |
| Tables.CloseAlreadyClosed | database.py:278-295 | closing a booking already in that status, on a free room, changes nothing |
| Tables.CloseIdempotent | database.py:278-295 | a second close with the same status leaves the state of the first |
| Tables.CancelIdempotent | database.py:278-285 | cancelling twice is cancelling once |
| Tables.CheckoutIdempotent | database.py:288-295 | checking out twice is checking out once |
| Tables.InvoiceStatusFor | database.py:322-323 | paid exactly when paid_amount >= amount, else partial |
| Tables.CreateInvoice | database.py:315-326 | succeeds exactly when the number "INV-" + digits is unused and the booking exists; the returned number is a well-formed invoice number; the new row has the given amounts and the derived status; otherwise nothing is written |
| Seed.SeedSettings | database.py:115-116 | each key missing from the table gets its default; stored values are never overwritten |
| Seed.SeedDefaultSettings | database.py:107-116 | seeding the defaults gives exactly the defaults overridden by any stored values |
| Seed.SeedAdmin | database.py:123-124 | afterwards a user "admin" exists; if one existed no row is added and only the users counter advances; otherwise exactly the administrator row is added under the next id |
| Seed.FloorRooms | database.py:130-137 | the inner loop visits rooms 1..n of a floor in order |
| Seed.GridUpTo | database.py:129-137 | the outer loop visits ten rooms per floor |
| Seed.GridUpToAt | database.py:129-137 | position i of the visit order is room i % 10 + 1 of floor i / 10 + 1 |
| Seed.RoomNumberExamples | database.py:131 | `f"{floor}{num:02d}"` gives "101", "207", "310" |
| Seed.RoomNumberFloorDigit | database.py:131 | a room number starts with its floor's digit |
| Seed.RoomNumberInjective | database.py:131 | on one floor, distinct room numbers come from distinct nums |
| Seed.GridWellFormed | database.py:126-137 | the seeded grid has thirty rooms with distinct numbers, all available |
| Seed.SeedRoomsWellFormed | database.py:134-137 | INSERT OR IGNORE of any rooms keeps the schema constraints |
| Seed.SeedRoomTableTakes | database.py:134-137 | after seeding, every seeded number is taken |
| Seed.SeedRoomTableAgain | database.py:134-137 | seeding rooms whose numbers are all taken adds no room and advances the counter by the number of inserts |
| Seed.SeedRoomsAgain | database.py:134-137 | the same on the database: only the rooms counter changes |
| Seed.SeedRoomsIntoEmpty | database.py:129-137 | into an empty table, room i of the list is stored under id i + 1 |
| Seed.SeedDefaults | database.py:107-116 | the settings step stores the defaults under every missing key, keeps stored values and touches no other table |
| Seed.InitializeDatabase | database.py:18-140 | the full seeding keeps the schema constraints |
| Seed.NewAdmin | database.py:107-124 | on a new database, settings and administrator give the six defaults and user 1 |
| Seed.InitializeNewDatabase | database.py:18-140 | a new database ends with the six defaults, only the administrator, rooms 1..30 with ids 1..30 in loop order, and no guests, bookings or invoices |
| Seed.SeedSettingsAgain | database.py:115-116 | a second settings pass changes nothing |
| Seed.InitializeSeeded | database.py:107-140 | on a database that holds every default key, an "admin" user and every grid room number, `initialize_database` adds no row; the users counter advances by 1 and the rooms counter by 30 |
| Seed.InitializeIdempotent | database.py:18-140 | running `initialize_database` again, at any time, adds no row to any table; only the users counter (+1) and the rooms counter (+30) advance |
| Store.Hotel.constructor | database.py:24-104 | a new database file holds empty tables whose counters start at 1 |
| Store.Hotel.Initialize | database.py:18-140 | the new state is `Seed.InitializeDatabase` of the old one, and the schema's guarantees still hold |
| Store.Hotel.SeedDefaultSettings | database.py:115-116 | the settings loop's effect is the settings step |
| Store.Hotel.SeedAdmin | database.py:123-124 | the new state is `Seed.SeedAdmin` of the old one: the row only when the username is free, the counter either way |
| Store.Hotel.SeedGrid | database.py:126-137 | the nested room loops' effect is seeding the grid |
| Store.SeedSettingsLoop | database.py:115-116 | the loop over the keys computes `Seed.SeedSettings` for those keys |
| Store.SeedRoomLoops | database.py:129-137 | the floor loop computes seeding of the whole grid |
| Store.SeedFloorLoop | database.py:130-137 | the num loop computes seeding of one floor, an ignored room advancing the counter too |
| Store.InsertRoom | database.py:134-137 | one INSERT OR IGNORE of a room is `Seed.InsertRoomOrIgnore`: the row only when its number is free, an id either way |
| Store.Hotel.SetSetting | database.py:153-157 | the new state is `Tables.SetSetting` of the old one |
| Store.Hotel.UpdateRoomStatus | database.py:170-174 | the new state is `Tables.UpdateRoomStatus` of the old one |
| Store.Hotel.UpdateRoom | database.py:177-182 | the new state is `Tables.UpdateRoom` of the old one |
| Store.Hotel.AddGuest | database.py:195-204 | new state and returned id are those of `Tables.AddGuest` |
| Store.Hotel.UpdateGuest | database.py:207-214 | the new state is `Tables.UpdateGuest` of the old one |
| Store.Hotel.DeleteGuest | database.py:217-221 | new state and result are those of `Tables.DeleteGuest` |
| Store.Hotel.CreateBooking | database.py:264-275 | new state and result are those of `Tables.CreateBooking` |
| Store.Hotel.CloseBooking | database.py:278-295 | the new state is `Tables.CloseBooking` of the old one |
| Store.Hotel.CancelBooking | database.py:278-285 | the new state is `Tables.CancelBooking` of the old one |
| Store.Hotel.CheckoutBooking | database.py:288-295 | the new state is `Tables.CheckoutBooking` of the old one |
| Store.Hotel.CreateInvoice | database.py:315-326 | new state and result are those of `Tables.CreateInvoice` |
| Queries.GetInvoiceByBooking | database.py:329-334 | some id is found exactly when the booking has an invoice; the id found is the booking's invoice with the largest id |
| Queries.GetDashboardStats | database.py:340-359 | room count and guest count; the booked, available and maintenance counts, which add up to the room count; today's revenue as the sum of totals of active bookings created today |
| Queries.BookingsWhere | database.py:346-349 | only bookings that pass the filter are returned |
| Queries.BookingsWhereMembers | database.py:346-349 | a booking is returned exactly when it is stored and passes the filter |
| Queries.RevenueReport | database.py:362-373 | every row is a day in the range with at least one non-cancelled booking created that day, with its count, total revenue and total collected; days ascend strictly |
| Queries.RevenueReportDays | database.py:362-373 | a day has a row exactly when it is in the range and has such a booking |
| Queries.BookingsWhereIgnores | database.py:364-370 | removing a booking the filter rejects does not change the result |
| Queries.RevenueReportIgnoresCancelled | database.py:368 | cancelled bookings have no influence on the report |
| Queries.Joined | database.py:239-245 | the inner join yields a row exactly when the booking, its room and its guest all exist |
| Queries.JoinTotal | database.py:239-245 | with the foreign keys, every booking joins, with its room's number and its guest's name |
| Queries.JoinBelow | database.py:237-309 | the joined rows that pass the filter, each a real join, ids ascending |
| Queries.JoinBelowComplete | database.py:237-309 | every joined row that passes the filter is included |
| Queries.Insert | database.py:244 | insertion keeps the order sorted and adds exactly the new row |
| Queries.Sort | database.py:244 | the result is sorted and a permutation of the input |
| Queries.Listing | database.py:237-309 | a listing is sorted by its ORDER BY, with ties by id, and is a permutation of the filtered join |
| Queries.ListingMembers | database.py:237-309 | a row is listed exactly when it is a stored booking's join that passes the filter |
| Queries.AllBookingsExactly | database.py:237-247 | `get_all_bookings` lists every stored booking and only those |
| Queries.ActiveBookingsExactly | database.py:250-261 | `get_active_bookings` lists exactly the active bookings |
| Queries.SearchBookingsExactly | database.py:298-309 | `search_bookings` lists exactly the bookings whose guest name or room number contains the query |
| Queries.GuestsBelow | database.py:224-231 | the matching guests, each a stored guest whose name, phone or nid contains the query, in id order |
| Queries.GuestsBelowComplete | database.py:224-231 | every matching guest is included |
| Queries.SearchGuestsExactly | database.py:224-231 | `search_guests` returns a guest exactly when it is stored and its name, phone or nid contains the query, at most once |
| Lifecycle.Apply | database.py:153-326 | every write keeps the schema constraints |
| Lifecycle.Run | database.py:153-326 | a sequence of writes keeps the schema constraints |
| Lifecycle.SeededSynced | database.py:126-137 | after seeding a new database, rooms and bookings agree |
| Lifecycle.SyncedFrom | database.py:170-174 | the agreement depends only on bookings and room statuses |
| Lifecycle.BookKeeps | database.py:264-275 | booking an available room keeps the agreement |
| Lifecycle.CloseKeeps | database.py:278-295 | cancelling or checking out an active booking keeps the agreement |
| Lifecycle.SetStatusKeeps | database.py:170-174 | setting a room without an active booking to available or maintenance keeps the agreement |
| Lifecycle.EditRoomKeeps | database.py:177-182 | editing a room's type, price or description keeps the agreement |
| Lifecycle.OthersKeep | database.py:153-326 | writes that touch neither bookings nor room statuses keep the agreement |
| Lifecycle.ApplyKeeps | database.py:153-326 | every disciplined write keeps the agreement |
| Lifecycle.DisciplinedRunKeeps | database.py:153-326 | every disciplined sequence of writes keeps the agreement |
| Lifecycle.SeededRunsSynced | database.py:18-326 | every disciplined sequence after seeding ends in agreement |
| Lifecycle.StartSynced | database.py:264-295 | the small starting database of the traces is well formed and in agreement |
| Lifecycle.BookedOnce | database.py:264-275 | booking room 1 gives one active booking and a booked room |
| Lifecycle.CheckedOutOnce | database.py:288-295 | checking it out frees the room |
| Lifecycle.BookedAgain | database.py:264-275 | booking room 1 again gives a second active booking |
| Lifecycle.CancelledStale | database.py:278-285 | cancelling the old, checked-out booking frees room 1 although booking 2 is active |
| Lifecycle.RebookingSynced | database.py:264-295 | book, check out, book again is disciplined and ends in agreement |
| Lifecycle.StaleCancelBreaks | database.py:278-285 | adding the cancel of the checked-out booking breaks the agreement |
| Lifecycle.DoubleBookingBreaks | database.py:264-275 | booking a booked room breaks the agreement |
| Lifecycle.MarkBookedBreaks | database.py:170-174 | marking a free room booked breaks the agreement |
| Lifecycle.MarkAvailableBreaks | database.py:170-174 | marking a booked room available breaks the agreement |
| Auth.FirstMatch | auth.py:18-21 | the first user, in id order, with that username and digest, if any |
| Auth.Login | auth.py:12-23 | a user is returned exactly when some user has the username and the stored digest of the password; the record returned is that user's |
| Auth.LoginUnique | auth.py:12-23 | with unique usernames, a matching user is the one returned |
| Auth.Registered | auth.py:26-49 | checks in order: trimmed username shorter than 3, password shorter than 6, username taken. Each failure gives its message and writes nothing. Success happens exactly when all pass, and stores the user under a fresh id with the password's digest |
| Auth.RegisterThenLogin | auth.py:26-49 | after a successful registration the new user logs in with that password |
| Auth.SetDigest | auth.py:59-60 | every user with that username gets the new digest; no one else changes |
| Auth.PasswordChanged | auth.py:52-63 | fails when the old password does not log in, then when the new one is shorter than 6, writing nothing; otherwise sets the new digest |
| Auth.ChangePasswordThenLogin | auth.py:52-63 | after a change the new password logs in as the same user; the old one stops working unless its digest is the same |
| Auth.UserDeleted | auth.py:73-77 | exactly that user's row goes; the others are unchanged |
| Auth.DeletedCannotLogin | auth.py:73-77 | a deleted user cannot log in with any password |
| Auth.Register | auth.py:26-49 | the object's new state and the result are those of `Auth.Registered` |
| Auth.ChangePassword | auth.py:52-63 | the object's new state and the result are those of `Auth.PasswordChanged` |
| Auth.DeleteUser | auth.py:73-77 | the object's new state is `Auth.UserDeleted` of the old one |
| BookingForm.Offered | ui/booking.py:164 | the room selector offers exactly the listed rooms that are available |
| BookingForm.CalcTotal | ui/booking.py:222-234 | a warning exactly when check-out is not after check-in; otherwise, with a room chosen, nights = check-out − check-in and total = nights × price; without a room the label is left alone |
| BookingForm.Submit | ui/booking.py:245-266 | `submit` keeps the schema constraints |
| BookingForm.SubmitChecks | ui/booking.py:245-266 | no room or guest gives "Please select a room and guest."; no night gives "Check-out must be after check-in."; an unreadable advance raises. In each of those cases nothing is written. A booking is stored exactly when all checks pass and room and guest exist. It has nights = check-out − check-in > 0 and total = nights × the listed price; a blank advance is 0; it is active; its room becomes booked |
| BookingForm.SubmitAgreesWithPreview | ui/booking.py:222-260 | a stored booking has the nights and total the preview showed |
| BookingForm.WarningMeansRefused | ui/booking.py:227-256 | when the preview warns, `submit` refuses with the dates message and writes nothing |
| BookingForm.SubmitIsBook | ui/booking.py:257-260 | whatever `submit` writes is one `create_booking` call with those figures |
| BookingForm.SubmitOfferedKeepsSynced | ui/booking.py:164-260 | booking an offered room from a current listing keeps rooms and active bookings in agreement |
| BookingForm.SubmitForm | ui/booking.py:245-266 | the object's new state and the outcome are those of `BookingForm.Submit` |
| Billing.TaxRate | ui/billing.py:101 | rate 0 when the setting is absent; a rate written in digits reads as that number |
| Billing.BillFigures | ui/billing.py:103-107 | tax = subtotal × rate / 100, total = subtotal + tax, due = total − advance |
| Billing.BillExample | ui/billing.py:103-107 | subtotal 3000, rate 10 and advance 500 give tax 300, total 3300 and due 2800 |
| Billing.TaxNeverLowersTotal | ui/billing.py:103-105 | with non-negative subtotal and rate the total is at least the subtotal; at rate 0 it equals it |
| Billing.BookingBill | ui/billing.py:99-107 | the bill of a listed booking uses its total and advance with the stored rate |
| Billing.FallbackNumberNamesBooking | ui/billing.py:110 | the fallback number is "INV-" followed by at least 4 digits that read back as the booking id |
| Billing.FallbackNumberWidth | ui/billing.py:110 | the fallback number has exactly 8 characters exactly when the id is below 10000, and from id 1000 on it is "INV-" and the unpadded id |
| Billing.DisplayedNumber | ui/billing.py:109-110 | the latest invoice's number when the booking has one, else the fallback number |
| Billing.Generate | ui/billing.py:139-147 | "Generate Invoice" keeps the schema constraints |
| Billing.GenerateEffect | ui/billing.py:144-147 | a booking with an invoice gets none; one without gets one `create_invoice` call. A created invoice has amount = booking total, discount 0, tax 0 and paid = advance; it is paid exactly when advance >= total. Nothing else changes |
| Billing.GenerateTwice | ui/billing.py:144-147 | after a call that did not fail, another call changes nothing |
| Billing.GenerateKeepsOnePerBooking | ui/billing.py:144-147 | invoices made through this route stay at most one per booking |
| Billing.GeneratedNumberShown | ui/billing.py:109-110 | after generating, the bill shows the new invoice's number |
| Billing.NothingDueIffPaid | ui/billing.py:103-107 | at the default rate 0, the bill shows nothing due exactly when the generated invoice is paid |
| Billing.GenerateInvoice | ui/billing.py:139-147 | the object's new state and the result are those of `Billing.Generate` |

## Left out

- Presentation: the tkinter widgets, layout, message boxes, invoice text formatting and file saving in every `ui/*.py`; only the values the screens compute and the calls they make are modelled.
- Connections, `PRAGMA` handling, commits and concurrency: each function of `database.py` is one atomic step on the tables.
- SHA-256 (`_hash_password` at `auth.py:8-9` and the seeding helper at `database.py:119-121`) is the function parameter `hash`; nothing is assumed about collisions.
- `random.choices` in `create_invoice` is the parameter `digits`, and the clock (`CURRENT_TIMESTAMP`, `DATE('now')`, `date.today()`) is the parameter `now` or `today`.
- Floating point: amounts are exact reals, so rounding is not modelled.
- SQL `LIKE` is modelled as case-sensitive substring search. SQLite's ASCII case folding and the `%`/`_` wildcards inside the query text are not modelled.
- Common.Trim: removes ASCII whitespace only, not every Unicode space that Python's `strip()` removes.
- `get_settings`, `get_all_rooms`, `get_all_guests` and `get_all_users` only read a table. The model reads the maps directly, and their ORDER BY (room number, full name) is not modelled.
- Queries.Listing: SQLite leaves the order of rows with equal `created_at` or `check_in` unspecified. The model breaks such ties by ascending id.
- Queries.SearchGuests: the query has no ORDER BY; the model returns rows in id order.
- Room statuses are the three values the program writes; other strings the column would accept are not modelled.
- Billing.TaxRate: text that Python's `float` accepts but is not plain digits (a fraction, an exponent, surrounding spaces) gives no rate in the model, so such a bill has no figures.
- BookingForm.Submit: the guest is the parameter `guestId`. The dialog looks the picked label up with `guest_labels.index` (`ui/booking.py:175`, `ui/booking.py:250`), and a label is only "name — phone". Two guests with the same name and phone share a label, so the dialog books the first of them in full-name order. The model does not capture that choice.
- BookingForm.Submit: the date fields are day numbers. An unparsable date, which makes `strptime` raise into the dialog's error label, is not modelled.
- The screens' own guards in other dialogs (confirming the new password, refusing to delete one's own account, requiring a guest name) are outside the modelled core.
- `advance_paid` can never be NULL here: every insert passes a number. So `booking.get("advance_paid", 0) or 0` is the stored advance.
