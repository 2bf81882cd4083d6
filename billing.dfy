/**
 * The billing view of ui/billing.py: the figures printed on a booking's
 * bill, the invoice number printed on it, and "Generate Invoice", which
 * records an invoice for the booking unless it already has one. The booking
 * is the row the view listed (its id and record).
 */
module Billing {
  import opened Common
  import opened Schema
  import Tables
  import Queries
  import Store

  // ---------------------------------------------------------------------
  // _build_invoice_text: the figures
  // ---------------------------------------------------------------------

  /** `float(settings.get("tax_rate", 0))`: 0 when unset; a rate written in digits reads as that number. */
  function TaxRate(settings: map<string, string>): (r: Option<real>)
    ensures "tax_rate" !in settings ==> r == Some(0.0)
    ensures "tax_rate" in settings ==>
      (r.Some? <==> |settings["tax_rate"]| > 0 && AllDigits(settings["tax_rate"]))
    ensures r.Some? && "tax_rate" in settings ==> r.value == DecimalValue(settings["tax_rate"]) as real
  {
    if "tax_rate" !in settings then Some(0.0)
    else
      var text := settings["tax_rate"];
      if |text| > 0 && AllDigits(text) then Some(DecimalValue(text) as real) else None
  }

  /** The tax on a subtotal at a rate in percent. */
  function TaxAmount(subtotal: real, rate: real): real {
    subtotal * rate / 100.0
  }

  /** The money lines of the bill. */
  datatype Figures = Figures(subtotal: real, tax: real, total: real, advance: real, due: real)

  /** Sub-total, tax at `rate` percent, total with tax, the advance paid and what is still due. */
  function BillFigures(subtotal: real, rate: real, advance: real): (f: Figures)
    ensures f.subtotal == subtotal && f.advance == advance
    ensures f.tax == TaxAmount(subtotal, rate)
    ensures f.total == f.subtotal + f.tax
    ensures f.due == f.total - f.advance
  {
    var tax := TaxAmount(subtotal, rate);
    Figures(subtotal, tax, subtotal + tax, advance, subtotal + tax - advance)
  }

  /** The bill of a 3000 stay at a 10 percent rate with 500 paid in advance. */
  lemma BillExample()
    ensures BillFigures(3000.0, 10.0, 500.0) == Figures(3000.0, 300.0, 3300.0, 500.0, 2800.0)
  {
  }

  /** Tax at a rate no less than 0 never lowers the total; at rate 0 the total is the sub-total. */
  lemma TaxNeverLowersTotal(subtotal: real, rate: real, advance: real)
    requires subtotal >= 0.0 && rate >= 0.0
    ensures BillFigures(subtotal, rate, advance).total >= subtotal
    ensures rate == 0.0 ==> BillFigures(subtotal, rate, advance).total == subtotal
  {
    assert subtotal * rate >= 0.0;
  }

  /** The figures of a listed booking under the stored tax rate (none when the rate does not read as a number). */
  function BookingBill(db: Db, booking: Booking): (r: Option<Figures>)
    ensures r.Some? <==> TaxRate(db.settings).Some?
    ensures r.Some? ==> r.value == BillFigures(booking.total, TaxRate(db.settings).value, booking.advance)
  {
    match TaxRate(db.settings)
    case None => None
    case Some(rate) => Some(BillFigures(booking.total, rate, booking.advance))
  }

  // ---------------------------------------------------------------------
  // _build_invoice_text: the number
  // ---------------------------------------------------------------------

  /** The number the bill prints when the booking has no invoice: "INV-" and the id in at least 4 digits. */
  function FallbackNumber(bookingId: nat): string {
    "INV-" + ZeroPad(NatToDecimal(bookingId), 4)
  }

  /** The fallback number names the booking: it reads back as the booking id. */
  lemma FallbackNumberNamesBooking(bookingId: nat)
    ensures var s := FallbackNumber(bookingId);
      && |s| >= 8 && s[..4] == "INV-" && AllDigits(s[4..]) && DecimalValue(s[4..]) == bookingId
  {
    var s := FallbackNumber(bookingId);
    assert s[4..] == ZeroPad(NatToDecimal(bookingId), 4);
    PaddedDecimalRoundTrip(bookingId, 4);
  }

  /** The fallback number has exactly 8 characters below id 10000, and is "INV-" and the unpadded id from 1000 on. */
  lemma FallbackNumberWidth(bookingId: nat)
    ensures bookingId < 10000 <==> |FallbackNumber(bookingId)| == 8
    ensures bookingId >= 1000 ==> FallbackNumber(bookingId) == "INV-" + NatToDecimal(bookingId)
  {
    var d := NatToDecimal(bookingId);
    assert Pow10(1) == 10 && Pow10(2) == 100 && Pow10(3) == 1000 && Pow10(4) == 10000;
    DecimalLength(bookingId, 4);
    DecimalLength(bookingId, 3);
    if bookingId >= 1000 {
      assert ZeroPad(d, 4) == d;
    }
  }

  /** The number on the bill: that of the booking's latest invoice, else the fallback number. */
  function DisplayedNumber(db: Db, bookingId: nat): (s: string)
    requires IdsBelow(db.invoices, db.nextInvoice)
    ensures Queries.GetInvoiceByBooking(db, bookingId).None? ==> s == FallbackNumber(bookingId)
    ensures Queries.GetInvoiceByBooking(db, bookingId).Some? ==>
      s == db.invoices[Queries.GetInvoiceByBooking(db, bookingId).value].number
  {
    match Queries.GetInvoiceByBooking(db, bookingId)
    case None => FallbackNumber(bookingId)
    case Some(id) => db.invoices[id].number
  }

  // ---------------------------------------------------------------------
  // _generate_invoice
  // ---------------------------------------------------------------------

  /**
   * `_generate_invoice`: when the booking has no invoice yet, `create_invoice`
   * for its total, no discount, no tax and its advance as paid; otherwise
   * nothing. The value is the result of `create_invoice` when it was called.
   */
  function Generate(db: Db, bookingId: nat, booking: Booking, digits: InvoiceDigits, now: int)
    : (r: Tables.Step<Option<Result<string, DbError>>>)
    requires WellFormed(db)
    ensures WellFormed(r.db)
  {
    if Queries.GetInvoiceByBooking(db, bookingId).Some? then Tables.Step(db, None)
    else
      var step := Tables.CreateInvoice(db, bookingId, booking.total, 0.0, 0.0, booking.advance, digits, now);
      Tables.Step(step.db, Some(step.value))
  }

  /**
   * A booking that has an invoice gets no other; one that has none gets at
   * most one, recorded with the booking's figures, marked paid exactly when
   * the advance covers the total; nothing else changes.
   */
  lemma GenerateEffect(db: Db, bookingId: nat, booking: Booking, digits: InvoiceDigits, now: int,
                       r: Tables.Step<Option<Result<string, DbError>>>)
    requires WellFormed(db) && r == Generate(db, bookingId, booking, digits, now)
    ensures Queries.GetInvoiceByBooking(db, bookingId).Some? ==> r == Tables.Step(db, None)
    ensures Queries.GetInvoiceByBooking(db, bookingId).None? ==> r.value.Some?
    ensures !(r.value.Some? && r.value.value.Ok?) ==> r.db == db
    ensures r.value.Some? && r.value.value.Ok? ==>
      && r.db.invoices.Keys == db.invoices.Keys + {db.nextInvoice}
      && (forall id :: id in db.invoices ==> r.db.invoices[id] == db.invoices[id])
      && r.db.invoices[db.nextInvoice].bookingId == bookingId
      && r.db.invoices[db.nextInvoice].number == r.value.value.value
      && r.db.invoices[db.nextInvoice].amount == booking.total
      && r.db.invoices[db.nextInvoice].discount == 0.0
      && r.db.invoices[db.nextInvoice].tax == 0.0
      && r.db.invoices[db.nextInvoice].paid == booking.advance
      && (r.db.invoices[db.nextInvoice].status == Paid <==> booking.advance >= booking.total)
  {
  }

  /**
   * Under the default tax rate of 0 the bill shows nothing due exactly when
   * the invoice just generated is marked paid.
   */
  lemma NothingDueIffPaid(db: Db, bookingId: nat, booking: Booking, digits: InvoiceDigits, now: int)
    requires WellFormed(db) && TaxRate(db.settings) == Some(0.0)
    requires Generate(db, bookingId, booking, digits, now).value.Some?
    requires Generate(db, bookingId, booking, digits, now).value.value.Ok?
    ensures var r := Generate(db, bookingId, booking, digits, now);
      BookingBill(db, booking).value.due <= 0.0 <==> r.db.invoices[db.nextInvoice].status == Paid
  {
    assert TaxAmount(booking.total, 0.0) == 0.0;
  }

  /** After a call that did not fail, calling again changes nothing, whatever digits are drawn. */
  lemma GenerateTwice(db: Db, bookingId: nat, booking: Booking, digits: InvoiceDigits, again: InvoiceDigits,
                      now: int, later: int)
    requires WellFormed(db)
    requires Generate(db, bookingId, booking, digits, now).value.Some? ==>
             Generate(db, bookingId, booking, digits, now).value.value.Ok?
    ensures var r := Generate(db, bookingId, booking, digits, now);
      Generate(r.db, bookingId, booking, again, later) == Tables.Step(r.db, None)
  {
    var r := Generate(db, bookingId, booking, digits, now);
    if Queries.GetInvoiceByBooking(db, bookingId).None? {
      assert r.db.invoices[db.nextInvoice].bookingId == bookingId;
    }
  }

  /** No booking has two invoices. */
  ghost predicate OneInvoicePerBooking(db: Db) {
    forall a, b :: a in db.invoices && b in db.invoices && db.invoices[a].bookingId == db.invoices[b].bookingId ==> a == b
  }

  /** Invoices made only through "Generate Invoice" stay one per booking. */
  lemma GenerateKeepsOnePerBooking(db: Db, bookingId: nat, booking: Booking, digits: InvoiceDigits, now: int)
    requires WellFormed(db) && OneInvoicePerBooking(db)
    ensures OneInvoicePerBooking(Generate(db, bookingId, booking, digits, now).db)
  {
    var r := Generate(db, bookingId, booking, digits, now);
    if r.db != db {
      var n := db.nextInvoice;
      assert forall id :: id in db.invoices ==> db.invoices[id].bookingId != bookingId;
      forall a, b | a in r.db.invoices && b in r.db.invoices && r.db.invoices[a].bookingId == r.db.invoices[b].bookingId
        ensures a == b
      {
        if a != n && b != n {
          assert r.db.invoices[a] == db.invoices[a] && r.db.invoices[b] == db.invoices[b];
        }
      }
    }
  }

  /** Once an invoice is generated the bill prints its number. */
  lemma GeneratedNumberShown(db: Db, bookingId: nat, booking: Booking, digits: InvoiceDigits, now: int)
    requires WellFormed(db)
    requires Generate(db, bookingId, booking, digits, now).value.Some?
    requires Generate(db, bookingId, booking, digits, now).value.value.Ok?
    ensures var r := Generate(db, bookingId, booking, digits, now);
      DisplayedNumber(r.db, bookingId) == r.value.value.value
  {
    var r := Generate(db, bookingId, booking, digits, now);
    var n := db.nextInvoice;
    assert r.db.invoices[n].bookingId == bookingId;
    var shown := Queries.GetInvoiceByBooking(r.db, bookingId);
    assert shown.value == n by {
      assert shown.value <= n;
      assert n <= shown.value;
    }
  }

  /** `_generate_invoice` on the database file. */
  method GenerateInvoice(h: Store.Hotel, bookingId: nat, booking: Booking, digits: InvoiceDigits, now: int)
    returns (r: Option<Result<string, DbError>>)
    requires h.Valid()
    modifies h
    ensures Generate(old(h.State()), bookingId, booking, digits, now) == Tables.Step(h.State(), r)
    ensures h.Valid()
  {
    if Queries.GetInvoiceByBooking(h.State(), bookingId).Some? {
      return None;
    }
    var created := h.CreateInvoice(bookingId, booking.total, 0.0, 0.0, booking.advance, digits, now);
    r := Some(created);
  }
}
