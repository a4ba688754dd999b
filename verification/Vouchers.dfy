/** Voucher requests sent to ARCA, and what their float amounts add up to. */
module Vouchers {
  import opened AppErrors
  import opened Float64
  import opened Invoices
  import opened Money
  import opened Sums

  datatype VoucherTax = VoucherTax(taxID: int64, base: real, amount: real, taxRate: real)

  datatype VoucherItem = VoucherItem(
    description: string, quantity: real, unitPrice: real, bonus: real, taxes: seq<VoucherTax>)

  datatype VoucherRequest = VoucherRequest(
    cuit: string, invoiceType: string, pointOfSale: int64, conceptType: int64,
    docType: int64, docNumber: string,
    serviceFrom: string, serviceTo: string, expirationDate: string,
    items: seq<VoucherItem>, currencyID: string, currencyRate: real)

  datatype VoucherObservation = VoucherObservation(code: int64, message: string)

  datatype VoucherResponse = VoucherResponse(
    cae: string, caeExpirationDate: string, voucherNumber: int64, voucherType: int64,
    result: string, observations: seq<VoucherObservation>)
  {
    predicate Approved() { result == "A" || result == "approved" }
  }

  datatype Customer = Customer(id: string, cuit: string)

  datatype Credential = Credential(cuit: string, expiresAt: int)

  /** Date formatting and parsing in the layout YYYYMMDD, kept abstract. */
  datatype Calendar = Calendar(format: int -> string, parse: string -> int)

  const TEN_DAYS: int := 10 * 24 * 3600 * 1_000_000_000

  function ARCAType(invoiceType: string): string {
    if invoiceType == "A" then "1" else if invoiceType == "B" then "6" else "11"
  }

  function ItemFor(item: InvoiceItem): VoucherItem
    requires item.Valid()
  {
    VoucherItem(item.description, FromInt(item.quantity), Hundredth(item.unitPriceCents), 0.0, [])
  }

  function VoucherItems(items: seq<InvoiceItem>): (v: seq<VoucherItem>)
    requires AllValid(items)
    ensures |v| == |items|
  {
    seq(|items|, i requires 0 <= i < |items| => ItemFor(items[i]))
  }

  function RequestFor(
    cal: Calendar, cred: Credential, user: Customer, inv: InvoiceData, now: int): VoucherRequest
    requires AllValid(inv.items)
  {
    VoucherRequest(
      cred.cuit, ARCAType(inv.invoiceType), inv.pointOfSale, 1,
      if inv.invoiceType == "C" then 99 else 80,
      if inv.invoiceType == "C" then "0" else user.cuit,
      cal.format(now), cal.format(now), cal.format(now + TEN_DAYS),
      VoucherItems(inv.items),
      "PES", 1.0)
  }

  // The next voucher number is passed in and, as in the program, not used.
  method BuildVoucherRequest(
    cal: Calendar, cred: Credential, user: Customer, inv: Invoice, voucherNumber: int64, now: int)
    returns (request: VoucherRequest)
    requires AllValid(inv.items)
    ensures request == RequestFor(cal, cred, user, inv.Data(), now)
  {
    var voucherType := ARCAType(inv.invoiceType);
    var docType: int64 := 80;
    var docNumber := user.cuit;
    if inv.invoiceType == "C" {
      docType := 99;
      docNumber := "0";
    }
    var items: seq<VoucherItem> := [];
    for i := 0 to |inv.items|
      invariant |items| == i
      invariant forall j :: 0 <= j < i ==> items[j] == ItemFor(inv.items[j])
    {
      var item := inv.items[i];
      items := items + [VoucherItem(item.description, FromInt(item.quantity), Hundredth(item.unitPriceCents), 0.0, [])];
    }
    request := VoucherRequest(cred.cuit, voucherType, inv.pointOfSale, 1, docType, docNumber,
                              cal.format(now), cal.format(now), cal.format(now + TEN_DAYS), items, "PES", 1.0);
  }

  function Messages(observations: seq<VoucherObservation>): (m: seq<string>)
    ensures |m| == |observations|
  {
    seq(|observations|, i requires 0 <= i < |observations| => observations[i].message)
  }

  method ObservationsFromARCA(observations: seq<VoucherObservation>) returns (result: seq<string>)
    ensures |result| == |observations| && forall i :: 0 <= i < |observations| ==> result[i] == observations[i].message
    ensures result == Messages(observations)
  {
    var messages := new string[|observations|];
    for i := 0 to |observations|
      invariant forall j :: 0 <= j < i ==> messages[j] == observations[j].message
    {
      messages[i] := observations[i].message;
    }
    result := messages[..];
  }

  function Amount(item: VoucherItem): real { item.quantity * item.unitPrice }

  function RealSum<T>(s: seq<T>, f: T -> real): real {
    if s == [] then 0.0 else RealSum(s[..|s|-1], f) + f(s[|s|-1])
  }

  // The exact sum of Quantity * UnitPrice over a request's items.
  function VoucherTotal(items: seq<VoucherItem>): real { RealSum(items, Amount) }

  // An amount is within a relative 24/25 of 2^-53 of a number of cents.
  predicate Close(amount: real, cents: int) {
    Abs(amount - cents as real / 100.0) * 225179981368524800.0 <= 24.0 * (cents as real / 100.0)
  }

  lemma ScaledError(q: real, p: real, c: real)
    requires q >= 0.0 && Abs(p - c) * 225179981368524800.0 <= 24.0 * c
    ensures Abs(q * p - q * c) * 225179981368524800.0 <= 24.0 * (q * c)
  {
    var d := p - c;
    assert q * p - q * c == q * d;
    assert q * (24.0 * c - d * 225179981368524800.0) >= 0.0;
    assert q * (24.0 * c + d * 225179981368524800.0) >= 0.0;
  }

  lemma ScaledCents(q: int, c: int)
    ensures q as real * (c as real / 100.0) == (q * c) as real / 100.0
  {
  }

  lemma TimesClose(q: int, p: real, c: int)
    requires q >= 0 && Close(p, c)
    ensures Close(q as real * p, q * c)
  {
    ScaledError(q as real, p, c as real / 100.0);
    ScaledCents(q, c);
  }

  lemma FactorsAtMost(q: int, c: int)
    requires q >= 1 && c >= 1
    ensures q <= q * c && c <= q * c
  {
    assert (q - 1) * c >= 0 && q * (c - 1) >= 0;
  }

  lemma LineClose(v: VoucherItem, item: InvoiceItem)
    requires item.Valid()
    requires item.unitPriceCents == 0 ==> v.unitPrice == 0.0
    requires item.unitPriceCents != 0 ==> v.quantity == item.quantity as real && Close(v.unitPrice, item.unitPriceCents)
    ensures Close(Amount(v), ExactOf(item))
  {
    if item.unitPriceCents == 0 {
      assert v.quantity * v.unitPrice == 0.0;
    } else {
      TimesClose(item.quantity, v.unitPrice, item.unitPriceCents);
    }
  }

  // The float quantity and price of a line, priced or free.
  lemma LineParts(q: int64, c: int64)
    requires q > 0 && c >= 0 && q * c < 0x20_0000_0000_0000
    ensures c == 0 ==> Hundredth(c) == 0.0
    ensures c != 0 ==> FromInt(q) == q as real && Close(Hundredth(c), c)
  {
    if c == 0 {
      assert FromInt(c) == 0.0;
    } else {
      FactorsAtMost(q, c);
      SmallIntegersExact(q);
      HundredthError(c);
    }
  }

  /** One line of a request is off by at most 24/25 of 2^-53 of its amount. */
  lemma LineError(item: InvoiceItem)
    requires item.Valid() && ExactOf(item) < 0x20_0000_0000_0000
    ensures Close(Amount(ItemFor(item)), ExactOf(item))
  {
    LineParts(item.quantity, item.unitPriceCents);
    LineClose(ItemFor(item), item);
  }

  lemma {:induction false} SumsStayClose<S, T>(a: seq<S>, amount: S -> real, b: seq<T>, cents: T -> int)
    requires |a| == |b| && forall i :: 0 <= i < |a| ==> Close(amount(a[i]), cents(b[i]))
    ensures Close(RealSum(a, amount), Sum(b, cents))
  {
    if a == [] {
    } else {
      SumsStayClose(a[..|a|-1], amount, b[..|b|-1], cents);
    }
  }

  lemma TotalError(items: seq<InvoiceItem>)
    requires AllValid(items) && ExactTotal(items) < 0x20_0000_0000_0000
    ensures Close(VoucherTotal(VoucherItems(items)), ExactTotal(items))
  {
    forall i | 0 <= i < |items| ensures ExactOf(items[i]) >= 0 { LineNotNegative(items[i]); }
    forall i | 0 <= i < |items| ensures Close(Amount(VoucherItems(items)[i]), ExactOf(items[i])) {
      PrefixAtMost(items, i, ExactOf);
      LineError(items[i]);
    }
    SumsStayClose(VoucherItems(items), Amount, items, ExactOf);
  }

  /** For every valid item list whose exact subtotal is below 25/24 of 2^52 cents, the float amounts of
      the voucher request add up to an amount whose nearest cent is the invoice's subtotal. */
  lemma VoucherTotalIsSubtotal(
    cal: Calendar, cred: Credential, user: Customer, id: string, customerID: string, invoiceType: string,
    pointOfSale: int64, items: seq<InvoiceItem>, key: string, now: int)
    requires AllValid(items) && 24 * ExactTotal(items) < 25 * 0x10_0000_0000_0000
    ensures var inv := Draft(id, customerID, invoiceType, pointOfSale, items, key, now);
            NearestCents(VoucherTotal(RequestFor(cal, cred, user, inv, now).items)) == inv.subtotalCents
  {
    SubtotalExactness(items);
    TotalError(items);
    NearestCentsWithin(VoucherTotal(VoucherItems(items)), ExactTotal(items));
  }

  // A line whose amount is one part in 28 million above 25/24 of 2^52 cents.
  const TOO_LARGE: InvoiceItem := InvoiceItem("item", 22369622, 209715201)

  lemma TooLargePrice()
    ensures Hundredth(209715201) == 4503599648845332.0 / 2147483648.0
  {
    var n := 4503599648845332;
    assert Pow2(-10) == 1.0 / 1024.0;
    assert Pow2(-20) == 1.0 / 1048576.0;
    assert Pow2(-31) == 1.0 / 2147483648.0;
    TimesIsProduct(n, Pow2(-31));
    ScopeOfHundredths(209715201);
    SmallIntegersExact(209715201);
    RoundsTo(2097152.01, n, -31);
  }

  lemma OneLine(item: InvoiceItem)
    requires item.Valid()
    ensures ExactTotal([item]) == ExactOf(item)
    ensures VoucherTotal(VoucherItems([item])) == Amount(ItemFor(item))
  {
    var v := VoucherItems([item]);
    assert v[..0] == [] && [item][..0] == [];
    assert Sum([item], ExactOf) == Sum([item][..0], ExactOf) + ExactOf([item][0]);
    assert RealSum(v, Amount) == RealSum(v[..0], Amount) + Amount(v[0]);
  }

  /** The limit cannot be raised by more than one part in 28 million: for this single line the amount sent to
      ARCA rounds to another number of cents than the subtotal. */
  lemma LargeTotalFails()
    ensures TOO_LARGE.Valid()
    ensures 24 * ExactTotal([TOO_LARGE]) - 25 * 0x10_0000_0000_0000 < 25 * 0x10_0000_0000_0000 / 28000000
    ensures NearestCents(VoucherTotal(VoucherItems([TOO_LARGE]))) == Wrap(ExactTotal([TOO_LARGE])) - 1
  {
    OneLine(TOO_LARGE);
    TooLargePrice();
    SmallIntegersExact(22369622);
  }

  /** Two items with prices of at most 100 * 2^46 + 1 cents are told apart in the request exactly when their
      prices differ; the next price is sent like the one before it. */
  lemma DistinctPricesDistinct(a: InvoiceItem, b: InvoiceItem)
    requires a.Valid() && b.Valid() && a.unitPriceCents <= READABLE + 1 && b.unitPriceCents <= READABLE + 1
    ensures ItemFor(a).unitPrice == ItemFor(b).unitPrice <==> a.unitPriceCents == b.unitPriceCents
  {
    if a.unitPriceCents < b.unitPriceCents {
      SmallPricesDistinct(a.unitPriceCents, b.unitPriceCents);
    } else if b.unitPriceCents < a.unitPriceCents {
      SmallPricesDistinct(b.unitPriceCents, a.unitPriceCents);
    }
  }
}
