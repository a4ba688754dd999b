/** The invoice entity: construction with the subtotal loop, and its status changes. */
module Invoices {
  import opened AppErrors
  import opened Money
  import opened Sums

  datatype Status = Pending | Issued | Rejected | Cancelled

  datatype ARCAResponse = ARCAResponse(
    cae: string, caeExpirationDate: int, voucherNumber: int64, voucherType: int64,
    result: string, observations: seq<string>)

  /** The value of an invoice; times are instants in nanoseconds. */
  datatype InvoiceData = InvoiceData(
    id: string, customerID: string, invoiceType: string, pointOfSale: int64,
    items: seq<InvoiceItem>, status: Status,
    subtotalCents: int64, taxCents: int64, totalCents: int64,
    arcaResponse: Option<ARCAResponse>, idempotencyKey: string,
    createdAt: int, updatedAt: int, issuedAt: Option<int>)

  predicate ValidType(t: string) { t == "A" || t == "B" || t == "C" }

  function ParseInvoiceType(s: string): (r: Result<string>)
    ensures r.Ok? <==> s in {"A", "B", "C"}
    ensures r.Ok? <==> ValidType(s)
    ensures r.Ok? ==> r.value == s
  {
    if s == "A" || s == "B" || s == "C" then Ok(s) else Err(Plain("invalid invoice type"))
  }

  // What the domain refuses to build, in the order of its checks.
  function DraftError(invoiceType: string, pointOfSale: int64, items: seq<InvoiceItem>): Option<Error> {
    if items == [] then Some(Plain("invoice must have at least one item"))
    else if pointOfSale <= 0 then Some(Plain("point of sale must be positive"))
    else if !ValidType(invoiceType) then Some(Plain("invalid invoice type"))
    else None
  }

  function Draft(
    id: string, customerID: string, invoiceType: string, pointOfSale: int64,
    items: seq<InvoiceItem>, idempotencyKey: string, now: int): InvoiceData
  {
    var subtotal := Wrap(ExactTotal(items));
    InvoiceData(id, customerID, invoiceType, pointOfSale, items, Pending,
                subtotal, 0, subtotal, None, idempotencyKey, now, now, None)
  }

  function RejectedWith(inv: InvoiceData, observations: seq<string>, now: int): InvoiceData {
    inv.(status := Rejected,
         arcaResponse := Some(ARCAResponse("", 0, 0, 0, "rejected", observations)),
         updatedAt := now)
  }

  function IssuedWith(inv: InvoiceData, response: ARCAResponse, now: int): InvoiceData {
    inv.(status := Issued, arcaResponse := Some(response), issuedAt := Some(now), updatedAt := now)
  }

  class Invoice {
    var id: string
    var customerID: string
    var invoiceType: string
    var pointOfSale: int64
    var items: seq<InvoiceItem>
    var status: Status
    var subtotalCents: int64
    var taxCents: int64
    var totalCents: int64
    var arcaResponse: Option<ARCAResponse>
    var idempotencyKey: string
    var createdAt: int
    var updatedAt: int
    var issuedAt: Option<int>

    function Data(): InvoiceData
      reads this
    {
      InvoiceData(id, customerID, invoiceType, pointOfSale, items, status, subtotalCents, taxCents,
                  totalCents, arcaResponse, idempotencyKey, createdAt, updatedAt, issuedAt)
    }

    constructor (data: InvoiceData)
      ensures Data() == data
    {
      id, customerID, invoiceType, pointOfSale := data.id, data.customerID, data.invoiceType, data.pointOfSale;
      items, status := data.items, data.status;
      subtotalCents, taxCents, totalCents := data.subtotalCents, data.taxCents, data.totalCents;
      arcaResponse, idempotencyKey := data.arcaResponse, data.idempotencyKey;
      createdAt, updatedAt, issuedAt := data.createdAt, data.updatedAt, data.issuedAt;
    }

    method MarkIssued(response: ARCAResponse, now: int)
      modifies this
      ensures Data() == IssuedWith(old(Data()), response, now)
    {
      status := Issued;
      arcaResponse := Some(response);
      issuedAt := Some(now);
      updatedAt := now;
    }

    method MarkRejected(observations: seq<string>, now: int)
      modifies this
      ensures Data() == RejectedWith(old(Data()), observations, now)
    {
      status := Rejected;
      arcaResponse := Some(ARCAResponse("", 0, 0, 0, "rejected", observations));
      updatedAt := now;
    }

    method MarkCancelled(now: int)
      modifies this
      ensures Data() == old(Data()).(status := Cancelled, updatedAt := now)
    {
      status := Cancelled;
      updatedAt := now;
    }
  }

  method NewInvoice(
    id: string, customerID: string, invoiceType: string, pointOfSale: int64,
    items: seq<InvoiceItem>, idempotencyKey: string, now: int)
    returns (r: Result<Invoice>)
    ensures var refused := DraftError(invoiceType, pointOfSale, items);
            && (refused.Some? ==> r == Err(refused.value))
            && (refused.None? ==>
                  && r.Ok? && fresh(r.value)
                  && r.value.Data() == Draft(id, customerID, invoiceType, pointOfSale, items, idempotencyKey, now))
  {
    if items == [] {
      return Err(Plain("invoice must have at least one item"));
    }
    if pointOfSale <= 0 {
      return Err(Plain("point of sale must be positive"));
    }
    if !ValidType(invoiceType) {
      return Err(Plain("invalid invoice type"));
    }
    var subtotal: int64 := 0;
    for i := 0 to |items|
      invariant subtotal == Wrap(ExactTotal(items[..i]))
    {
      assert items[..i+1] == items[..i] + [items[i]];
      SumOfAppend(items[..i], items[i], ExactOf);
      WrapAdd(ExactTotal(items[..i]), ExactOf(items[i]));
      subtotal := Wrap(subtotal + items[i].TotalCents());
    }
    assert items[..|items|] == items;
    var inv := new Invoice(InvoiceData(id, customerID, invoiceType, pointOfSale, items, Pending,
                                       subtotal, 0, subtotal, None, idempotencyKey, now, now, None));
    r := Ok(inv);
  }
}
