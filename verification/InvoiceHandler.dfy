/** The HTTP handler around IssueInvoice: request items in, response items and amounts out. */
module InvoiceHandler {
  import opened AppErrors
  import opened Invoices
  import opened Issuance
  import opened IssuanceRuns
  import opened Money
  import opened Sums
  import opened Vouchers

  datatype ItemRequest = ItemRequest(description: string, quantity: int64, unitPriceCents: int64)

  datatype IssueRequest = IssueRequest(cuit: string, invoiceType: string, pointOfSale: int64, items: seq<ItemRequest>)

  datatype ItemResponse = ItemResponse(description: string, quantity: int64, unitPriceCents: int64, totalCents: int64)

  datatype IssueResponse = IssueResponse(
    invoiceID: string, status: Status, invoiceType: string, pointOfSale: int64,
    cae: string, caeExpiresAt: Option<int>, voucherNumber: int64, voucherType: int64,
    subtotalCents: int64, taxCents: int64, totalCents: int64,
    items: seq<ItemResponse>, issuedAt: Option<int>, createdAt: int)

  datatype HttpReply = Unauthorized | BadRequest | ServerError(message: string) | Created(body: IssueResponse)

  function ToItemResponse(item: InvoiceItem): ItemResponse {
    ItemResponse(item.description, item.quantity, item.unitPriceCents, item.TotalCents())
  }

  function InputFor(userID: string, key: string, req: IssueRequest): IssueInput {
    IssueInput(userID, req.invoiceType, req.pointOfSale,
               seq(|req.items|, i requires 0 <= i < |req.items| =>
                 ItemInput(req.items[i].description, req.items[i].quantity, req.items[i].unitPriceCents)),
               key)
  }

  function ResponseFor(inv: InvoiceData): IssueResponse {
    var arca := inv.arcaResponse;
    IssueResponse(
      inv.id, inv.status, inv.invoiceType, inv.pointOfSale,
      if arca.Some? then arca.value.cae else "",
      if arca.Some? then Some(arca.value.caeExpirationDate) else None,
      if arca.Some? then arca.value.voucherNumber else 0,
      if arca.Some? then arca.value.voucherType else 0,
      inv.subtotalCents, inv.taxCents, inv.totalCents,
      seq(|inv.items|, i requires 0 <= i < |inv.items| => ToItemResponse(inv.items[i])),
      inv.issuedAt, inv.createdAt)
  }

  method Describe(inv: InvoiceData) returns (resp: IssueResponse)
    ensures resp == ResponseFor(inv)
  {
    var items := new ItemResponse[|inv.items|];
    for i := 0 to |inv.items|
      invariant forall j :: 0 <= j < i ==> items[j] == ToItemResponse(inv.items[j])
    {
      items[i] := ToItemResponse(inv.items[i]);
    }
    resp := IssueResponse(inv.id, inv.status, inv.invoiceType, inv.pointOfSale, "", None, 0, 0,
                          inv.subtotalCents, inv.taxCents, inv.totalCents, items[..], None, inv.createdAt);
    if inv.arcaResponse.Some? {
      var arca := inv.arcaResponse.value;
      resp := resp.(cae := arca.cae, caeExpiresAt := Some(arca.caeExpirationDate),
                    voucherNumber := arca.voucherNumber, voucherType := arca.voucherType);
    }
    if inv.issuedAt.Some? {
      resp := resp.(issuedAt := inv.issuedAt);
    }
  }

  method Handle(service: Service, userID: string, key: string, decoded: Result<IssueRequest>, a: Answers)
    returns (reply: HttpReply)
    requires WellKeyed(service.repo.rows)
    modifies service, service.repo
    ensures userID == "" ==> reply == Unauthorized && service.Observed() == old(service.Observed())
    ensures userID != "" && decoded.Err? ==> reply == BadRequest && service.Observed() == old(service.Observed())
    ensures userID != "" && decoded.Ok? ==>
      var o := Issue(service.calendar, old(service.Observed()), InputFor(userID, key, decoded.value), a);
      && service.Observed() == o.world
      && (o.result.Ok? ==> reply == Created(ResponseFor(o.result.value)))
      && (o.result.Err? ==> reply == ServerError(o.result.error.Text()))
  {
    if userID == "" {
      return Unauthorized;
    }
    if decoded.Err? {
      return BadRequest;
    }
    var req := decoded.value;
    var inputs := new ItemInput[|req.items|];
    for i := 0 to |req.items|
      invariant forall j :: 0 <= j < i ==> inputs[j] == InputFor(userID, key, req).items[j]
      invariant service.Observed() == old(service.Observed())
    {
      inputs[i] := ItemInput(req.items[i].description, req.items[i].quantity, req.items[i].unitPriceCents);
    }
    var input := IssueInput(userID, req.invoiceType, req.pointOfSale, inputs[..], key);
    assert input == InputFor(userID, key, req);
    var result := service.IssueInvoice(input, a);
    if result.Err? {
      return ServerError(result.error.Text());
    }
    var body := Describe(result.value);
    return Created(body);
  }

  function LineTotal(item: ItemResponse): int { item.totalCents }

  ghost predicate ItemsEchoed(req: IssueRequest, resp: IssueResponse) {
    && |resp.items| == |req.items|
    && forall i :: 0 <= i < |req.items| ==>
         && resp.items[i].description == req.items[i].description
         && resp.items[i].quantity == req.items[i].quantity
         && resp.items[i].unitPriceCents == req.items[i].unitPriceCents
         && resp.items[i].totalCents == Wrap(req.items[i].quantity * req.items[i].unitPriceCents)
  }

  ghost predicate Balanced(resp: IssueResponse) {
    Wrap(Sum(resp.items, LineTotal)) == resp.subtotalCents == resp.totalCents && resp.taxCents == 0
  }

  lemma WellFormedIsBalanced(cal: Calendar, call: Call, inv: InvoiceData)
    requires WellFormed(cal, call, inv)
    ensures Balanced(ResponseFor(inv))
  {
    WrappedLinesAddUp(inv.items, ResponseFor(inv).items, LineTotal);
  }

  lemma ReturnedIsBalanced(cal: Calendar, calls: seq<Call>, i: nat)
    requires i < |calls| && ResultOf(cal, calls, i).Ok?
    ensures Balanced(ResponseFor(ResultOf(cal, calls, i).value))
  {
    var inv := ResultOf(cal, calls, i).value;
    ReturnedIsStored(cal, calls, i);
    StoredInvoices(cal, calls[..i+1], inv.id);
    var j :| 0 <= j < |calls[..i+1]| && WellFormed(cal, calls[..i+1][j], inv);
    WellFormedIsBalanced(cal, calls[..i+1][j], inv);
  }

  lemma NewIsEchoed(cal: Calendar, w: World, call: Call, userID: string, key: string, req: IssueRequest)
    requires call.input == InputFor(userID, key, req) && !Answered(w, call.input, call.answers)
    requires Issue(cal, w, call.input, call.answers).result.Ok?
    ensures var resp := ResponseFor(Issue(cal, w, call.input, call.answers).result.value);
            ItemsEchoed(req, resp) && resp.status == Issued
  {
    AttemptIsWellFormed(cal, call);
  }

  /** In every run of requests, the line totals of a successful response add up in 64 bits to its
      subtotal and total, replayed or new; and a new invoice echoes the request's items one for one. */
  lemma AmountsConserved(
    cal: Calendar, calls: seq<Call>, i: nat, userID: string, key: string, req: IssueRequest)
    requires i < |calls| && calls[i].input == InputFor(userID, key, req) && ResultOf(cal, calls, i).Ok?
    ensures var resp := ResponseFor(ResultOf(cal, calls, i).value);
            && Balanced(resp)
            && (!Answered(Run(cal, calls[..i]), calls[i].input, calls[i].answers) ==>
                  ItemsEchoed(req, resp) && resp.status == Issued)
  {
    ReturnedIsBalanced(cal, calls, i);
    if !Answered(Run(cal, calls[..i]), calls[i].input, calls[i].answers) {
      NewIsEchoed(cal, Run(cal, calls[..i]), calls[i], userID, key, req);
    }
  }

  /** The workflow gets the caller's identity as the customer, the header as the key, and the body's fields. */
  lemma InputIsRequest(userID: string, key: string, req: IssueRequest)
    ensures var input := InputFor(userID, key, req);
            && input.customerID == userID && input.idempotencyKey == key
            && input.invoiceType == req.invoiceType && input.pointOfSale == req.pointOfSale
            && |input.items| == |req.items|
            && forall i :: 0 <= i < |req.items| ==>
                 input.items[i] == ItemInput(req.items[i].description, req.items[i].quantity, req.items[i].unitPriceCents)
  {
  }

  // The response reports the invoice, and ARCA's answer where the invoice has one.
  ghost predicate Reports(resp: IssueResponse, inv: InvoiceData) {
    && resp.invoiceID == inv.id && resp.status == inv.status && resp.invoiceType == inv.invoiceType
    && resp.pointOfSale == inv.pointOfSale && resp.issuedAt == inv.issuedAt && resp.createdAt == inv.createdAt
    && resp.subtotalCents == inv.subtotalCents && resp.taxCents == inv.taxCents && resp.totalCents == inv.totalCents
    && (inv.arcaResponse.None? ==>
          resp.cae == "" && resp.caeExpiresAt == None && resp.voucherNumber == 0 && resp.voucherType == 0)
    && (inv.arcaResponse.Some? ==>
          && resp.cae == inv.arcaResponse.value.cae
          && resp.caeExpiresAt == Some(inv.arcaResponse.value.caeExpirationDate)
          && resp.voucherNumber == inv.arcaResponse.value.voucherNumber
          && resp.voucherType == inv.arcaResponse.value.voucherType)
  }

  /** In every run, a successful response reports an invoice stored for the caller under the given key; a new one
      has the requested type and point of sale and what ARCA answered to it. */
  lemma ResponseTellsTheInvoice(
    cal: Calendar, calls: seq<Call>, i: nat, userID: string, key: string, req: IssueRequest)
    requires i < |calls| && calls[i].input == InputFor(userID, key, req) && ResultOf(cal, calls, i).Ok?
    ensures var resp, rows := ResponseFor(ResultOf(cal, calls, i).value), Run(cal, calls[..i+1]).rows;
            && resp.invoiceID in rows && Reports(resp, rows[resp.invoiceID])
            && rows[resp.invoiceID].customerID == userID && rows[resp.invoiceID].idempotencyKey == key
    ensures !Answered(Run(cal, calls[..i]), calls[i].input, calls[i].answers) ==>
              var resp, a := ResponseFor(ResultOf(cal, calls, i).value), calls[i].answers;
              && resp.invoiceType == req.invoiceType && resp.pointOfSale == req.pointOfSale
              && resp.invoiceID == a.sources.freshID && resp.createdAt == a.sources.now && resp.issuedAt == Some(a.later)
              && a.arca.Ok? && resp.cae == a.arca.value.cae
              && resp.caeExpiresAt == Some(cal.parse(a.arca.value.caeExpirationDate))
              && resp.voucherNumber == a.arca.value.voucherNumber && resp.voucherType == a.arca.value.voucherType
  {
    ReturnedIsStored(cal, calls, i);
    if !Answered(Run(cal, calls[..i]), calls[i].input, calls[i].answers) {
      AttemptIsWellFormed(cal, calls[i]);
    }
  }
}
