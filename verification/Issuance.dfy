/** IssueInvoice as one sequential call: the answers of its collaborators are arguments, and every
    CreateVoucher call and every Create attempt is recorded. */
module Issuance {
  import opened AppErrors
  import opened Float64
  import opened Invoices
  import opened Money
  import opened Vouchers

  datatype ItemInput = ItemInput(description: string, quantity: int64, unitPriceCents: int64)

  datatype IssueInput = IssueInput(
    customerID: string, invoiceType: string, pointOfSale: int64,
    items: seq<ItemInput>, idempotencyKey: string)

  /** What the user, credential, identifier and ARCA sources answer before the voucher is created. */
  datatype Sources = Sources(
    user: Result<Customer>, credential: Result<Credential>, now: int,
    freshID: string, lastVoucher: Result<int64>)

  /** Everything the environment contributes to one call; `later` is the clock when it marks the invoice. */
  datatype Answers = Answers(
    lookupFault: Option<Error>, sources: Sources,
    arca: Result<VoucherResponse>, later: int, write: Write)

  type Rows = map<string, InvoiceData>

  datatype VoucherCall = VoucherCall(customerID: string, key: string, request: VoucherRequest)

  datatype Attempt = Attempt(invoice: InvoiceData, applied: bool)

  datatype World = World(rows: Rows, vouchers: seq<VoucherCall>, attempts: seq<Attempt>)

  const EMPTY := World(map[], [], [])

  predicate Matches(inv: InvoiceData, customerID: string, key: string) {
    inv.customerID == customerID && inv.idempotencyKey == key
  }

  predicate Taken(rows: Rows, customerID: string, key: string) {
    exists id :: id in rows && Matches(rows[id], customerID, key)
  }

  // Rows are stored under their primary key, and a non-empty key is unique per customer.
  ghost predicate WellKeyed(rows: Rows) {
    && (forall id :: id in rows ==> rows[id].id == id)
    && (forall i, j | i in rows && j in rows && rows[i].idempotencyKey != "" ::
          Matches(rows[i], rows[j].customerID, rows[j].idempotencyKey) ==> i == j)
  }

  ghost function Lookup(rows: Rows, customerID: string, key: string, fault: Option<Error>): Result<InvoiceData> {
    if fault.Some? then Err(Wrapped(DatabaseError, "get invoice by idempotency key", fault.value))
    else if Taken(rows, customerID, key) then
      var id :| id in rows && Matches(rows[id], customerID, key);
      Ok(rows[id])
    else Err(App(NotFound, "invoice not found"))
  }

  lemma LookupFinds(rows: Rows, id: string, fault: Option<Error>)
    requires WellKeyed(rows) && id in rows && rows[id].idempotencyKey != "" && fault.None?
    ensures Lookup(rows, rows[id].customerID, rows[id].idempotencyKey, fault) == Ok(rows[id])
  {
  }

  lemma FoundIsStored(rows: Rows, customerID: string, key: string, fault: Option<Error>)
    requires WellKeyed(rows) && Lookup(rows, customerID, key, fault).Ok?
    ensures var inv := Lookup(rows, customerID, key, fault).value;
            inv.id in rows && rows[inv.id] == inv && Matches(inv, customerID, key)
  {
  }

  // The primary key and the unique index let the row in.
  predicate Acceptable(rows: Rows, inv: InvoiceData) {
    inv.id !in rows && (inv.idempotencyKey != "" ==> !Taken(rows, inv.customerID, inv.idempotencyKey))
  }

  predicate Applied(rows: Rows, inv: InvoiceData, write: Write) {
    Acceptable(rows, inv) && write.Applied()
  }

  function Insert(rows: Rows, inv: InvoiceData, write: Write): Rows {
    if Applied(rows, inv, write) then rows[inv.id := inv] else rows
  }

  function InsertError(rows: Rows, inv: InvoiceData, write: Write): Option<Error> {
    if !Acceptable(rows, inv) then Some(App(DatabaseError, "create invoice"))
    else if write.Reported() then Some(Wrapped(DatabaseError, "create invoice", write.cause))
    else None
  }

  lemma InsertKeepsKeys(rows: Rows, inv: InvoiceData, write: Write)
    requires WellKeyed(rows)
    ensures WellKeyed(Insert(rows, inv, write))
  {
  }

  class InvoiceStore {
    var rows: Rows

    constructor ()
      ensures rows == map[]
    {
      rows := map[];
    }

    method GetByIdempotencyKey(customerID: string, key: string, fault: Option<Error>) returns (r: Result<InvoiceData>)
      ensures fault.Some? ==> r == Err(Wrapped(DatabaseError, "get invoice by idempotency key", fault.value))
      ensures fault.None? && !Taken(rows, customerID, key) ==> r == Err(App(NotFound, "invoice not found"))
      ensures fault.None? && Taken(rows, customerID, key) ==>
        r.Ok? && r.value in rows.Values && Matches(r.value, customerID, key)
      ensures WellKeyed(rows) && key != "" ==> r == Lookup(rows, customerID, key, fault)
    {
      if fault.Some? {
        return Err(Wrapped(DatabaseError, "get invoice by idempotency key", fault.value));
      }
      if id :| id in rows && Matches(rows[id], customerID, key) {
        if WellKeyed(rows) && key != "" { LookupFinds(rows, id, fault); }
        return Ok(rows[id]);
      }
      r := Err(App(NotFound, "invoice not found"));
    }

    method Create(inv: Invoice, write: Write) returns (err: Option<Error>)
      modifies this
      ensures rows == Insert(old(rows), inv.Data(), write)
      ensures err == InsertError(old(rows), inv.Data(), write)
    {
      var data := inv.Data();
      if data.id in rows || (data.idempotencyKey != "" && Taken(rows, data.customerID, data.idempotencyKey)) {
        return Some(App(DatabaseError, "create invoice"));
      }
      if write.Applied() {
        rows := rows[data.id := data];
      }
      err := if write.Reported() then Some(Wrapped(DatabaseError, "create invoice", write.cause)) else None;
    }
  }

  // The items of a request, or the error of the first invalid one.
  function BuildItems(inputs: seq<ItemInput>): (r: Result<seq<InvoiceItem>>)
    ensures r.Err? ==> r.error.IsCode(InvalidAmount)
    ensures r.Ok? ==> |r.value| == |inputs| && AllValid(r.value)
    ensures r.Ok? ==> forall i :: 0 <= i < |inputs| ==>
      r.value[i] == InvoiceItem(inputs[i].description, inputs[i].quantity, inputs[i].unitPriceCents)
  {
    if inputs == [] then Ok([]) else
      var last := inputs[|inputs|-1];
      var before := BuildItems(inputs[..|inputs|-1]);
      if before.Err? then before else
        var item := NewInvoiceItem(last.description, last.quantity, last.unitPriceCents);
        if item.Err? then Err(Wrapped(InvalidAmount, "invalid invoice item", item.error))
        else Ok(before.value + [item.value])
  }

  lemma {:induction false} FirstErrorStays(inputs: seq<ItemInput>, k: nat)
    requires k <= |inputs| && BuildItems(inputs[..k]).Err?
    ensures BuildItems(inputs) == BuildItems(inputs[..k])
    decreases |inputs| - k
  {
    if k == |inputs| {
      assert inputs[..k] == inputs;
    } else {
      assert inputs[..k+1][..k] == inputs[..k];
      FirstErrorStays(inputs, k + 1);
    }
  }

  /** A request's items are accepted exactly when each of them is. */
  lemma {:induction false} ItemsAccepted(inputs: seq<ItemInput>)
    ensures BuildItems(inputs).Ok? <==> forall i :: 0 <= i < |inputs| ==>
      InvoiceItem(inputs[i].description, inputs[i].quantity, inputs[i].unitPriceCents).Valid()
  {
    if inputs == [] {
    } else {
      var n := |inputs| - 1;
      ItemsAccepted(inputs[..n]);
      assert forall i :: 0 <= i < n ==> inputs[..n][i] == inputs[i];
    }
  }

  method NewItems(inputs: seq<ItemInput>) returns (r: Result<seq<InvoiceItem>>)
    ensures r == BuildItems(inputs)
  {
    var items: seq<InvoiceItem> := [];
    for i := 0 to |inputs|
      invariant BuildItems(inputs[..i]) == Ok(items)
    {
      assert inputs[..i+1][..i] == inputs[..i];
      var item := NewInvoiceItem(inputs[i].description, inputs[i].quantity, inputs[i].unitPriceCents);
      if item.Err? {
        FirstErrorStays(inputs, i + 1);
        return Err(Wrapped(InvalidAmount, "invalid invoice item", item.error));
      }
      items := items + [item.value];
    }
    assert inputs[..|inputs|] == inputs;
    r := Ok(items);
  }

  datatype Ready = Ready(invoice: InvoiceData, request: VoucherRequest)

  // Validation, the drafted invoice and GetLastVoucher: everything up to CreateVoucher.
  function Prepare(cal: Calendar, input: IssueInput, s: Sources): Result<Ready> {
    if !ValidType(input.invoiceType) then
      Err(Wrapped(InvalidInvoiceType, "invalid invoice type", Plain("invalid invoice type")))
    else if s.user.Err? then Err(s.user.error)
    else if s.credential.Err? then
      if s.credential.error.IsCode(NotFound) then Err(App(ARCAAuthFailed, "arca credentials not configured"))
      else Err(s.credential.error)
    else if s.now > s.credential.value.expiresAt then Err(App(ARCAAuthFailed, "arca credentials expired"))
    else
      var items := BuildItems(input.items);
      if items.Err? then Err(items.error) else
      var refused := DraftError(input.invoiceType, input.pointOfSale, items.value);
      if refused.Some? then Err(Wrapped(ValidationFailed, "create invoice", refused.value))
      else if s.lastVoucher.Err? then
        Err(Wrapped(ARCAServiceUnavailable, "get last voucher", s.lastVoucher.error))
      else
        var inv := Draft(s.freshID, input.customerID, input.invoiceType, input.pointOfSale, items.value,
                         input.idempotencyKey, s.now);
        Ok(Ready(inv, RequestFor(cal, s.credential.value, s.user.value, inv, s.now)))
  }

  // What a request must be, whatever its environment.
  ghost predicate Preparable(req: IssueInput) {
    && ValidType(req.invoiceType) && req.pointOfSale > 0 && req.items != []
    && forall i :: 0 <= i < |req.items| ==>
         InvoiceItem(req.items[i].description, req.items[i].quantity, req.items[i].unitPriceCents).Valid()
  }

  // What its environment must answer: a customer, an unexpired credential and a last voucher.
  predicate Available(s: Sources) {
    s.user.Ok? && s.credential.Ok? && s.now <= s.credential.value.expiresAt && s.lastVoucher.Ok?
  }

  /** A call gets as far as CreateVoucher exactly when its request is well formed and its sources answer. */
  lemma PreparedExactly(cal: Calendar, req: IssueInput, sources: Sources)
    ensures Prepare(cal, req, sources).Ok? <==> Preparable(req) && Available(sources)
  {
    ItemsAccepted(req.items);
  }

  // Every item of the request, in order, with its quantity and its price in currency units as floats.
  ghost predicate ItemsSent(items: seq<VoucherItem>, inputs: seq<ItemInput>) {
    && |items| == |inputs|
    && forall i :: 0 <= i < |items| ==>
         && items[i].description == inputs[i].description
         && inputs[i].quantity > 0 && items[i].quantity == FromInt(inputs[i].quantity)
         && inputs[i].unitPriceCents >= 0 && items[i].unitPrice == Hundredth(inputs[i].unitPriceCents)
         && items[i].bonus == 0.0 && items[i].taxes == []
  }

  // What ARCA is told about a request, given what the sources answered.
  ghost predicate Describes(cal: Calendar, input: IssueInput, s: Sources, v: VoucherRequest) {
    && s.user.Ok? && s.credential.Ok?
    && v.cuit == s.credential.value.cuit && v.pointOfSale == input.pointOfSale
    && (input.invoiceType == "A" ==> v.invoiceType == "1")
    && (input.invoiceType == "B" ==> v.invoiceType == "6")
    && (input.invoiceType == "C" ==> v.invoiceType == "11")
    && (input.invoiceType in {"A", "B"} ==> v.docType == 80 && v.docNumber == s.user.value.cuit)
    && (input.invoiceType == "C" ==> v.docType == 99 && v.docNumber == "0")
    && v.conceptType == 1 && v.currencyID == "PES" && v.currencyRate == 1.0
    && v.serviceFrom == v.serviceTo == cal.format(s.now)
    && v.expirationDate == cal.format(s.now + 864_000_000_000_000)
    && ItemsSent(v.items, input.items)
  }

  /** The request sent to ARCA names the credential's CUIT and, for types A and B, the customer's; for type C
      an anonymous consumer; and it carries the request's items one for one. */
  lemma RequestDescribes(cal: Calendar, input: IssueInput, s: Sources)
    requires Prepare(cal, input, s).Ok?
    ensures Describes(cal, input, s, Prepare(cal, input, s).value.request)
  {
    var items := BuildItems(input.items).value;
    assert Prepare(cal, input, s).value.request.items == VoucherItems(items);
  }

  function ResponseOf(cal: Calendar, v: VoucherResponse): ARCAResponse {
    ARCAResponse(v.cae, cal.parse(v.caeExpirationDate), v.voucherNumber, v.voucherType, v.result,
                 Messages(v.observations))
  }

  // The invoice that is persisted once ARCA has answered.
  function Marked(cal: Calendar, inv: InvoiceData, arca: Result<VoucherResponse>, later: int): InvoiceData {
    match arca
    case Err(e) => RejectedWith(inv, [e.Text()], later)
    case Ok(v) => if v.Approved() then IssuedWith(inv, ResponseOf(cal, v), later)
                  else RejectedWith(inv, Messages(v.observations), later)
  }

  // What the caller is told about ARCA's answer.
  function Refusal(arca: Result<VoucherResponse>): Option<Error> {
    match arca
    case Err(e) => Some(Wrapped(ARCARejected, "arca rejected invoice", e))
    case Ok(v) => if v.Approved() then None else Some(App(ARCARejected, "arca rejected invoice"))
  }

  function Reply(inv: InvoiceData, refusal: Option<Error>, insertError: Option<Error>): Result<InvoiceData> {
    if refusal.Some? then Err(refusal.value)
    else if insertError.Some? then Err(Wrapped(DatabaseError, "persist invoice", insertError.value))
    else Ok(inv)
  }

  datatype Outcome = Outcome(world: World, result: Result<InvoiceData>)

  // The caller is answered from the lookup alone.
  ghost predicate Answered(w: World, input: IssueInput, a: Answers) {
    && input.idempotencyKey != ""
    && var existing := Lookup(w.rows, input.customerID, input.idempotencyKey, a.lookupFault);
       existing.Ok? || !existing.error.IsCode(NotFound)
  }

  // One voucher call and the attempt to store its invoice.
  function Record(w: World, call: VoucherCall, inv: InvoiceData, write: Write): World {
    World(Insert(w.rows, inv, write), w.vouchers + [call],
          w.attempts + [Attempt(inv, Applied(w.rows, inv, write))])
  }

  ghost function Issue(cal: Calendar, w: World, input: IssueInput, a: Answers): Outcome {
    if Answered(w, input, a) then
      Outcome(w, Lookup(w.rows, input.customerID, input.idempotencyKey, a.lookupFault))
    else
      var ready := Prepare(cal, input, a.sources);
      if ready.Err? then Outcome(w, Err(ready.error)) else
        var inv := Marked(cal, ready.value.invoice, a.arca, a.later);
        Outcome(
          Record(w, VoucherCall(input.customerID, input.idempotencyKey, ready.value.request), inv, a.write),
          Reply(inv, Refusal(a.arca), InsertError(w.rows, inv, a.write)))
  }

  class Service {
    const calendar: Calendar
    const repo: InvoiceStore
    ghost var vouchers: seq<VoucherCall>
    ghost var attempts: seq<Attempt>

    constructor (calendar: Calendar, repo: InvoiceStore)
      ensures this.calendar == calendar && this.repo == repo && vouchers == [] && attempts == []
    {
      this.calendar, this.repo := calendar, repo;
      vouchers, attempts := [], [];
    }

    ghost function Observed(): World
      reads this, repo
    {
      World(repo.rows, vouchers, attempts)
    }

    method Persist(inv: Invoice, write: Write) returns (err: Option<Error>)
      modifies this, repo
      ensures repo.rows == Insert(old(repo.rows), inv.Data(), write)
      ensures err == InsertError(old(repo.rows), inv.Data(), write)
      ensures vouchers == old(vouchers)
      ensures attempts == old(attempts) + [Attempt(inv.Data(), Applied(old(repo.rows), inv.Data(), write))]
    {
      attempts := attempts + [Attempt(inv.Data(), Applied(repo.rows, inv.Data(), write))];
      err := repo.Create(inv, write);
    }

    // CreateVoucher, marking and persisting: the part of IssueInvoice that changes something.
    method Submit(inv: Invoice, request: VoucherRequest, a: Answers) returns (r: Result<InvoiceData>)
      modifies this, repo, inv
      ensures var marked := Marked(calendar, old(inv.Data()), a.arca, a.later);
              && repo.rows == Insert(old(repo.rows), marked, a.write)
              && vouchers == old(vouchers) + [VoucherCall(marked.customerID, marked.idempotencyKey, request)]
              && attempts == old(attempts) + [Attempt(marked, Applied(old(repo.rows), marked, a.write))]
              && r == Reply(marked, Refusal(a.arca), InsertError(old(repo.rows), marked, a.write))
    {
      vouchers := vouchers + [VoucherCall(inv.customerID, inv.idempotencyKey, request)];
      if a.arca.Err? {
        inv.MarkRejected([a.arca.error.Text()], a.later);
        var _ := Persist(inv, a.write);
        return Err(Wrapped(ARCARejected, "arca rejected invoice", a.arca.error));
      }
      var response := a.arca.value;
      if response.result != "A" && response.result != "approved" {
        var observations := ObservationsFromARCA(response.observations);
        inv.MarkRejected(observations, a.later);
        var _ := Persist(inv, a.write);
        return Err(App(ARCARejected, "arca rejected invoice"));
      }

      var messages := ObservationsFromARCA(response.observations);
      inv.MarkIssued(ARCAResponse(response.cae, calendar.parse(response.caeExpirationDate), response.voucherNumber,
                                  response.voucherType, response.result, messages), a.later);
      var err := Persist(inv, a.write);
      if err.Some? {
        return Err(Wrapped(DatabaseError, "persist invoice", err.value));
      }
      return Ok(inv.Data());
    }

    method IssueInvoice(input: IssueInput, a: Answers) returns (r: Result<InvoiceData>)
      requires WellKeyed(repo.rows)
      modifies this, repo
      ensures Observed() == Issue(calendar, old(Observed()), input, a).world
      ensures r == Issue(calendar, old(Observed()), input, a).result
      ensures WellKeyed(repo.rows)
    {
      if input.idempotencyKey != "" {
        var existing := repo.GetByIdempotencyKey(input.customerID, input.idempotencyKey, a.lookupFault);
        if existing.Err? && !existing.error.IsCode(NotFound) {
          return Err(existing.error);
        }
        if existing.Ok? {
          return Ok(existing.value);
        }
      }

      var invType := ParseInvoiceType(input.invoiceType);
      if invType.Err? {
        return Err(Wrapped(InvalidInvoiceType, "invalid invoice type", invType.error));
      }
      if a.sources.user.Err? {
        return Err(a.sources.user.error);
      }
      if a.sources.credential.Err? {
        if a.sources.credential.error.IsCode(NotFound) {
          return Err(App(ARCAAuthFailed, "arca credentials not configured"));
        }
        return Err(a.sources.credential.error);
      }
      var cred := a.sources.credential.value;
      if a.sources.now > cred.expiresAt {
        return Err(App(ARCAAuthFailed, "arca credentials expired"));
      }

      var items := NewItems(input.items);
      if items.Err? {
        return Err(items.error);
      }

      var created := NewInvoice(a.sources.freshID, input.customerID, invType.value, input.pointOfSale, items.value,
                                input.idempotencyKey, a.sources.now);
      if created.Err? {
        return Err(Wrapped(ValidationFailed, "create invoice", created.error));
      }
      var inv := created.value;

      if a.sources.lastVoucher.Err? {
        return Err(Wrapped(ARCAServiceUnavailable, "get last voucher", a.sources.lastVoucher.error));
      }
      var voucherNumber := Wrap(a.sources.lastVoucher.value + 1);

      var request := BuildVoucherRequest(calendar, cred, a.sources.user.value, inv, voucherNumber, a.sources.now);
      InsertKeepsKeys(repo.rows, Marked(calendar, inv.Data(), a.arca, a.later), a.write);
      r := Submit(inv, request, a);
    }
  }
}
