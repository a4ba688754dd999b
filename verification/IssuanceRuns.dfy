/** Properties of every sequential run of IssueInvoice from an empty store. */
module IssuanceRuns {
  import opened AppErrors
  import opened Invoices
  import opened Issuance
  import opened Money
  import opened Sums
  import opened Vouchers

  datatype Call = Call(input: IssueInput, answers: Answers)

  ghost function Run(cal: Calendar, calls: seq<Call>): World {
    if calls == [] then EMPTY else
      var n := |calls| - 1;
      Issue(cal, Run(cal, calls[..n]), calls[n].input, calls[n].answers).world
  }

  ghost function ResultOf(cal: Calendar, calls: seq<Call>, i: nat): Result<InvoiceData>
    requires i < |calls|
  {
    Issue(cal, Run(cal, calls[..i]), calls[i].input, calls[i].answers).result
  }

  lemma RunStep(cal: Calendar, calls: seq<Call>, i: nat)
    requires i < |calls|
    ensures Run(cal, calls[..i+1]) == Issue(cal, Run(cal, calls[..i]), calls[i].input, calls[i].answers).world
  {
    assert calls[..i+1][..i] == calls[..i];
  }

  // ---- What an invoice that reached the store looks like ----

  ghost predicate ItemsAsRequested(items: seq<InvoiceItem>, inputs: seq<ItemInput>) {
    && |items| == |inputs| >= 1 && AllValid(items)
    && forall i :: 0 <= i < |items| ==>
         items[i] == InvoiceItem(inputs[i].description, inputs[i].quantity, inputs[i].unitPriceCents)
  }

  ghost predicate ARCAApproved(a: Answers) {
    a.arca.Ok? && (a.arca.value.result == "A" || a.arca.value.result == "approved")
  }

  ghost predicate MessagesOf(messages: seq<string>, observations: seq<VoucherObservation>) {
    && |messages| == |observations|
    && forall i :: 0 <= i < |messages| ==> messages[i] == observations[i].message
  }

  ghost predicate WellFormed(cal: Calendar, call: Call, inv: InvoiceData) {
    var input, a := call.input, call.answers;
    && inv.id == a.sources.freshID
    && inv.customerID == input.customerID && inv.idempotencyKey == input.idempotencyKey
    && inv.invoiceType == input.invoiceType && inv.invoiceType in {"A", "B", "C"}
    && inv.pointOfSale == input.pointOfSale > 0
    && ItemsAsRequested(inv.items, input.items)
    && inv.subtotalCents == Wrap(ExactTotal(inv.items)) && inv.totalCents == inv.subtotalCents && inv.taxCents == 0
    && (inv.status == Issued || inv.status == Rejected)
    && (inv.status == Issued <==> ARCAApproved(a))
    && inv.createdAt == a.sources.now && inv.updatedAt == a.later
    && inv.arcaResponse.Some?
    && (inv.status == Issued ==>
          && inv.issuedAt == Some(a.later)
          && inv.arcaResponse.value.cae == a.arca.value.cae
          && inv.arcaResponse.value.caeExpirationDate == cal.parse(a.arca.value.caeExpirationDate)
          && inv.arcaResponse.value.voucherNumber == a.arca.value.voucherNumber
          && inv.arcaResponse.value.voucherType == a.arca.value.voucherType
          && inv.arcaResponse.value.result == a.arca.value.result
          && MessagesOf(inv.arcaResponse.value.observations, a.arca.value.observations))
    && (inv.status == Rejected ==>
          && inv.issuedAt == None && inv.arcaResponse.value.result == "rejected"
          && inv.arcaResponse.value.cae == "" && inv.arcaResponse.value.voucherNumber == 0
          && inv.arcaResponse.value.caeExpirationDate == 0 && inv.arcaResponse.value.voucherType == 0
          && (a.arca.Err? ==> inv.arcaResponse.value.observations == [a.arca.error.Text()])
          && (a.arca.Ok? ==> MessagesOf(inv.arcaResponse.value.observations, a.arca.value.observations)))
  }

  // The invoice and the voucher call of a call that gets as far as CreateVoucher.
  function InvoiceOf(cal: Calendar, call: Call): InvoiceData
    requires Prepare(cal, call.input, call.answers.sources).Ok?
  {
    Marked(cal, Prepare(cal, call.input, call.answers.sources).value.invoice, call.answers.arca, call.answers.later)
  }

  function VoucherOf(cal: Calendar, call: Call): VoucherCall
    requires Prepare(cal, call.input, call.answers.sources).Ok?
  {
    VoucherCall(call.input.customerID, call.input.idempotencyKey,
                Prepare(cal, call.input, call.answers.sources).value.request)
  }

  // The CreateVoucher call and the Create attempt that belong together.
  ghost predicate Corresponds(v: VoucherCall, inv: InvoiceData) {
    && v.customerID == inv.customerID && v.key == inv.idempotencyKey
    && v.request.pointOfSale == inv.pointOfSale && v.request.invoiceType == ARCAType(inv.invoiceType)
    && AllValid(inv.items) && v.request.items == VoucherItems(inv.items)
  }

  lemma PreparedDraft(cal: Calendar, call: Call) returns (items: seq<InvoiceItem>)
    requires Prepare(cal, call.input, call.answers.sources).Ok?
    ensures var s, input := call.answers.sources, call.input;
            && ValidType(input.invoiceType) && input.pointOfSale > 0 && ItemsAsRequested(items, input.items)
            && Prepare(cal, input, s).value.invoice == Draft(s.freshID, input.customerID, input.invoiceType,
                 input.pointOfSale, items, input.idempotencyKey, s.now)
            && VoucherOf(cal, call).request.items == VoucherItems(items)
            && VoucherOf(cal, call).request.pointOfSale == input.pointOfSale
            && VoucherOf(cal, call).request.invoiceType == ARCAType(input.invoiceType)
  {
    items := BuildItems(call.input.items).value;
  }

  lemma AttemptIsWellFormed(cal: Calendar, call: Call)
    requires Prepare(cal, call.input, call.answers.sources).Ok?
    ensures WellFormed(cal, call, InvoiceOf(cal, call))
    ensures Corresponds(VoucherOf(cal, call), InvoiceOf(cal, call))
  {
    var items := PreparedDraft(cal, call);
  }

  // A call either changes nothing or makes one voucher call and one attempt to store its invoice.
  lemma IssueAttempt(cal: Calendar, w: World, call: Call) returns (attempted: bool)
    ensures var o := Issue(cal, w, call.input, call.answers);
            && (!attempted ==> o.world == w)
            && (attempted ==>
                  && Prepare(cal, call.input, call.answers.sources).Ok?
                  && WellFormed(cal, call, InvoiceOf(cal, call))
                  && Corresponds(VoucherOf(cal, call), InvoiceOf(cal, call))
                  && o.world == Record(w, VoucherOf(cal, call), InvoiceOf(cal, call), call.answers.write)
                  && (o.result.Ok? ==>
                        && o.result.value == InvoiceOf(cal, call)
                        && Applied(w.rows, InvoiceOf(cal, call), call.answers.write)))
  {
    attempted := !Answered(w, call.input, call.answers) && Prepare(cal, call.input, call.answers.sources).Ok?;
    if attempted { AttemptIsWellFormed(cal, call); }
  }

  /** When a call that is not answered from the store succeeds, exactly: a well-formed request, sources
      that answer, ARCA's approval, and a Create that is neither refused nor lost. A refusal by ARCA is
      reported whatever becomes of the Create. */
  lemma SucceedsExactly(cal: Calendar, w: World, call: Call)
    requires !Answered(w, call.input, call.answers)
    ensures var o, a := Issue(cal, w, call.input, call.answers), call.answers;
            && (o.result.Ok? <==>
                  && Preparable(call.input) && Available(a.sources) && ARCAApproved(a) && a.write.Done?
                  && a.sources.freshID !in w.rows
                  && (call.input.idempotencyKey != "" ==> !Taken(w.rows, call.input.customerID, call.input.idempotencyKey)))
            && (|o.world.vouchers| == |w.vouchers| + 1 <==> Preparable(call.input) && Available(a.sources))
            && (Preparable(call.input) && Available(a.sources) && !ARCAApproved(a) ==>
                  o.result.Err? && o.result.error.IsCode(ARCARejected))
  {
    PreparedExactly(cal, call.input, call.answers.sources);
  }

  ghost predicate Fails(o: Outcome, w: World, c: Code) {
    o.world == w && o.result.Err? && o.result.error.IsCode(c)
  }

  predicate ValidInput(item: ItemInput) {
    item.description != "" && item.quantity > 0 && item.unitPriceCents >= 0
  }

  // What a call that is not answered from the store comes to, by the first guard that stops it.
  ghost predicate GuardedOutcome(w: World, call: Call, o: Outcome) {
    var input, s, a := call.input, call.answers.sources, call.answers;
    if input.invoiceType !in {"A", "B", "C"} then Fails(o, w, InvalidInvoiceType)
    else if s.user.Err? then o.world == w && o.result == Err(s.user.error)
    else if s.credential.Err? && s.credential.error.IsCode(NotFound) then Fails(o, w, ARCAAuthFailed)
    else if s.credential.Err? then o.world == w && o.result == Err(s.credential.error)
    else if s.now > s.credential.value.expiresAt then Fails(o, w, ARCAAuthFailed)
    else if exists i :: 0 <= i < |input.items| && !ValidInput(input.items[i]) then Fails(o, w, InvalidAmount)
    else if input.items == [] || input.pointOfSale <= 0 then Fails(o, w, ValidationFailed)
    else if s.lastVoucher.Err? then Fails(o, w, ARCAServiceUnavailable)
    else
      && |o.world.vouchers| == |w.vouchers| + 1
      && (!ARCAApproved(a) ==> o.result.Err? && o.result.error.IsCode(ARCARejected))
      && (ARCAApproved(a) ==>
            if s.freshID in w.rows || (input.idempotencyKey != "" && Taken(w.rows, input.customerID, input.idempotencyKey))
               || !a.write.Done?
            then o.result.Err? && o.result.error.IsCode(DatabaseError) else o.result.Ok?)
  }

  lemma AnsweredExactly(w: World, input: IssueInput, a: Answers)
    requires WellKeyed(w.rows)
    ensures Answered(w, input, a)
       <==> input.idempotencyKey != "" && (a.lookupFault.Some? || Taken(w.rows, input.customerID, input.idempotencyKey))
  {
  }

  lemma SomeInvalid(inputs: seq<ItemInput>)
    ensures BuildItems(inputs).Err? <==> exists i :: 0 <= i < |inputs| && !ValidInput(inputs[i])
  {
    ItemsAccepted(inputs);
    forall i | 0 <= i < |inputs|
      ensures ValidInput(inputs[i])
         <==> InvoiceItem(inputs[i].description, inputs[i].quantity, inputs[i].unitPriceCents).Valid()
    {
    }
  }

  lemma GuardByGuard(cal: Calendar, w: World, call: Call)
    requires !Answered(w, call.input, call.answers)
    ensures GuardedOutcome(w, call, Issue(cal, w, call.input, call.answers))
  {
    SomeInvalid(call.input.items);
    SucceedsExactly(cal, w, call);
  }

  /** What every call comes to, guard by guard: a failing lookup, a stored pair, each refusal of the request
      or its sources with its code and no effect, ARCA's refusal, a Create that fails, or success. */
  lemma EachGuard(cal: Calendar, w: World, call: Call)
    requires WellKeyed(w.rows)
    ensures var o, input := Issue(cal, w, call.input, call.answers), call.input;
            if input.idempotencyKey != "" && call.answers.lookupFault.Some? then Fails(o, w, DatabaseError)
            else if input.idempotencyKey != "" && Taken(w.rows, input.customerID, input.idempotencyKey) then
              && o.world == w && o.result.Ok? && o.result.value in w.rows.Values
              && Matches(o.result.value, input.customerID, input.idempotencyKey)
            else GuardedOutcome(w, call, o)
  {
    AnsweredExactly(w, call.input, call.answers);
    if !Answered(w, call.input, call.answers) { GuardByGuard(cal, w, call); }
  }

  /** Every invoice a run ever stores was built by one of its calls, and is what that call's
      request and ARCA's answer to it determine. */
  lemma {:induction false} StoredInvoices(cal: Calendar, calls: seq<Call>, id: string)
    requires id in Run(cal, calls).rows
    ensures exists i :: 0 <= i < |calls| && WellFormed(cal, calls[i], Run(cal, calls).rows[id])
  {
    var n := |calls| - 1;
    var before := Run(cal, calls[..n]);
    var attempted := IssueAttempt(cal, before, calls[n]);
    if id in before.rows && Run(cal, calls).rows[id] == before.rows[id] {
      StoredInvoices(cal, calls[..n], id);
      var i :| 0 <= i < n && WellFormed(cal, calls[..n][i], before.rows[id]);
      assert calls[..n][i] == calls[i];
    } else {
      assert WellFormed(cal, calls[n], Run(cal, calls).rows[id]);
    }
  }

  // ---- Conservation between ARCA and the store ----

  function VoucherFor(customerID: string, key: string): VoucherCall -> int {
    (v: VoucherCall) => if v.customerID == customerID && v.key == key then 1 else 0
  }

  function AttemptFor(customerID: string, key: string): Attempt -> int {
    (a: Attempt) => if Matches(a.invoice, customerID, key) then 1 else 0
  }

  function FailedFor(customerID: string, key: string): Attempt -> int {
    (a: Attempt) => if Matches(a.invoice, customerID, key) && !a.applied then 1 else 0
  }

  function Failed(a: Attempt): int { if a.applied then 0 else 1 }

  ghost predicate Paired(vouchers: seq<VoucherCall>, attempts: seq<Attempt>) {
    && |vouchers| == |attempts|
    && forall i :: 0 <= i < |vouchers| ==> Corresponds(vouchers[i], attempts[i].invoice)
  }

  ghost predicate Tallied(rows: Rows, attempts: seq<Attempt>) {
    && |attempts| == |rows| + Sum(attempts, Failed)
    && (forall id :: id in rows ==> Attempt(rows[id], true) in attempts)
    && (forall a :: a in attempts && a.applied ==> a.invoice.id in rows && rows[a.invoice.id] == a.invoice)
  }

  ghost predicate Conserved(w: World) {
    WellKeyed(w.rows) && Paired(w.vouchers, w.attempts) && Tallied(w.rows, w.attempts)
  }

  lemma AttemptIsTallied(rows: Rows, attempts: seq<Attempt>, inv: InvoiceData, write: Write)
    requires Tallied(rows, attempts)
    ensures Tallied(Insert(rows, inv, write), attempts + [Attempt(inv, Applied(rows, inv, write))])
  {
    var a := Attempt(inv, Applied(rows, inv, write));
    SumOfAppend(attempts, a, Failed);
    assert forall b :: b in attempts + [a] <==> b in attempts || b == a;
  }

  lemma AttemptConserves(w: World, v: VoucherCall, inv: InvoiceData, write: Write)
    requires Conserved(w) && Corresponds(v, inv)
    ensures Conserved(Record(w, v, inv, write))
  {
    AttemptIsTallied(w.rows, w.attempts, inv, write);
    InsertKeepsKeys(w.rows, inv, write);
  }

  lemma IssueConserves(cal: Calendar, w: World, call: Call)
    requires Conserved(w)
    ensures Conserved(Issue(cal, w, call.input, call.answers).world)
  {
    var attempted := IssueAttempt(cal, w, call);
    if attempted { AttemptConserves(w, VoucherOf(cal, call), InvoiceOf(cal, call), call.answers.write); }
  }

  /** CreateVoucher calls and Create attempts correspond one to one and in order, the stored invoices
      are exactly the applied attempts, and so vouchers = stored invoices + attempts not applied. */
  lemma {:induction false} Conservation(cal: Calendar, calls: seq<Call>)
    ensures Conserved(Run(cal, calls))
    ensures var w := Run(cal, calls); |w.vouchers| == |w.rows| + Sum(w.attempts, Failed)
  {
    if calls == [] {
    } else {
      var n := |calls| - 1;
      Conservation(cal, calls[..n]);
      IssueConserves(cal, Run(cal, calls[..n]), calls[n]);
    }
  }

  // This call asked for the voucher and made the Create attempt.
  ghost predicate MadeBy(cal: Calendar, call: Call, v: VoucherCall, inv: InvoiceData) {
    && v.customerID == call.input.customerID && v.key == call.input.idempotencyKey
    && Describes(cal, call.input, call.answers.sources, v.request)
    && WellFormed(cal, call, inv)
  }

  /** Every voucher that a run ever asks for, and the Create attempt it belongs to, come from one of its calls
      and say what that call's request and sources determine. */
  lemma {:induction false} VouchersDescribeCalls(cal: Calendar, calls: seq<Call>, k: nat) returns (i: nat)
    requires k < |Run(cal, calls).vouchers|
    ensures |Run(cal, calls).attempts| == |Run(cal, calls).vouchers|
    ensures i < |calls| && MadeBy(cal, calls[i], Run(cal, calls).vouchers[k], Run(cal, calls).attempts[k].invoice)
  {
    var n := |calls| - 1;
    var before := Run(cal, calls[..n]);
    Conservation(cal, calls[..n]);
    var attempted := IssueAttempt(cal, before, calls[n]);
    if k < |before.vouchers| {
      i := VouchersDescribeCalls(cal, calls[..n], k);
    } else {
      RequestDescribes(cal, calls[n].input, calls[n].answers.sources);
      i := n;
    }
  }

  ghost predicate PairConserved(w: World, customerID: string, key: string) {
    Sum(w.attempts, AttemptFor(customerID, key))
      == Sum(w.attempts, FailedFor(customerID, key)) + if Taken(w.rows, customerID, key) then 1 else 0
  }

  lemma AttemptConservesPair(w: World, v: VoucherCall, inv: InvoiceData, write: Write, customerID: string, key: string)
    requires WellKeyed(w.rows) && PairConserved(w, customerID, key) && key != ""
    ensures PairConserved(Record(w, v, inv, write), customerID, key)
  {
    var a := Attempt(inv, Applied(w.rows, inv, write));
    var rows := Insert(w.rows, inv, write);
    SumOfAppend(w.attempts, a, AttemptFor(customerID, key));
    SumOfAppend(w.attempts, a, FailedFor(customerID, key));
    if Taken(w.rows, customerID, key) {
      var id :| id in w.rows && Matches(w.rows[id], customerID, key);
      assert id in rows && Matches(rows[id], customerID, key);
    } else if a.applied && Matches(inv, customerID, key) {
      assert inv.id in rows && Matches(rows[inv.id], customerID, key);
    } else {
      assert forall id :: id in rows ==> !Matches(rows[id], customerID, key);
    }
  }

  lemma {:induction false} PairStaysConserved(cal: Calendar, calls: seq<Call>, customerID: string, key: string)
    requires key != ""
    ensures PairConserved(Run(cal, calls), customerID, key)
  {
    if calls == [] {
      assert !Taken(EMPTY.rows, customerID, key);
    } else {
      var n := |calls| - 1;
      var w := Run(cal, calls[..n]);
      var call := calls[n];
      PairStaysConserved(cal, calls[..n], customerID, key);
      Conservation(cal, calls[..n]);
      var attempted := IssueAttempt(cal, w, call);
      if attempted {
        AttemptConservesPair(w, VoucherOf(cal, call), InvoiceOf(cal, call), call.answers.write, customerID, key);
      }
    }
  }

  /** For one customer and non-empty key: ARCA was asked for as many vouchers as attempts to store
      one failed, plus one exactly when the pair is stored. */
  lemma VouchersPerPair(cal: Calendar, calls: seq<Call>, customerID: string, key: string)
    requires key != ""
    ensures var w := Run(cal, calls);
            Sum(w.vouchers, VoucherFor(customerID, key))
              == Sum(w.attempts, FailedFor(customerID, key)) + if Taken(w.rows, customerID, key) then 1 else 0
  {
    var w := Run(cal, calls);
    Conservation(cal, calls);
    PairStaysConserved(cal, calls, customerID, key);
    SumAgrees(w.vouchers, VoucherFor(customerID, key), w.attempts, AttemptFor(customerID, key));
  }

  // ---- Replays ----

  lemma StoredStays(cal: Calendar, calls: seq<Call>, i: nat, j: nat, id: string)
    requires i <= j <= |calls| && id in Run(cal, calls[..i]).rows
    ensures id in Run(cal, calls[..j]).rows
    ensures Run(cal, calls[..j]).rows[id] == Run(cal, calls[..i]).rows[id]
    decreases j
  {
    if i < j {
      StoredStays(cal, calls, i, j - 1, id);
      RunStep(cal, calls, j - 1);
      var _ := IssueAttempt(cal, Run(cal, calls[..j-1]), calls[j-1]);
    }
  }

  /** Once a customer's key is stored, issued or rejected, every later call for it leaves the store
      and ARCA alone and, unless its lookup fails, returns that very invoice without an error. */
  lemma Replay(cal: Calendar, calls: seq<Call>, i: nat, j: nat, id: string)
    requires i <= j < |calls| && id in Run(cal, calls[..i]).rows
    requires var inv := Run(cal, calls[..i]).rows[id];
             inv.idempotencyKey != "" && Matches(inv, calls[j].input.customerID, calls[j].input.idempotencyKey)
    ensures Run(cal, calls[..j+1]) == Run(cal, calls[..j])
    ensures calls[j].answers.lookupFault.None? ==> ResultOf(cal, calls, j) == Ok(Run(cal, calls[..i]).rows[id])
    ensures calls[j].answers.lookupFault.Some? ==> ResultOf(cal, calls, j).Err?
  {
    StoredStays(cal, calls, i, j, id);
    Conservation(cal, calls[..j]);
    RunStep(cal, calls, j);
    LookupFinds(Run(cal, calls[..j]).rows, id, None);
  }

  lemma AnswerIsStored(cal: Calendar, w: World, call: Call)
    requires WellKeyed(w.rows) && Issue(cal, w, call.input, call.answers).result.Ok?
    ensures var o := Issue(cal, w, call.input, call.answers);
            var inv := o.result.value;
            && inv.id in o.world.rows && o.world.rows[inv.id] == inv
            && Matches(inv, call.input.customerID, call.input.idempotencyKey)
  {
    if Answered(w, call.input, call.answers) {
      FoundIsStored(w.rows, call.input.customerID, call.input.idempotencyKey, call.answers.lookupFault);
    } else {
      AttemptIsWellFormed(cal, call);
    }
  }

  /** An invoice is returned only once it is stored, under the caller's customer and key. */
  lemma ReturnedIsStored(cal: Calendar, calls: seq<Call>, i: nat)
    requires i < |calls| && ResultOf(cal, calls, i).Ok?
    ensures var inv := ResultOf(cal, calls, i).value;
            && inv.id in Run(cal, calls[..i+1]).rows && Run(cal, calls[..i+1]).rows[inv.id] == inv
            && Matches(inv, calls[i].input.customerID, calls[i].input.idempotencyKey)
  {
    RunStep(cal, calls, i);
    Conservation(cal, calls[..i]);
    AnswerIsStored(cal, Run(cal, calls[..i]), calls[i]);
  }

  /** Two calls with the same customer and non-empty key that both succeed return the same invoice. */
  lemma SameKeySameInvoice(cal: Calendar, calls: seq<Call>, i: nat, j: nat)
    requires i < j < |calls| && ResultOf(cal, calls, i).Ok? && ResultOf(cal, calls, j).Ok?
    requires calls[i].input.customerID == calls[j].input.customerID
    requires calls[i].input.idempotencyKey == calls[j].input.idempotencyKey != ""
    ensures ResultOf(cal, calls, i) == ResultOf(cal, calls, j)
  {
    ReturnedIsStored(cal, calls, i);
    Replay(cal, calls, i + 1, j, ResultOf(cal, calls, i).value.id);
  }

  // ---- Isolation of customers ----

  function Only(calls: seq<Call>, customerID: string): seq<Call> {
    if calls == [] then [] else
      var n := |calls| - 1;
      Only(calls[..n], customerID) + if calls[n].input.customerID == customerID then [calls[n]] else []
  }

  ghost function ResultsFor(cal: Calendar, calls: seq<Call>, customerID: string): seq<Result<InvoiceData>> {
    if calls == [] then [] else
      var n := |calls| - 1;
      ResultsFor(cal, calls[..n], customerID)
        + if calls[n].input.customerID == customerID then [ResultOf(cal, calls, n)] else []
  }

  ghost function RowsFor(rows: Rows, customerID: string): Rows {
    map id | id in rows && rows[id].customerID == customerID :: rows[id]
  }

  ghost predicate FreshIDs(calls: seq<Call>) {
    forall i, j :: 0 <= i < j < |calls| ==>
      calls[i].answers.sources.freshID != calls[j].answers.sources.freshID
  }

  lemma {:induction false} IDsComeFromCalls(cal: Calendar, calls: seq<Call>, id: string)
    requires id in Run(cal, calls).rows
    ensures exists i :: 0 <= i < |calls| && calls[i].answers.sources.freshID == id
  {
    StoredInvoices(cal, calls, id);
    Conservation(cal, calls);
  }

  lemma LookupIsLocal(w: World, w': World, customerID: string, key: string, fault: Option<Error>)
    requires WellKeyed(w.rows) && WellKeyed(w'.rows) && w'.rows == RowsFor(w.rows, customerID)
    ensures Taken(w.rows, customerID, key) == Taken(w'.rows, customerID, key)
    ensures key != "" ==> Lookup(w.rows, customerID, key, fault) == Lookup(w'.rows, customerID, key, fault)
  {
    if Taken(w.rows, customerID, key) {
      var id :| id in w.rows && Matches(w.rows[id], customerID, key);
      assert id in w'.rows && Matches(w'.rows[id], customerID, key);
      if key != "" {
        LookupFinds(w.rows, id, None);
        LookupFinds(w'.rows, id, None);
      }
    }
  }

  lemma InsertIsLocal(rows: Rows, rows': Rows, inv: InvoiceData, write: Write)
    requires rows' == RowsFor(rows, inv.customerID) && inv.id !in rows
    requires Taken(rows, inv.customerID, inv.idempotencyKey) == Taken(rows', inv.customerID, inv.idempotencyKey)
    ensures InsertError(rows, inv, write) == InsertError(rows', inv, write)
    ensures Insert(rows', inv, write) == RowsFor(Insert(rows, inv, write), inv.customerID)
  {
    assert Acceptable(rows, inv) == Acceptable(rows', inv);
  }

  // One call sees only its own customer's rows, as long as its identifier is new.
  lemma IssueIsLocal(cal: Calendar, w: World, w': World, call: Call)
    requires WellKeyed(w.rows) && WellKeyed(w'.rows)
    requires w'.rows == RowsFor(w.rows, call.input.customerID)
    requires call.answers.sources.freshID !in w.rows
    ensures var o, o' := Issue(cal, w, call.input, call.answers), Issue(cal, w', call.input, call.answers);
            o.result == o'.result && o'.world.rows == RowsFor(o.world.rows, call.input.customerID)
  {
    LookupIsLocal(w, w', call.input.customerID, call.input.idempotencyKey, call.answers.lookupFault);
    assert Answered(w, call.input, call.answers) == Answered(w', call.input, call.answers);
    if !Answered(w, call.input, call.answers) && Prepare(cal, call.input, call.answers.sources).Ok? {
      AttemptIsWellFormed(cal, call);
      InsertIsLocal(w.rows, w'.rows, InvoiceOf(cal, call), call.answers.write);
    }
  }

  lemma OthersDoNotTouch(cal: Calendar, w: World, call: Call, customerID: string)
    requires call.input.customerID != customerID
    requires call.answers.sources.freshID !in w.rows
    ensures RowsFor(Issue(cal, w, call.input, call.answers).world.rows, customerID) == RowsFor(w.rows, customerID)
  {
    var _ := IssueAttempt(cal, w, call);
  }

  // The last call on its own, and what its customer's part of the run gains by it.
  lemma OnlyAppended(cal: Calendar, calls: seq<Call>, n: nat, customerID: string)
    requires |calls| == n + 1
    ensures var only, before := Only(calls, customerID), Only(calls[..n], customerID);
            if calls[n].input.customerID == customerID then
              var o := Issue(cal, Run(cal, before), calls[n].input, calls[n].answers);
              && Run(cal, only) == o.world
              && ResultsFor(cal, only, customerID) == ResultsFor(cal, before, customerID) + [o.result]
            else only == before
  {
    var only, before := Only(calls, customerID), Only(calls[..n], customerID);
    if calls[n].input.customerID == customerID {
      assert only[..|only|-1] == before && only[|only|-1] == calls[n];
    }
  }

  lemma LastIDIsFresh(cal: Calendar, calls: seq<Call>, n: nat)
    requires |calls| == n + 1 && FreshIDs(calls)
    ensures calls[n].answers.sources.freshID !in Run(cal, calls[..n]).rows
  {
    if calls[n].answers.sources.freshID in Run(cal, calls[..n]).rows {
      IDsComeFromCalls(cal, calls[..n], calls[n].answers.sources.freshID);
      assert false;
    }
  }

  /** Erasing every other customer's calls from a run leaves one customer's results and stored
      invoices unchanged, given identifiers that are not reused. */
  lemma {:induction false} CustomerIsolation(cal: Calendar, calls: seq<Call>, customerID: string)
    requires FreshIDs(calls)
    ensures ResultsFor(cal, calls, customerID) == ResultsFor(cal, Only(calls, customerID), customerID)
    ensures Run(cal, Only(calls, customerID)).rows == RowsFor(Run(cal, calls).rows, customerID)
  {
    if calls == [] {
    } else {
      var n := |calls| - 1;
      var call := calls[n];
      var w, w' := Run(cal, calls[..n]), Run(cal, Only(calls[..n], customerID));
      CustomerIsolation(cal, calls[..n], customerID);
      LastIDIsFresh(cal, calls, n);
      OnlyAppended(cal, calls, n, customerID);
      if call.input.customerID == customerID {
        Conservation(cal, calls[..n]);
        Conservation(cal, Only(calls[..n], customerID));
        IssueIsLocal(cal, w, w', call);
      } else {
        OthersDoNotTouch(cal, w, call, customerID);
      }
    }
  }
}
