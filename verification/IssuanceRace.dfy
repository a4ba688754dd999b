/** Any number of IssueInvoice calls in flight at once: lookup, preparation, CreateVoucher and
    Create are separate steps, interleaved in any order over one store. */
module IssuanceRace {
  import opened AppErrors
  import opened Invoices
  import opened Issuance
  import opened Money
  import opened Sums
  import opened Vouchers
  import Runs = IssuanceRuns

  /** Where a call stands. */
  datatype PC =
    | Idle
    | Drafting
    | Asking(ready: Ready)
    | Saving(invoice: InvoiceData, refusal: Option<Error>)
    | Ended(result: Result<InvoiceData>)

  datatype State = State(rows: Rows, pcs: seq<PC>)

  /** One step of call c, with what the environment answers to it. */
  datatype Step =
    | Look(c: nat, fault: Option<Error>)
    | Prep(c: nat, sources: Sources)
    | Ask(c: nat, arca: Result<VoucherResponse>, later: int)
    | Save(c: nat, write: Write)

  type Requests = seq<IssueInput>

  function Start(reqs: Requests): State {
    State(map[], seq(|reqs|, _ => Idle))
  }

  predicate Enabled(s: State, step: Step) {
    step.c < |s.pcs| &&
    match step
    case Look(c, _) => s.pcs[c].Idle?
    case Prep(c, _) => s.pcs[c].Drafting?
    case Ask(c, _, _) => s.pcs[c].Asking?
    case Save(c, _) => s.pcs[c].Saving?
  }

  ghost function AfterLook(rows: Rows, req: IssueInput, fault: Option<Error>): PC {
    if req.idempotencyKey == "" then Drafting else
      var existing := Lookup(rows, req.customerID, req.idempotencyKey, fault);
      if existing.Err? && existing.error.IsCode(NotFound) then Drafting else Ended(existing)
  }

  function AfterPrep(cal: Calendar, req: IssueInput, sources: Sources): PC {
    var ready := Prepare(cal, req, sources);
    if ready.Err? then Ended(Err(ready.error)) else Asking(ready.value)
  }

  // A step that its call is not ready for does nothing.
  ghost function Next(cal: Calendar, reqs: Requests, s: State, step: Step): State
    requires |s.pcs| == |reqs|
  {
    if !Enabled(s, step) then s else
      var c := step.c;
      match step
      case Look(_, fault) => s.(pcs := s.pcs[c := AfterLook(s.rows, reqs[c], fault)])
      case Prep(_, sources) => s.(pcs := s.pcs[c := AfterPrep(cal, reqs[c], sources)])
      case Ask(_, arca, later) =>
        s.(pcs := s.pcs[c := Saving(Marked(cal, s.pcs[c].ready.invoice, arca, later), Refusal(arca))])
      case Save(_, write) =>
        var inv := s.pcs[c].invoice;
        State(Insert(s.rows, inv, write),
              s.pcs[c := Ended(Reply(inv, s.pcs[c].refusal, InsertError(s.rows, inv, write)))])
  }

  ghost function Exec(cal: Calendar, reqs: Requests, steps: seq<Step>): (s: State)
    ensures |s.pcs| == |reqs|
  {
    if steps == [] then Start(reqs) else
      Next(cal, reqs, Exec(cal, reqs, steps[..|steps|-1]), steps[|steps|-1])
  }

  ghost predicate For(reqs: Requests, c: nat, customerID: string, key: string) {
    c < |reqs| && reqs[c].customerID == customerID && reqs[c].idempotencyKey == key
  }

  // Step i was taken, by a call that was ready for it.
  ghost predicate Happened(cal: Calendar, reqs: Requests, steps: seq<Step>, i: nat) {
    i < |steps| && Enabled(Exec(cal, reqs, steps[..i]), steps[i])
  }

  lemma StillHappened(cal: Calendar, reqs: Requests, steps: seq<Step>, i: nat)
    requires |steps| > 0 && Happened(cal, reqs, steps[..|steps|-1], i)
    ensures Happened(cal, reqs, steps, i) && steps[i] == steps[..|steps|-1][i]
  {
    assert steps[..|steps|-1][..i] == steps[..i];
  }

  // ---- Agreement ----

  ghost predicate Local(rows: Rows, req: IssueInput, pc: PC) {
    match pc
    case Asking(ready) => Matches(ready.invoice, req.customerID, req.idempotencyKey)
    case Saving(inv, _) => Matches(inv, req.customerID, req.idempotencyKey)
    case Ended(Ok(inv)) => inv.id in rows && rows[inv.id] == inv && Matches(inv, req.customerID, req.idempotencyKey)
    case _ => true
  }

  ghost predicate Consistent(reqs: Requests, s: State) {
    && |s.pcs| == |reqs| && WellKeyed(s.rows)
    && forall c :: 0 <= c < |reqs| ==> Local(s.rows, reqs[c], s.pcs[c])
  }

  lemma MovedIsLocal(cal: Calendar, reqs: Requests, s: State, step: Step)
    requires Consistent(reqs, s) && Enabled(s, step)
    ensures var t := Next(cal, reqs, s, step); Local(t.rows, reqs[step.c], t.pcs[step.c])
  {
    var c := step.c;
    if step.Look? && reqs[c].idempotencyKey != ""
       && Lookup(s.rows, reqs[c].customerID, reqs[c].idempotencyKey, step.fault).Ok? {
      FoundIsStored(s.rows, reqs[c].customerID, reqs[c].idempotencyKey, step.fault);
    }
  }

  lemma NextIsConsistent(cal: Calendar, reqs: Requests, s: State, step: Step)
    requires Consistent(reqs, s)
    ensures Consistent(reqs, Next(cal, reqs, s, step))
  {
    if Enabled(s, step) {
      MovedIsLocal(cal, reqs, s, step);
      if step.Save? { InsertKeepsKeys(s.rows, s.pcs[step.c].invoice, step.write); }
    }
  }

  /** Every interleaving keeps the primary key and the unique (customer, non-empty key) index. */
  lemma {:induction false} ReachableIsConsistent(cal: Calendar, reqs: Requests, steps: seq<Step>)
    ensures Consistent(reqs, Exec(cal, reqs, steps))
  {
    if steps == [] {
    } else {
      ReachableIsConsistent(cal, reqs, steps[..|steps|-1]);
      NextIsConsistent(cal, reqs, Exec(cal, reqs, steps[..|steps|-1]), steps[|steps|-1]);
    }
  }

  /** Under every interleaving, calls for one customer and non-empty key that succeed return the
      same invoice, and it is the only one the store holds for them. */
  lemma Agreement(cal: Calendar, reqs: Requests, steps: seq<Step>, c: nat, d: nat)
    requires c < |reqs| && d < |reqs| && For(reqs, d, reqs[c].customerID, reqs[c].idempotencyKey)
    requires reqs[c].idempotencyKey != ""
    requires var s := Exec(cal, reqs, steps);
             s.pcs[c].Ended? && s.pcs[c].result.Ok? && s.pcs[d].Ended? && s.pcs[d].result.Ok?
    ensures var s := Exec(cal, reqs, steps);
            && s.pcs[c].result == s.pcs[d].result
            && forall id :: id in s.rows && Matches(s.rows[id], reqs[c].customerID, reqs[c].idempotencyKey)
                 ==> s.rows[id] == s.pcs[c].result.value
  {
    ReachableIsConsistent(cal, reqs, steps);
  }

  // ---- What an invoice that reached the store looks like ----

  // The sequential call with what the environment answered to one call's Prep and Ask.
  function CallOf(req: IssueInput, prep: Step, ask: Step): Runs.Call
    requires prep.Prep? && ask.Ask?
  {
    Runs.Call(req, Answers(None, prep.sources, ask.arca, ask.later, Done))
  }

  ghost predicate PreparedAt(cal: Calendar, reqs: Requests, steps: seq<Step>, p: nat, c: nat, ready: Ready) {
    && c < |reqs| && Happened(cal, reqs, steps, p) && steps[p].Prep? && steps[p].c == c
    && Prepare(cal, reqs[c], steps[p].sources) == Ok(ready)
  }

  // Call c prepared in step p and asked ARCA in step q, and the two determine the invoice.
  ghost predicate BuiltAt(cal: Calendar, reqs: Requests, steps: seq<Step>, p: nat, q: nat, c: nat, inv: InvoiceData) {
    && c < |reqs| && Happened(cal, reqs, steps, p) && steps[p].Prep? && steps[p].c == c
    && Happened(cal, reqs, steps, q) && steps[q].Ask? && steps[q].c == c
    && Prepare(cal, reqs[c], steps[p].sources).Ok?
    && inv == Runs.InvoiceOf(cal, CallOf(reqs[c], steps[p], steps[q]))
  }

  ghost predicate Prepared(cal: Calendar, reqs: Requests, steps: seq<Step>, c: nat, ready: Ready) {
    exists p: nat :: PreparedAt(cal, reqs, steps, p, c, ready)
  }

  ghost predicate Built(cal: Calendar, reqs: Requests, steps: seq<Step>, c: nat, inv: InvoiceData) {
    exists p: nat, q: nat :: BuiltAt(cal, reqs, steps, p, q, c, inv)
  }

  lemma PreparedStays(cal: Calendar, reqs: Requests, steps: seq<Step>, c: nat, ready: Ready)
    requires |steps| > 0 && Prepared(cal, reqs, steps[..|steps|-1], c, ready)
    ensures Prepared(cal, reqs, steps, c, ready)
  {
    var p: nat :| PreparedAt(cal, reqs, steps[..|steps|-1], p, c, ready);
    StillHappened(cal, reqs, steps, p);
    assert PreparedAt(cal, reqs, steps, p, c, ready);
  }

  lemma BuiltStays(cal: Calendar, reqs: Requests, steps: seq<Step>, c: nat, inv: InvoiceData)
    requires |steps| > 0 && Built(cal, reqs, steps[..|steps|-1], c, inv)
    ensures Built(cal, reqs, steps, c, inv)
  {
    var p: nat, q: nat :| BuiltAt(cal, reqs, steps[..|steps|-1], p, q, c, inv);
    StillHappened(cal, reqs, steps, p);
    StillHappened(cal, reqs, steps, q);
    assert BuiltAt(cal, reqs, steps, p, q, c, inv);
  }

  ghost predicate Traced(cal: Calendar, reqs: Requests, steps: seq<Step>, c: nat, pc: PC) {
    match pc
    case Asking(ready) => Prepared(cal, reqs, steps, c, ready)
    case Saving(inv, _) => Built(cal, reqs, steps, c, inv)
    case _ => true
  }

  lemma MovedIsTraced(cal: Calendar, reqs: Requests, steps: seq<Step>)
    requires |steps| > 0
    requires var s, step := Exec(cal, reqs, steps[..|steps|-1]), steps[|steps|-1];
             Enabled(s, step) && Traced(cal, reqs, steps[..|steps|-1], step.c, s.pcs[step.c])
    ensures var step := steps[|steps|-1];
            Traced(cal, reqs, steps, step.c, Exec(cal, reqs, steps).pcs[step.c])
  {
    var n := |steps| - 1;
    var s, step, t := Exec(cal, reqs, steps[..n]), steps[n], Exec(cal, reqs, steps);
    assert Happened(cal, reqs, steps, n);
    match step
    case Look(_, _) =>
    case Prep(c, _) =>
      if t.pcs[c].Asking? { assert PreparedAt(cal, reqs, steps, n, c, t.pcs[c].ready); }
    case Ask(c, _, _) =>
      var p: nat :| PreparedAt(cal, reqs, steps[..n], p, c, s.pcs[c].ready);
      StillHappened(cal, reqs, steps, p);
      assert BuiltAt(cal, reqs, steps, p, n, c, t.pcs[c].invoice);
    case Save(_, _) =>
  }

  // Some call built the invoice.
  ghost predicate BuiltBySome(cal: Calendar, reqs: Requests, steps: seq<Step>, inv: InvoiceData) {
    exists c: nat :: Built(cal, reqs, steps, c, inv)
  }

  ghost predicate AllTraced(cal: Calendar, reqs: Requests, steps: seq<Step>, s: State) {
    && (forall c: nat :: c < |s.pcs| ==> Traced(cal, reqs, steps, c, s.pcs[c]))
    && (forall id :: id in s.rows ==> BuiltBySome(cal, reqs, steps, s.rows[id]))
  }

  lemma TraceStays(cal: Calendar, reqs: Requests, steps: seq<Step>, c: nat, pc: PC)
    requires |steps| > 0 && Traced(cal, reqs, steps[..|steps|-1], c, pc)
    ensures Traced(cal, reqs, steps, c, pc)
  {
    match pc
    case Asking(ready) => PreparedStays(cal, reqs, steps, c, ready);
    case Saving(inv, _) => BuiltStays(cal, reqs, steps, c, inv);
    case _ =>
  }

  lemma BuilderStays(cal: Calendar, reqs: Requests, steps: seq<Step>, inv: InvoiceData)
    requires |steps| > 0 && BuiltBySome(cal, reqs, steps[..|steps|-1], inv)
    ensures BuiltBySome(cal, reqs, steps, inv)
  {
    var c: nat :| Built(cal, reqs, steps[..|steps|-1], c, inv);
    BuiltStays(cal, reqs, steps, c, inv);
  }

  lemma TracesStay(cal: Calendar, reqs: Requests, steps: seq<Step>, s: State)
    requires |steps| > 0 && AllTraced(cal, reqs, steps[..|steps|-1], s)
    ensures AllTraced(cal, reqs, steps, s)
  {
    forall c: nat | c < |s.pcs| ensures Traced(cal, reqs, steps, c, s.pcs[c]) {
      TraceStays(cal, reqs, steps, c, s.pcs[c]);
    }
    forall id | id in s.rows ensures BuiltBySome(cal, reqs, steps, s.rows[id]) {
      BuilderStays(cal, reqs, steps, s.rows[id]);
    }
  }

  // What one step adds to the store was built by its call.
  lemma RowsAreBuilt(cal: Calendar, reqs: Requests, steps: seq<Step>, s: State, step: Step, id: string)
    requires |s.pcs| == |reqs| && Enabled(s, step) && AllTraced(cal, reqs, steps, s)
    requires id in Next(cal, reqs, s, step).rows
    ensures BuiltBySome(cal, reqs, steps, Next(cal, reqs, s, step).rows[id])
  {
    if step.Save? {
      var inv := s.pcs[step.c].invoice;
      assert Traced(cal, reqs, steps, step.c, s.pcs[step.c]);
      assert Built(cal, reqs, steps, step.c, inv);
    }
  }

  lemma NextIsTraced(cal: Calendar, reqs: Requests, steps: seq<Step>, before: State)
    requires |steps| > 0 && before == Exec(cal, reqs, steps[..|steps|-1])
    requires AllTraced(cal, reqs, steps[..|steps|-1], before) && Enabled(before, steps[|steps|-1])
    ensures AllTraced(cal, reqs, steps, Next(cal, reqs, before, steps[|steps|-1]))
  {
    var step := steps[|steps|-1];
    var s := Next(cal, reqs, before, step);
    MovedIsTraced(cal, reqs, steps);
    TracesStay(cal, reqs, steps, before);
    forall c: nat | c < |s.pcs| ensures Traced(cal, reqs, steps, c, s.pcs[c]) {
      assert c != step.c ==> s.pcs[c] == before.pcs[c];
    }
    forall id | id in s.rows ensures BuiltBySome(cal, reqs, steps, s.rows[id]) {
      RowsAreBuilt(cal, reqs, steps, before, step, id);
    }
  }

  lemma {:induction false} EverythingIsTraced(cal: Calendar, reqs: Requests, steps: seq<Step>)
    ensures AllTraced(cal, reqs, steps, Exec(cal, reqs, steps))
  {
    if steps == [] {
    } else {
      var n := |steps| - 1;
      var before := Exec(cal, reqs, steps[..n]);
      EverythingIsTraced(cal, reqs, steps[..n]);
      if Enabled(before, steps[n]) {
        NextIsTraced(cal, reqs, steps, before);
      } else {
        TracesStay(cal, reqs, steps, before);
      }
    }
  }

  /** Under every interleaving, every invoice in the store was built by one of the calls, and is what that
      call's request, its sources and ARCA's answer to it determine. */
  lemma StoredInvoices(cal: Calendar, reqs: Requests, steps: seq<Step>, id: string)
    returns (p: nat, q: nat)
    requires id in Exec(cal, reqs, steps).rows
    ensures Happened(cal, reqs, steps, p) && Happened(cal, reqs, steps, q)
    ensures steps[p].Prep? && steps[q].Ask? && steps[p].c == steps[q].c < |reqs|
    ensures Runs.WellFormed(cal, CallOf(reqs[steps[p].c], steps[p], steps[q]), Exec(cal, reqs, steps).rows[id])
  {
    EverythingIsTraced(cal, reqs, steps);
    assert BuiltBySome(cal, reqs, steps, Exec(cal, reqs, steps).rows[id]);
    var c: nat :| Built(cal, reqs, steps, c, Exec(cal, reqs, steps).rows[id]);
    p, q :| BuiltAt(cal, reqs, steps, p, q, c, Exec(cal, reqs, steps).rows[id]);
    Runs.AttemptIsWellFormed(cal, CallOf(reqs[c], steps[p], steps[q]));
  }

  /** Under every interleaving, every request for a voucher says what its own call's request and the sources
      that the call saw determine. */
  lemma AsksDescribeCalls(cal: Calendar, reqs: Requests, steps: seq<Step>, q: nat) returns (p: nat)
    requires Happened(cal, reqs, steps, q) && steps[q].Ask?
    ensures p < q && Happened(cal, reqs, steps, p) && steps[p].Prep? && steps[p].c == steps[q].c < |reqs|
    ensures Describes(cal, reqs[steps[q].c], steps[p].sources, Exec(cal, reqs, steps[..q]).pcs[steps[q].c].ready.request)
  {
    var c, s := steps[q].c, Exec(cal, reqs, steps[..q]);
    EverythingIsTraced(cal, reqs, steps[..q]);
    assert Traced(cal, reqs, steps[..q], c, s.pcs[c]);
    p :| PreparedAt(cal, reqs, steps[..q], p, c, s.pcs[c].ready);
    assert steps[..q][..p] == steps[..p];
    RequestDescribes(cal, reqs[c], steps[p].sources);
  }

  // ---- Vouchers and stored invoices ----

  function InFlight(pc: PC): int { if pc.Saving? then 1 else 0 }

  // CreateVoucher calls made so far.
  ghost function Asks(cal: Calendar, reqs: Requests, steps: seq<Step>): int {
    if steps == [] then 0 else
      var n := |steps| - 1;
      Asks(cal, reqs, steps[..n])
        + if steps[n].Ask? && Enabled(Exec(cal, reqs, steps[..n]), steps[n]) then 1 else 0
  }

  // Create attempts so far that did not store their invoice.
  ghost function FailedSaves(cal: Calendar, reqs: Requests, steps: seq<Step>): int {
    if steps == [] then 0 else
      var n, s := |steps| - 1, Exec(cal, reqs, steps[..|steps|-1]);
      FailedSaves(cal, reqs, steps[..n])
        + if steps[n].Save? && Enabled(s, steps[n]) && !Applied(s.rows, s.pcs[steps[n].c].invoice, steps[n].write)
          then 1 else 0
  }

  lemma {:induction false} NoneInFlight(pcs: seq<PC>)
    requires forall i :: 0 <= i < |pcs| ==> pcs[i].Idle?
    ensures Sum(pcs, InFlight) == 0
  {
    if pcs != [] { NoneInFlight(pcs[..|pcs|-1]); }
  }

  /** Under every interleaving: vouchers asked for = stored invoices + failed attempts to store
      + calls between their CreateVoucher and their Create. */
  lemma {:induction false} RaceConservation(cal: Calendar, reqs: Requests, steps: seq<Step>)
    ensures var s := Exec(cal, reqs, steps);
            Asks(cal, reqs, steps) == |s.rows| + FailedSaves(cal, reqs, steps) + Sum(s.pcs, InFlight)
  {
    if steps == [] {
      NoneInFlight(Start(reqs).pcs);
    } else {
      var n := |steps| - 1;
      var s, step := Exec(cal, reqs, steps[..n]), steps[n];
      RaceConservation(cal, reqs, steps[..n]);
      if Enabled(s, step) {
        SumOfUpdate(s.pcs, step.c, Next(cal, reqs, s, step).pcs[step.c], InFlight);
      }
    }
  }

  // ---- Late arrivals ----

  // Calls for the pair whose lookup happened while the pair was not stored.
  ghost function Early(cal: Calendar, reqs: Requests, steps: seq<Step>, customerID: string, key: string): set<nat> {
    if steps == [] then {} else
      var n, s := |steps| - 1, Exec(cal, reqs, steps[..|steps|-1]);
      Early(cal, reqs, steps[..n], customerID, key)
        + if steps[n].Look? && Enabled(s, steps[n]) && For(reqs, steps[n].c, customerID, key)
             && !Taken(s.rows, customerID, key)
          then {steps[n].c} else {}
  }

  // Calls for the pair that asked ARCA for a voucher, and how often that happened.
  ghost function Askers(cal: Calendar, reqs: Requests, steps: seq<Step>, customerID: string, key: string): set<nat> {
    if steps == [] then {} else
      var n, s := |steps| - 1, Exec(cal, reqs, steps[..|steps|-1]);
      Askers(cal, reqs, steps[..n], customerID, key)
        + if steps[n].Ask? && Enabled(s, steps[n]) && For(reqs, steps[n].c, customerID, key)
          then {steps[n].c} else {}
  }

  ghost function AsksFor(cal: Calendar, reqs: Requests, steps: seq<Step>, customerID: string, key: string): nat {
    if steps == [] then 0 else
      var n, s := |steps| - 1, Exec(cal, reqs, steps[..|steps|-1]);
      AsksFor(cal, reqs, steps[..n], customerID, key)
        + if steps[n].Ask? && Enabled(s, steps[n]) && For(reqs, steps[n].c, customerID, key) then 1 else 0
  }

  ghost predicate Tracked(reqs: Requests, s: State, early: set<nat>, askers: set<nat>, customerID: string, key: string) {
    && askers <= early
    && (forall c :: c in askers ==> c < |s.pcs| && (s.pcs[c].Saving? || s.pcs[c].Ended?))
    && (forall c :: 0 <= c < |s.pcs| && For(reqs, c, customerID, key) && (s.pcs[c].Drafting? || s.pcs[c].Asking?)
          ==> c in early)
  }

  lemma StepIsTracked(
    cal: Calendar, reqs: Requests, s: State, step: Step, early: set<nat>, askers: set<nat>,
    customerID: string, key: string)
    requires |s.pcs| == |reqs| && key != "" && Enabled(s, step)
    requires Tracked(reqs, s, early, askers, customerID, key)
    ensures var mine := For(reqs, step.c, customerID, key);
            Tracked(reqs, Next(cal, reqs, s, step),
                    early + (if step.Look? && mine && !Taken(s.rows, customerID, key) then {step.c} else {}),
                    askers + (if step.Ask? && mine then {step.c} else {}), customerID, key)
    ensures step.Ask? ==> step.c !in askers
  {
    var t := Next(cal, reqs, s, step);
    assert forall c :: 0 <= c < |s.pcs| && c != step.c ==> t.pcs[c] == s.pcs[c];
    if step.Look? && For(reqs, step.c, customerID, key) && Taken(s.rows, customerID, key) {
      assert t.pcs[step.c].Ended?;
    }
  }

  lemma {:induction false} AskersAreEarly(cal: Calendar, reqs: Requests, steps: seq<Step>, customerID: string, key: string)
    requires key != ""
    ensures Tracked(reqs, Exec(cal, reqs, steps), Early(cal, reqs, steps, customerID, key),
                    Askers(cal, reqs, steps, customerID, key), customerID, key)
    ensures AsksFor(cal, reqs, steps, customerID, key) == |Askers(cal, reqs, steps, customerID, key)|
  {
    if steps == [] {
    } else {
      var n := |steps| - 1;
      var s := Exec(cal, reqs, steps[..n]);
      AskersAreEarly(cal, reqs, steps[..n], customerID, key);
      if Enabled(s, steps[n]) {
        StepIsTracked(cal, reqs, s, steps[n], Early(cal, reqs, steps[..n], customerID, key),
                      Askers(cal, reqs, steps[..n], customerID, key), customerID, key);
      }
    }
  }

  /** A call whose lookup comes after the pair was stored never asks ARCA for a voucher, so under
      every interleaving the vouchers for a pair never outnumber the calls that looked before. */
  lemma LateArrivals(cal: Calendar, reqs: Requests, steps: seq<Step>, customerID: string, key: string)
    requires key != ""
    ensures Askers(cal, reqs, steps, customerID, key) <= Early(cal, reqs, steps, customerID, key)
    ensures AsksFor(cal, reqs, steps, customerID, key) <= |Early(cal, reqs, steps, customerID, key)|
  {
    AskersAreEarly(cal, reqs, steps, customerID, key);
    SubsetSize(Askers(cal, reqs, steps, customerID, key), Early(cal, reqs, steps, customerID, key));
  }

  // ---- Vouchers of one customer and key, exactly ----

  function InFlightFor(customerID: string, key: string): PC -> int {
    (pc: PC) => if pc.Saving? && Matches(pc.invoice, customerID, key) then 1 else 0
  }

  // Create attempts for the pair that did not store their invoice.
  ghost function FailedSavesFor(cal: Calendar, reqs: Requests, steps: seq<Step>, customerID: string, key: string): nat {
    if steps == [] then 0 else
      var n, s := |steps| - 1, Exec(cal, reqs, steps[..|steps|-1]);
      FailedSavesFor(cal, reqs, steps[..n], customerID, key)
        + if steps[n].Save? && Enabled(s, steps[n]) && For(reqs, steps[n].c, customerID, key)
             && !Applied(s.rows, s.pcs[steps[n].c].invoice, steps[n].write)
          then 1 else 0
  }

  lemma {:induction false} NoneInFlightFor(pcs: seq<PC>, customerID: string, key: string)
    requires forall i :: 0 <= i < |pcs| ==> pcs[i].Idle?
    ensures Sum(pcs, InFlightFor(customerID, key)) == 0
  {
    if pcs == [] {
    } else {
      NoneInFlightFor(pcs[..|pcs|-1], customerID, key);
    }
  }

  lemma InsertTakes(rows: Rows, inv: InvoiceData, write: Write, customerID: string, key: string)
    ensures Taken(Insert(rows, inv, write), customerID, key)
       <==> Taken(rows, customerID, key) || (Applied(rows, inv, write) && Matches(inv, customerID, key))
  {
    var after := Insert(rows, inv, write);
    if Taken(rows, customerID, key) {
      var id :| id in rows && Matches(rows[id], customerID, key);
      assert id in after && Matches(after[id], customerID, key);
    } else if Applied(rows, inv, write) && Matches(inv, customerID, key) {
      assert inv.id in after && Matches(after[inv.id], customerID, key);
    }
  }

  function Count(b: bool): nat { if b then 1 else 0 }

  // What one step adds to either side of the count for a pair.
  lemma StepCounts(cal: Calendar, reqs: Requests, s: State, step: Step, customerID: string, key: string)
    requires Consistent(reqs, s) && Enabled(s, step) && key != ""
    ensures var t, mine := Next(cal, reqs, s, step), For(reqs, step.c, customerID, key);
            Count(step.Ask? && mine) + Count(Taken(s.rows, customerID, key)) + InFlightFor(customerID, key)(s.pcs[step.c])
              == Count(Taken(t.rows, customerID, key)) + InFlightFor(customerID, key)(t.pcs[step.c])
                 + Count(step.Save? && mine && !Applied(s.rows, s.pcs[step.c].invoice, step.write))
  {
    if step.Save? { InsertTakes(s.rows, s.pcs[step.c].invoice, step.write, customerID, key); }
  }

  /** Under every interleaving, for one customer and non-empty key: vouchers asked for = failed attempts to
      store + calls between their CreateVoucher and their Create, plus one exactly when the pair is stored. */
  lemma {:induction false} VouchersPerPair(cal: Calendar, reqs: Requests, steps: seq<Step>, customerID: string, key: string)
    requires key != ""
    ensures var s := Exec(cal, reqs, steps);
            AsksFor(cal, reqs, steps, customerID, key)
              == Count(Taken(s.rows, customerID, key)) + FailedSavesFor(cal, reqs, steps, customerID, key)
                 + Sum(s.pcs, InFlightFor(customerID, key))
  {
    if steps == [] {
      NoneInFlightFor(Start(reqs).pcs, customerID, key);
    } else {
      var n := |steps| - 1;
      var s, step := Exec(cal, reqs, steps[..n]), steps[n];
      VouchersPerPair(cal, reqs, steps[..n], customerID, key);
      if Enabled(s, step) {
        ReachableIsConsistent(cal, reqs, steps[..n]);
        StepCounts(cal, reqs, s, step, customerID, key);
        SumOfUpdate(s.pcs, step.c, Next(cal, reqs, s, step).pcs[step.c], InFlightFor(customerID, key));
      }
    }
  }

  // ---- When a pair gets one voucher, exactly ----

  predicate Approves(step: Step) { step.Ask? && step.arca.Ok? && step.arca.value.Approved() }

  // Vouchers that ARCA approved for the pair.
  ghost function ApprovedFor(cal: Calendar, reqs: Requests, steps: seq<Step>, customerID: string, key: string): nat {
    if steps == [] then 0 else
      var n, s := |steps| - 1, Exec(cal, reqs, steps[..|steps|-1]);
      ApprovedFor(cal, reqs, steps[..n], customerID, key)
        + if Approves(steps[n]) && Enabled(s, steps[n]) && For(reqs, steps[n].c, customerID, key) then 1 else 0
  }

  lemma {:induction false} ApprovedAreAsked(cal: Calendar, reqs: Requests, steps: seq<Step>, customerID: string, key: string)
    ensures ApprovedFor(cal, reqs, steps, customerID, key) <= AsksFor(cal, reqs, steps, customerID, key)
  {
    if steps == [] {
    } else {
      ApprovedAreAsked(cal, reqs, steps[..|steps|-1], customerID, key);
    }
  }

  lemma Extend(cal: Calendar, reqs: Requests, steps: seq<Step>, step: Step, customerID: string, key: string)
    requires Enabled(Exec(cal, reqs, steps), step) && For(reqs, step.c, customerID, key)
    ensures Exec(cal, reqs, steps + [step]) == Next(cal, reqs, Exec(cal, reqs, steps), step)
    ensures ApprovedFor(cal, reqs, steps + [step], customerID, key)
         == ApprovedFor(cal, reqs, steps, customerID, key) + if Approves(step) then 1 else 0
    ensures AsksFor(cal, reqs, steps + [step], customerID, key)
         == AsksFor(cal, reqs, steps, customerID, key) + if step.Ask? then 1 else 0
  {
    assert (steps + [step])[..|steps|] == steps;
  }

  function GoodSources(freshID: string): Sources {
    Sources(Ok(Customer("", "")), Ok(Credential("", 0)), 0, freshID, Ok(0))
  }

  const APPROVAL: VoucherResponse := VoucherResponse("", "", 0, 0, "A", [])

  // Two calls with one key that both look first both find nothing.
  lemma BothLooked(cal: Calendar, reqs: Requests, c: nat, d: nat, customerID: string, key: string)
    returns (steps: seq<Step>)
    requires c != d && For(reqs, c, customerID, key) && For(reqs, d, customerID, key)
    ensures var s := Exec(cal, reqs, steps); s.rows == map[] && s.pcs[c].Drafting? && s.pcs[d].Drafting?
    ensures ApprovedFor(cal, reqs, steps, customerID, key) == AsksFor(cal, reqs, steps, customerID, key) == 0
    ensures forall i :: 0 <= i < |steps| ==> !steps[i].Save?
  {
    steps := [];
    Extend(cal, reqs, steps, Look(c, None), customerID, key);
    steps := steps + [Look(c, None)];
    Extend(cal, reqs, steps, Look(d, None), customerID, key);
    steps := steps + [Look(d, None)];
  }

  // Both are about to ask ARCA.
  lemma BothAsking(cal: Calendar, reqs: Requests, c: nat, d: nat, customerID: string, key: string)
    returns (steps: seq<Step>)
    requires c != d && For(reqs, c, customerID, key) && For(reqs, d, customerID, key)
    requires Preparable(reqs[c]) && Preparable(reqs[d])
    ensures var s := Exec(cal, reqs, steps);
            && s.rows == map[] && s.pcs[c].Asking? && s.pcs[d].Asking?
            && s.pcs[c].ready.invoice.id != s.pcs[d].ready.invoice.id
    ensures ApprovedFor(cal, reqs, steps, customerID, key) == AsksFor(cal, reqs, steps, customerID, key) == 0
    ensures forall i :: 0 <= i < |steps| ==> !steps[i].Save?
  {
    PreparedExactly(cal, reqs[c], GoodSources("1"));
    PreparedExactly(cal, reqs[d], GoodSources("2"));
    steps := BothLooked(cal, reqs, c, d, customerID, key);
    Extend(cal, reqs, steps, Prep(c, GoodSources("1")), customerID, key);
    steps := steps + [Prep(c, GoodSources("1"))];
    Extend(cal, reqs, steps, Prep(d, GoodSources("2")), customerID, key);
    steps := steps + [Prep(d, GoodSources("2"))];
  }

  // Both get an approved voucher.
  lemma TwoVouchers(cal: Calendar, reqs: Requests, c: nat, d: nat, customerID: string, key: string)
    returns (steps: seq<Step>)
    requires c != d && For(reqs, c, customerID, key) && For(reqs, d, customerID, key)
    requires Preparable(reqs[c]) && Preparable(reqs[d])
    ensures var s := Exec(cal, reqs, steps);
            && s.rows == map[] && s.pcs[c].Saving? && s.pcs[d].Saving?
            && s.pcs[c].refusal == None && s.pcs[d].refusal == None
            && s.pcs[c].invoice.id != s.pcs[d].invoice.id
    ensures ApprovedFor(cal, reqs, steps, customerID, key) == AsksFor(cal, reqs, steps, customerID, key) == 2
    ensures forall i :: 0 <= i < |steps| ==> !steps[i].Save?
  {
    steps := BothAsking(cal, reqs, c, d, customerID, key);
    Extend(cal, reqs, steps, Ask(c, Ok(APPROVAL), 0), customerID, key);
    steps := steps + [Ask(c, Ok(APPROVAL), 0)];
    Extend(cal, reqs, steps, Ask(d, Ok(APPROVAL), 0), customerID, key);
    steps := steps + [Ask(d, Ok(APPROVAL), 0)];
  }

  /** Two well-formed requests with one key that both look first both obtain an approved voucher; with no
      fault anywhere, one of them is stored and the other's invoice is refused by the unique index, so its
      voucher has no stored invoice. */
  lemma OrphanVoucher(cal: Calendar, reqs: Requests, c: nat, d: nat, customerID: string, key: string)
    returns (steps: seq<Step>)
    requires key != "" && c != d && For(reqs, c, customerID, key) && For(reqs, d, customerID, key)
    requires Preparable(reqs[c]) && Preparable(reqs[d])
    ensures ApprovedFor(cal, reqs, steps, customerID, key) == AsksFor(cal, reqs, steps, customerID, key) == 2
    ensures forall i :: 0 <= i < |steps| && steps[i].Save? ==> steps[i].write.Done?
    ensures var s := Exec(cal, reqs, steps);
            && s.pcs[c].Ended? && s.pcs[c].result.Ok? && s.rows == map[s.pcs[c].result.value.id := s.pcs[c].result.value]
            && s.pcs[d] == Ended(Err(Wrapped(DatabaseError, "persist invoice", App(DatabaseError, "create invoice"))))
  {
    steps := TwoVouchers(cal, reqs, c, d, customerID, key);
    ReachableIsConsistent(cal, reqs, steps);
    var first, second := Exec(cal, reqs, steps).pcs[c].invoice, Exec(cal, reqs, steps).pcs[d].invoice;
    assert Matches(first, customerID, key) && Matches(second, customerID, key);
    Extend(cal, reqs, steps, Save(c, Done), customerID, key);
    steps := steps + [Save(c, Done)];
    var rows := Exec(cal, reqs, steps).rows;
    assert rows == map[first.id := first];
    assert Matches(rows[first.id], second.customerID, second.idempotencyKey);
    Extend(cal, reqs, steps, Save(d, Done), customerID, key);
    steps := steps + [Save(d, Done)];
  }

  ghost predicate AskingIsPreparable(reqs: Requests, s: State, askers: set<nat>) {
    && |s.pcs| == |reqs|
    && (forall c :: c in askers ==> c < |reqs| && Preparable(reqs[c]))
    && (forall c :: 0 <= c < |reqs| && s.pcs[c].Asking? ==> Preparable(reqs[c]))
  }

  lemma {:induction false} AskersArePreparable(
    cal: Calendar, reqs: Requests, steps: seq<Step>, customerID: string, key: string)
    ensures AskingIsPreparable(reqs, Exec(cal, reqs, steps), Askers(cal, reqs, steps, customerID, key))
    ensures forall c :: c in Askers(cal, reqs, steps, customerID, key) ==> For(reqs, c, customerID, key)
  {
    if steps == [] {
    } else {
      var n := |steps| - 1;
      AskersArePreparable(cal, reqs, steps[..n], customerID, key);
      if steps[n].Prep? && steps[n].c < |reqs| { PreparedExactly(cal, reqs[steps[n].c], steps[n].sources); }
    }
  }

  /** The key alone does not make ARCA's side happen once: at most one voucher is asked for, and at most one
      is approved, under every interleaving if and only if at most one well-formed request carries the pair. */
  lemma OneVoucherExactly(cal: Calendar, reqs: Requests, customerID: string, key: string)
    requires key != ""
    ensures var one := forall c: nat, d: nat | For(reqs, c, customerID, key) && For(reqs, d, customerID, key)
                         :: Preparable(reqs[c]) && Preparable(reqs[d]) ==> c == d;
            && ((forall steps :: AsksFor(cal, reqs, steps, customerID, key) <= 1) <==> one)
            && ((forall steps :: ApprovedFor(cal, reqs, steps, customerID, key) <= 1) <==> one)
  {
    if c: nat, d: nat :| For(reqs, c, customerID, key) && For(reqs, d, customerID, key)
                         && Preparable(reqs[c]) && Preparable(reqs[d]) && c != d {
      var steps := OrphanVoucher(cal, reqs, c, d, customerID, key);
      ApprovedAreAsked(cal, reqs, steps, customerID, key);
    } else {
      forall steps
        ensures AsksFor(cal, reqs, steps, customerID, key) <= 1
        ensures ApprovedFor(cal, reqs, steps, customerID, key) <= 1
      {
        AskersAreEarly(cal, reqs, steps, customerID, key);
        AskersArePreparable(cal, reqs, steps, customerID, key);
        AtMostOneElement(Askers(cal, reqs, steps, customerID, key));
        ApprovedAreAsked(cal, reqs, steps, customerID, key);
      }
    }
  }

  // ---- The sequential call is one interleaving ----

  function Solo(c: nat, a: Answers): seq<Step> {
    [Look(c, a.lookupFault), Prep(c, a.sources), Ask(c, a.arca, a.later), Save(c, a.write)]
  }

  ghost function NextAll(cal: Calendar, reqs: Requests, s: State, steps: seq<Step>): (t: State)
    requires |s.pcs| == |reqs|
    ensures |t.pcs| == |reqs|
    decreases |steps|
  {
    if steps == [] then s else NextAll(cal, reqs, Next(cal, reqs, s, steps[0]), steps[1..])
  }

  /** The steps of one call taken without interruption do exactly what the sequential IssueInvoice
      does: same store, same result, and no other call moves. */
  lemma SoloIsSequential(cal: Calendar, reqs: Requests, s: State, c: nat, a: Answers, w: World)
    requires |s.pcs| == |reqs| && c < |reqs| && s.pcs[c].Idle? && w.rows == s.rows
    ensures var o := Issue(cal, w, reqs[c], a);
            NextAll(cal, reqs, s, Solo(c, a)) == State(o.world.rows, s.pcs[c := Ended(o.result)])
  {
    var steps := Solo(c, a);
    var s1 := Next(cal, reqs, s, steps[0]);
    var s2 := Next(cal, reqs, s1, steps[1]);
    var s3 := Next(cal, reqs, s2, steps[2]);
    var s4 := Next(cal, reqs, s3, steps[3]);
    assert steps[1..][1..] == steps[2..] && steps[2..][1..] == steps[3..] && steps[3..][1..] == [];
    assert NextAll(cal, reqs, s3, steps[3..]) == s4;
    assert NextAll(cal, reqs, s2, steps[2..]) == s4;
    assert NextAll(cal, reqs, s1, steps[1..]) == s4;
  }
}
