/** InvoiceRepository.Create over the relational schema: one transaction that inserts the invoice
    and then its items in a loop, any statement of which may fail. */
module Persistence {
  import opened AppErrors
  import opened Invoices
  import opened Money
  import opened Sums
  import opened Issuance
  import opened Vouchers
  import Runs = IssuanceRuns

  datatype InvoiceRow = InvoiceRow(
    userID: string, invoiceType: string, pointOfSale: int64, status: Status,
    subtotalCents: int64, taxCents: int64, totalCents: int64, idempotencyKey: string,
    createdAt: int, updatedAt: int)

  datatype ItemRow = ItemRow(
    invoiceID: string, description: string, quantity: int64, unitPriceCents: int64, totalCents: int64)

  datatype Tables = Tables(invoices: map<string, InvoiceRow>, items: map<string, ItemRow>)
  {
    // Foreign key: every item row belongs to an invoice row.
    ghost predicate Valid() {
      forall k :: k in items ==> items[k].invoiceID in invoices
    }
  }

  // The range of the INTEGER columns.
  const MAX_INTEGER: int := 0x7FFF_FFFF

  function RowOf(inv: InvoiceData): InvoiceRow {
    InvoiceRow(inv.customerID, inv.invoiceType, inv.pointOfSale, inv.status, inv.subtotalCents, inv.taxCents,
               inv.totalCents, inv.idempotencyKey, inv.createdAt, inv.updatedAt)
  }

  function ItemRowOf(invoiceID: string, item: InvoiceItem): ItemRow {
    ItemRow(invoiceID, item.description, item.quantity, item.unitPriceCents, item.TotalCents())
  }

  predicate KeyInUse(t: Tables, userID: string, key: string) {
    exists id :: id in t.invoices && t.invoices[id].userID == userID && t.invoices[id].idempotencyKey == key
  }

  // Primary key, checks, and the unique index; the program writes "" and never NULL for a missing
  // key, so the index applies to it too.
  predicate InvoiceFits(t: Tables, inv: InvoiceData) {
    && inv.id !in t.invoices && !KeyInUse(t, inv.customerID, inv.idempotencyKey)
    && ValidType(inv.invoiceType) && 0 < inv.pointOfSale <= MAX_INTEGER
  }

  predicate ItemChecks(item: InvoiceItem) {
    0 < item.quantity <= MAX_INTEGER && item.unitPriceCents >= 0 && item.TotalCents() >= 0
  }

  function WithInvoice(t: Tables, inv: InvoiceData): Tables {
    t.(invoices := t.invoices[inv.id := RowOf(inv)])
  }

  function WithItems(t: Tables, invoiceID: string, items: seq<InvoiceItem>, uuids: seq<string>): Tables
    requires |items| == |uuids|
  {
    if items == [] then t else
      var n := |items| - 1;
      var before := WithItems(t, invoiceID, items[..n], uuids[..n]);
      before.(items := before.items[uuids[n] := ItemRowOf(invoiceID, items[n])])
  }

  ghost predicate Distinct(uuids: seq<string>) {
    forall i, j :: 0 <= i < j < |uuids| ==> uuids[i] != uuids[j]
  }

  // An item passes its constraints under an identifier that is not in use, and its statement does not fail.
  predicate ItemPasses(stored: map<string, ItemRow>, item: InvoiceItem, uuid: string, failed: bool) {
    && uuid !in stored && !failed
    && 0 < item.quantity <= 2147483647 && item.unitPriceCents >= 0
    && Wrap(item.quantity * item.unitPriceCents) >= 0
  }

  // Statement 2 + i inserts item i under uuids[i]; the first n of them go through.
  ghost predicate ItemsFit(stored: map<string, ItemRow>, items: seq<InvoiceItem>, uuids: seq<string>, fails: nat -> bool, n: nat)
    requires n <= |items| == |uuids|
  {
    && Distinct(uuids[..n])
    && forall i :: 0 <= i < n ==> ItemPasses(stored, items[i], uuids[i], fails(i + 2))
  }

  // No statement fails, every row passes its constraints and the commit takes effect.
  // Statement 0 begins the transaction and statement 1 inserts the invoice.
  ghost predicate Commits(
    t: Tables, inv: InvoiceData, items: seq<InvoiceItem>, uuids: seq<string>, fails: nat -> bool, commit: Write)
    requires |items| == |uuids|
  {
    !fails(0) && !fails(1) && InvoiceFits(t, inv) && ItemsFit(t.items, items, uuids, fails, |items|)
    && commit.Applied()
  }

  // What the transaction leaves in the tables.
  ghost function Created(
    t: Tables, inv: InvoiceData, items: seq<InvoiceItem>, uuids: seq<string>, fails: nat -> bool, commit: Write): Tables
    requires |items| == |uuids|
  {
    if Commits(t, inv, items, uuids, fails, commit) then WithItems(WithInvoice(t, inv), inv.id, items, uuids) else t
  }

  // What it reports: the first statement that fails, or else what the commit came to.
  ghost function CreateError(
    t: Tables, inv: InvoiceData, items: seq<InvoiceItem>, uuids: seq<string>, fails: nat -> bool, commit: Write): Option<Error>
    requires |items| == |uuids|
  {
    if fails(0) then Some(App(DatabaseError, "begin transaction"))
    else if fails(1) || !InvoiceFits(t, inv) then Some(App(DatabaseError, "create invoice"))
    else if !ItemsFit(t.items, items, uuids, fails, |items|) then Some(App(DatabaseError, "create invoice item"))
    else if commit.Reported() then Some(commit.cause)
    else None
  }

  lemma {:induction false} ItemKeysAdded(t: Tables, invoiceID: string, items: seq<InvoiceItem>, uuids: seq<string>)
    requires |items| == |uuids|
    ensures var r := WithItems(t, invoiceID, items, uuids);
            && r.invoices == t.invoices
            && (forall k :: k in r.items <==> k in t.items || k in uuids)
            && (forall k :: k in t.items && k !in uuids ==> r.items[k] == t.items[k])
  {
    if items == [] {
    } else {
      var n := |items| - 1;
      ItemKeysAdded(t, invoiceID, items[..n], uuids[..n]);
      assert uuids == uuids[..n] + [uuids[n]];
    }
  }

  lemma {:induction false} ItemAdded(t: Tables, invoiceID: string, items: seq<InvoiceItem>, uuids: seq<string>, i: nat)
    requires i < |items| == |uuids| && Distinct(uuids)
    ensures var r := WithItems(t, invoiceID, items, uuids);
            uuids[i] in r.items && r.items[uuids[i]] == ItemRowOf(invoiceID, items[i])
    decreases |items|
  {
    var n := |items| - 1;
    if i < n { ItemAdded(t, invoiceID, items[..n], uuids[..n], i); }
  }

  lemma ItemsAdded(t: Tables, invoiceID: string, items: seq<InvoiceItem>, uuids: seq<string>)
    requires |items| == |uuids| && Distinct(uuids)
    ensures var r := WithItems(t, invoiceID, items, uuids);
            && r.invoices == t.invoices
            && (forall k :: k in r.items <==> k in t.items || k in uuids)
            && (forall k :: k in t.items && k !in uuids ==> r.items[k] == t.items[k])
            && (forall i :: 0 <= i < |items| ==> r.items[uuids[i]] == ItemRowOf(invoiceID, items[i]))
  {
    ItemKeysAdded(t, invoiceID, items, uuids);
    forall i | 0 <= i < |items| ensures WithItems(t, invoiceID, items, uuids).items[uuids[i]] == ItemRowOf(invoiceID, items[i]) {
      ItemAdded(t, invoiceID, items, uuids, i);
    }
  }

  // The insert of item i finds its identifier unused and goes through.
  predicate Inserts(tx: Tables, items: seq<InvoiceItem>, uuids: seq<string>, fails: nat -> bool, i: nat)
    requires i < |items| == |uuids|
  {
    !fails(i + 2) && uuids[i] !in tx.items && ItemChecks(items[i])
  }

  lemma DistinctPrefix(uuids: seq<string>, i: nat)
    requires i < |uuids| && Distinct(uuids[..i]) && uuids[i] !in uuids[..i]
    ensures Distinct(uuids[..i+1])
  {
    forall j, k | 0 <= j < k < i + 1 ensures uuids[j] != uuids[k] {
      assert uuids[j] == uuids[..i][j];
      if k < i { assert uuids[k] == uuids[..i][k]; }
    }
  }

  lemma NextItemFits(t: Tables, invoiceID: string, items: seq<InvoiceItem>, uuids: seq<string>, fails: nat -> bool, i: nat)
    requires i < |items| == |uuids| && ItemsFit(t.items, items, uuids, fails, i)
    requires Inserts(WithItems(t, invoiceID, items[..i], uuids[..i]), items, uuids, fails, i)
    ensures ItemsFit(t.items, items, uuids, fails, i + 1)
  {
    ItemsAdded(t, invoiceID, items[..i], uuids[..i]);
    DistinctPrefix(uuids, i);
  }

  lemma NextItemDoesNotFit(t: Tables, invoiceID: string, items: seq<InvoiceItem>, uuids: seq<string>, fails: nat -> bool, i: nat)
    requires i < |items| == |uuids| && ItemsFit(t.items, items, uuids, fails, i)
    requires !Inserts(WithItems(t, invoiceID, items[..i], uuids[..i]), items, uuids, fails, i)
    ensures !ItemsFit(t.items, items, uuids, fails, |items|)
  {
    ItemsAdded(t, invoiceID, items[..i], uuids[..i]);
    if uuids[i] in uuids[..i] {
      var j :| 0 <= j < i && uuids[..i][j] == uuids[i];
      assert uuids[..|uuids|][j] == uuids[..|uuids|][i];
    }
  }

  class InvoiceRepository {
    var committed: Tables

    method InsertItems(
      start: Tables, invoiceID: string, items: seq<InvoiceItem>, uuids: seq<string>, fails: nat -> bool)
      returns (tx: Tables, ok: bool)
      requires |items| == |uuids|
      ensures ok <==> ItemsFit(start.items, items, uuids, fails, |items|)
      ensures ok ==> tx == WithItems(start, invoiceID, items, uuids)
    {
      tx := start;
      for i := 0 to |items|
        invariant tx == WithItems(start, invoiceID, items[..i], uuids[..i])
        invariant ItemsFit(start.items, items, uuids, fails, i)
      {
        if fails(i + 2) || uuids[i] in tx.items || !ItemChecks(items[i]) {
          NextItemDoesNotFit(start, invoiceID, items, uuids, fails, i);
          return tx, false;
        }
        NextItemFits(start, invoiceID, items, uuids, fails, i);
        assert items[..i+1][..i] == items[..i] && uuids[..i+1][..i] == uuids[..i];
        tx := tx.(items := tx.items[uuids[i] := ItemRowOf(invoiceID, items[i])]);
      }
      assert items[..|items|] == items && uuids[..|items|] == uuids;
      ok := true;
    }

    /** All or nothing: exactly when every statement succeeds, the invoice row and one row per item. */
    method Create(inv: InvoiceData, items: seq<InvoiceItem>, uuids: seq<string>, fails: nat -> bool, commit: Write)
      returns (err: Option<Error>)
      requires |items| == |uuids|
      modifies this
      ensures committed == Created(old(committed), inv, items, uuids, fails, commit)
      ensures err == CreateError(old(committed), inv, items, uuids, fails, commit)
    {
      if fails(0) {
        return Some(App(DatabaseError, "begin transaction"));
      }
      if fails(1) || !InvoiceFits(committed, inv) {
        return Some(App(DatabaseError, "create invoice"));
      }
      var tx, ok := InsertItems(WithInvoice(committed, inv), inv.id, items, uuids, fails);
      if !ok {
        return Some(App(DatabaseError, "create invoice item"));
      }
      if commit.Applied() {
        committed := tx;
      }
      err := if commit.Reported() then Some(commit.cause) else None;
    }
  }

  function TotalOf(row: ItemRow): int { row.totalCents }

  function RowsIn(t: Tables, uuids: seq<string>): (rows: seq<ItemRow>)
    requires forall i :: 0 <= i < |uuids| ==> uuids[i] in t.items
    ensures |rows| == |uuids|
  {
    seq(|uuids|, i requires 0 <= i < |uuids| => t.items[uuids[i]])
  }

  // The item rows of an invoice are one row per item, under these identifiers, and no others.
  ghost predicate ItemRowsAre(t: Tables, invoiceID: string, items: seq<InvoiceItem>, uuids: seq<string>) {
    && |uuids| == |items| && Distinct(uuids)
    && (forall i :: 0 <= i < |uuids| ==> uuids[i] in t.items && t.items[uuids[i]] == ItemRowOf(invoiceID, items[i]))
    && (forall k :: k in t.items && t.items[k].invoiceID == invoiceID ==> k in uuids)
  }

  lemma CommittedRows(
    t: Tables, inv: InvoiceData, uuids: seq<string>, fails: nat -> bool, commit: Write)
    requires |inv.items| == |uuids| && t.Valid() && Commits(t, inv, inv.items, uuids, fails, commit)
    ensures var r := Created(t, inv, inv.items, uuids, fails, commit);
            && r.Valid()
            && r.invoices == t.invoices[inv.id := RowOf(inv)]
            && ItemRowsAre(r, inv.id, inv.items, uuids)
            && (forall k :: k in r.items <==> k in t.items || k in uuids)
            && (forall k :: k in t.items ==> k !in uuids && r.items[k] == t.items[k])
  {
    var r := Created(t, inv, inv.items, uuids, fails, commit);
    assert uuids[..|uuids|] == uuids;
    ItemsAdded(WithInvoice(t, inv), inv.id, inv.items, uuids);
    forall k | k in r.items
      ensures r.items[k].invoiceID in r.invoices
      ensures r.items[k].invoiceID == inv.id <==> k in uuids
    {
      if k in uuids {
        var i :| 0 <= i < |uuids| && uuids[i] == k;
      }
    }
  }

  // The columns of an invoice row, one by one.
  ghost predicate InvoiceColumns(row: InvoiceRow, inv: InvoiceData) {
    && row.userID == inv.customerID && row.invoiceType == inv.invoiceType && row.pointOfSale == inv.pointOfSale
    && row.status == inv.status && row.subtotalCents == inv.subtotalCents && row.taxCents == inv.taxCents
    && row.totalCents == inv.totalCents && row.idempotencyKey == inv.idempotencyKey
    && row.createdAt == inv.createdAt && row.updatedAt == inv.updatedAt
  }

  // The columns of an item row, one by one.
  ghost predicate ItemColumns(row: ItemRow, invoiceID: string, item: InvoiceItem) {
    && row.invoiceID == invoiceID && row.description == item.description && row.quantity == item.quantity
    && row.unitPriceCents == item.unitPriceCents && row.totalCents == Wrap(item.quantity * item.unitPriceCents)
  }

  /** A committed invoice has its own row with the invoice's columns, exactly one item row per item with the
      item's columns and no other item rows, leaves every other row alone, and its stored line totals add up in
      64 bits to its stored subtotal. */
  lemma CommittedInvoice(
    t: Tables, inv: InvoiceData, uuids: seq<string>, fails: nat -> bool, commit: Write)
    requires |inv.items| == |uuids| && t.Valid() && inv.subtotalCents == Wrap(ExactTotal(inv.items))
    requires Commits(t, inv, inv.items, uuids, fails, commit)
    ensures var r := Created(t, inv, inv.items, uuids, fails, commit);
            && r.Valid()
            && r.invoices.Keys == t.invoices.Keys + {inv.id}
            && (forall id :: id in t.invoices ==> id != inv.id && r.invoices[id] == t.invoices[id])
            && InvoiceColumns(r.invoices[inv.id], inv)
            && (forall i :: 0 <= i < |uuids| ==> uuids[i] in r.items && ItemColumns(r.items[uuids[i]], inv.id, inv.items[i]))
            && (forall i, j :: 0 <= i < j < |uuids| ==> uuids[i] != uuids[j])
            && (forall k :: k in r.items && r.items[k].invoiceID == inv.id <==> k in uuids)
            && (forall k :: k in r.items <==> k in t.items || k in uuids)
            && (forall k :: k in t.items ==> k !in uuids && r.items[k] == t.items[k])
            && Wrap(Sum(RowsIn(r, uuids), TotalOf)) == r.invoices[inv.id].subtotalCents
  {
    var r := Created(t, inv, inv.items, uuids, fails, commit);
    CommittedRows(t, inv, uuids, fails, commit);
    WrappedLinesAddUp(inv.items, RowsIn(r, uuids), TotalOf);
    forall k ensures k in r.items && r.items[k].invoiceID == inv.id <==> k in uuids {
      if k in uuids { var i :| 0 <= i < |uuids| && uuids[i] == k; }
    }
  }

  /** The row of an invoice that IssueInvoice built balances: no tax, and a total equal to the subtotal and to
      the sum of the stored line totals. */
  lemma CommittedRowBalances(
    t: Tables, cal: Calendar, call: Runs.Call, inv: InvoiceData, uuids: seq<string>, fails: nat -> bool, commit: Write)
    requires |inv.items| == |uuids| && t.Valid() && Runs.WellFormed(cal, call, inv)
    requires Commits(t, inv, inv.items, uuids, fails, commit)
    ensures var r := Created(t, inv, inv.items, uuids, fails, commit);
            && inv.id in r.invoices && (forall i :: 0 <= i < |uuids| ==> uuids[i] in r.items)
            && r.invoices[inv.id].userID == call.input.customerID
            && r.invoices[inv.id].taxCents == 0
            && r.invoices[inv.id].totalCents == r.invoices[inv.id].subtotalCents == Wrap(Sum(RowsIn(r, uuids), TotalOf))
  {
    CommittedInvoice(t, inv, uuids, fails, commit);
  }

  ghost predicate ItemsStored(t: Tables, invoiceID: string, items: seq<InvoiceItem>) {
    exists uuids :: ItemRowsAre(t, invoiceID, items, uuids)
  }

  ghost predicate InvoiceStored(t: Tables, id: string, inv: InvoiceData) {
    id in t.invoices && t.invoices[id] == RowOf(inv) && ItemsStored(t, id, inv.items)
  }

  // The tables hold the invoices of the store that IssueInvoice works with, and their items.
  ghost predicate Represents(t: Tables, rows: Rows) {
    t.Valid() && t.invoices.Keys == rows.Keys && forall id :: id in rows ==> InvoiceStored(t, id, rows[id])
  }

  lemma OtherItemsStay(t: Tables, r: Tables, invoiceID: string, items: seq<InvoiceItem>, newID: string)
    requires ItemsStored(t, invoiceID, items) && invoiceID != newID
    requires forall k :: k in t.items ==> k in r.items && r.items[k] == t.items[k]
    requires forall k :: k in r.items && k !in t.items ==> r.items[k].invoiceID == newID
    ensures ItemsStored(r, invoiceID, items)
  {
    var uuids :| ItemRowsAre(t, invoiceID, items, uuids);
    assert ItemRowsAre(r, invoiceID, items, uuids);
  }

  lemma KeyInUseIsTaken(t: Tables, rows: Rows, userID: string, key: string)
    requires Represents(t, rows)
    ensures KeyInUse(t, userID, key) <==> Taken(rows, userID, key)
  {
    if KeyInUse(t, userID, key) {
      var id :| id in t.invoices && t.invoices[id].userID == userID && t.invoices[id].idempotencyKey == key;
      assert id in rows && Matches(rows[id], userID, key);
    }
    if Taken(rows, userID, key) {
      var id :| id in rows && Matches(rows[id], userID, key);
      assert id in t.invoices && t.invoices[id] == RowOf(rows[id]);
    }
  }

  lemma CommitIsApplied(
    t: Tables, rows: Rows, inv: InvoiceData, uuids: seq<string>, fails: nat -> bool, commit: Write)
    requires |inv.items| == |uuids| && Represents(t, rows)
    requires Commits(t, inv, inv.items, uuids, fails, commit)
    ensures inv.id !in rows && Applied(rows, inv, commit)
  {
    KeyInUseIsTaken(t, rows, inv.customerID, inv.idempotencyKey);
  }

  // An invoice stored before stays stored when only another invoice's rows are added.
  lemma StillStored(t: Tables, r: Tables, id: string, inv: InvoiceData, newID: string, row: InvoiceRow)
    requires InvoiceStored(t, id, inv) && id != newID && r.invoices == t.invoices[newID := row]
    requires forall k :: k in t.items ==> k in r.items && r.items[k] == t.items[k]
    requires forall k :: k in r.items && k !in t.items ==> r.items[k].invoiceID == newID
    ensures InvoiceStored(r, id, inv)
  {
    OtherItemsStay(t, r, id, inv.items, newID);
  }

  lemma CommittedIsStored(
    t: Tables, rows: Rows, inv: InvoiceData, uuids: seq<string>, fails: nat -> bool, commit: Write, id: string)
    requires |inv.items| == |uuids| && Represents(t, rows) && inv.id !in rows
    requires Commits(t, inv, inv.items, uuids, fails, commit)
    ensures var r := Created(t, inv, inv.items, uuids, fails, commit);
            && r.Valid() && r.invoices.Keys == t.invoices.Keys + {inv.id}
            && (id == inv.id ==> InvoiceStored(r, id, inv))
            && (id in rows ==> InvoiceStored(r, id, rows[id]))
  {
    var r := Created(t, inv, inv.items, uuids, fails, commit);
    CommittedRows(t, inv, uuids, fails, commit);
    forall k | k in r.items && k !in t.items ensures r.items[k].invoiceID == inv.id {
      var i :| 0 <= i < |uuids| && uuids[i] == k;
    }
    if id in rows {
      StillStored(t, r, id, rows[id], inv.id, RowOf(inv));
    }
  }

  // With the new invoice and the old ones stored, the tables represent the store after the insertion.
  lemma AddedRepresents(r: Tables, rows: Rows, inv: InvoiceData)
    requires r.Valid() && r.invoices.Keys == rows.Keys + {inv.id} && inv.id !in rows
    requires InvoiceStored(r, inv.id, inv) && forall id :: id in rows ==> InvoiceStored(r, id, rows[id])
    ensures Represents(r, rows[inv.id := inv])
  {
  }

  lemma CommitRepresents(
    t: Tables, rows: Rows, inv: InvoiceData, uuids: seq<string>, fails: nat -> bool, commit: Write)
    requires |inv.items| == |uuids| && Represents(t, rows) && inv.id !in rows
    requires Commits(t, inv, inv.items, uuids, fails, commit)
    ensures Represents(Created(t, inv, inv.items, uuids, fails, commit), rows[inv.id := inv])
  {
    var r := Created(t, inv, inv.items, uuids, fails, commit);
    CommittedIsStored(t, rows, inv, uuids, fails, commit, inv.id);
    forall id | id in rows ensures InvoiceStored(r, id, rows[id]) {
      CommittedIsStored(t, rows, inv, uuids, fails, commit, id);
    }
    AddedRepresents(r, rows, inv);
  }

  /** The transaction refines the Create that IssueInvoice relies on: whatever fails, there is an outcome
      of that Create, the commit's own when it commits, which leaves the store that the tables then
      represent and reports an error exactly when the transaction does. */
  lemma RefinesCreate(
    t: Tables, rows: Rows, inv: InvoiceData, uuids: seq<string>, fails: nat -> bool, commit: Write)
    returns (write: Write)
    requires |inv.items| == |uuids| && Represents(t, rows)
    ensures Represents(Created(t, inv, inv.items, uuids, fails, commit), Insert(rows, inv, write))
    ensures InsertError(rows, inv, write).None? <==> CreateError(t, inv, inv.items, uuids, fails, commit).None?
    ensures Commits(t, inv, inv.items, uuids, fails, commit) ==> write == commit && Applied(rows, inv, commit)
  {
    if Commits(t, inv, inv.items, uuids, fails, commit) {
      CommitIsApplied(t, rows, inv, uuids, fails, commit);
      CommitRepresents(t, rows, inv, uuids, fails, commit);
      write := commit;
    } else {
      write := NotDone(Plain("not committed"));
    }
  }

  // The invoice row passes its constraints, in terms of the store.
  lemma FitsExactly(t: Tables, rows: Rows, inv: InvoiceData)
    requires Represents(t, rows)
    ensures InvoiceFits(t, inv) <==>
      && Acceptable(rows, inv)
      && (inv.idempotencyKey == "" ==> !Taken(rows, inv.customerID, ""))
      && ValidType(inv.invoiceType) && 0 < inv.pointOfSale <= MAX_INTEGER
  {
    KeyInUseIsTaken(t, rows, inv.customerID, inv.idempotencyKey);
    if inv.idempotencyKey == "" {
      assert Taken(rows, inv.customerID, "") == Taken(rows, inv.customerID, inv.idempotencyKey);
    }
  }

  /** When the transaction commits, exactly, in terms of the store it represents. Next to what
      IssueInvoice relies on it demands column ranges, unused item identifiers and, because a missing
      key is written as "" and not NULL, that the customer has no other invoice without a key. */
  lemma CommitsExactly(
    t: Tables, rows: Rows, inv: InvoiceData, uuids: seq<string>, fails: nat -> bool, commit: Write)
    requires |inv.items| == |uuids| && Represents(t, rows)
    ensures Commits(t, inv, inv.items, uuids, fails, commit) <==>
      && Applied(rows, inv, commit)
      && (inv.idempotencyKey == "" ==> !Taken(rows, inv.customerID, ""))
      && inv.invoiceType in {"A", "B", "C"} && 0 < inv.pointOfSale <= 2147483647
      && !fails(0) && !fails(1)
      && (forall i, j :: 0 <= i < j < |uuids| ==> uuids[i] != uuids[j])
      && (forall i :: 0 <= i < |uuids| ==> ItemPasses(t.items, inv.items[i], uuids[i], fails(i + 2)))
  {
    FitsExactly(t, rows, inv);
    assert uuids[..|uuids|] == uuids;
  }

  /** What a transaction that does not succeed reports, by what stopped it first. */
  lemma ReportedError(
    t: Tables, inv: InvoiceData, uuids: seq<string>, fails: nat -> bool, commit: Write)
    requires |inv.items| == |uuids|
    ensures var err := CreateError(t, inv, inv.items, uuids, fails, commit);
            && (fails(0) ==> err == Some(App(DatabaseError, "begin transaction")))
            && (!fails(0) && (fails(1) || inv.id in t.invoices || KeyInUse(t, inv.customerID, inv.idempotencyKey)) ==>
                  err == Some(App(DatabaseError, "create invoice")))
            && (Commits(t, inv, inv.items, uuids, fails, commit) ==> err == if commit.Done? then None else Some(commit.cause))
            && (err.None? ==> Commits(t, inv, inv.items, uuids, fails, commit))
            && (!fails(0) && !fails(1) && InvoiceFits(t, inv)
                  && (exists i :: 0 <= i < |uuids| && !ItemPasses(t.items, inv.items[i], uuids[i], fails(i + 2)))
                ==> err == Some(App(DatabaseError, "create invoice item")))
  {
    assert uuids[..|uuids|] == uuids;
  }

  /** A customer's second invoice without a key never commits. */
  lemma SecondUnkeyedIsRefused(
    t: Tables, rows: Rows, inv: InvoiceData, uuids: seq<string>, fails: nat -> bool, commit: Write)
    requires |inv.items| == |uuids| && Represents(t, rows)
    requires inv.idempotencyKey == "" && Taken(rows, inv.customerID, "")
    ensures !Commits(t, inv, inv.items, uuids, fails, commit)
    ensures CreateError(t, inv, inv.items, uuids, fails, commit).Some?
  {
    KeyInUseIsTaken(t, rows, inv.customerID, "");
  }
}
