# Verified model of the ARCA invoice proxy

The proxy issues electronic invoices through ARCA, the Argentine tax authority. A request carries items and an
optional idempotency key; the service looks the key up, validates, asks ARCA for a voucher, marks the invoice issued or
rejected and stores it. Around that sit an idempotency engine that runs a handler once per key, money arithmetic in
64-bit cents, the CUIT check digit of a taxpayer number, and API keys.

What makes it hard is that ARCA's side effect cannot be undone, that every store call may fail or lose its
acknowledgement, and that several calls may be in flight at once. The model therefore has, for both the issuance workflow and
the idempotency engine:

* a **class with the program's fields and steps**, whose methods are proved equal to a function of the old state and of
  everything the environment answers (`Issuance`, `Idempotency`);
* **whole sequential runs** of that function, related to a simpler account of the same behaviour (`IssuanceRuns`,
  `IdempotencyRuns`);
* a **step system** in which any number of calls interleave over one store (`IssuanceRace`, `IdempotencyRace`), with a
  lemma that one undisturbed call does exactly what the sequential one does.

A write to a store is `Done`, `NotDone` (refused) or `DoneUnreported` (it took effect, but the caller was told that it
failed). The other modules are `Money`, `Float64` (round-to-nearest-even binary64, section 4.3.1 of IEEE 754-2019),
`Vouchers`, `Invoices`, `Persistence` (the transaction that stores an invoice and its items), `InvoiceHandler` (the HTTP
handler's loops), `Cuit`, `ApiKeys`, `ApiKeyRuns`, and the helpers `AppErrors` and `Sums`.

Hypotheses appear where a property needs them, as named predicates on the run: new invoice identifiers are not reused
(`FreshIDs`), the clock does not go back (`ClockMonotone`), the keyed hash does not confuse a presented raw key with an
issued one (`CollisionFree`), no raw key is issued twice (`FreshKeys`).

## Where the code differs from its documentation or its purpose

The model follows the code, and the lemmas named here say exactly what it does.

* `docs/contracts.md:306` says that an expired key is treated as not found, so that the request would run again. The
  code answers with the error `idempotency_not_found` and never replaces the record
  (`internal/application/idempotency/service.go:69-71`): `IdempotencyRuns.ExpiredForGood`.
* `docs/contracts.md:313` says that the upsert prevents duplicate creates. It prevents a second row, not a second handler run:
  `IdempotencyRace.OneRunExactly` says exactly when the handler runs at most once, and `IdempotencyRace.PairedExactly`
  exactly when the stored response belongs to the stored body hash.
* `docs/contracts.md:307-308` lists "processing" before "hash mismatch". The code compares hashes first:
  `IdempotencyRuns.RetryGetsFirstAnswer`.
* `docs/contracts.md:144` relies on the partial unique index for keyed invoices. Since the code writes `""` and not NULL for a
  missing key, the index also refuses a customer's second invoice without a key: `Persistence.SecondUnkeyedIsRefused`,
  and `Persistence.CommitsExactly` for the whole condition.
* A key protects the stored invoice but not ARCA: two racing requests with one key can both obtain an approved voucher,
  and one of the two then has no stored invoice, without any fault (`IssuanceRace.OrphanVoucher`).
  `IssuanceRace.OneVoucherExactly` says exactly when this cannot happen.
* The amounts sent to ARCA are not exact at every size. `Float64.PricesReadableExactly` and
  `Float64.PricesDistinctExactly` give the exact limits for unit prices, `Vouchers.VoucherTotalIsSubtotal` a limit for
  totals and `Vouchers.LargeTotalFails` a total one part in 28 million above it that arrives one cent short.

## Model

| member | source | states |
|---|---|---|
| Issuance.Service.IssueInvoice | internal/application/invoice/issue_invoice.go:75-161 | one call on an object over the invoice store leaves exactly the stored invoices, voucher calls and Create attempts of the specification `Issue`, returns its result, and keeps the primary key and the unique (customer, key) index |
| Issuance.Service.Submit | internal/application/invoice/issue_invoice.go:129-160 | from CreateVoucher on: one voucher call, one Create attempt of the invoice marked by ARCA's answer, and the error or invoice the caller gets, in all three persist branches |
| Issuance.Service.Persist | internal/application/invoice/issue_invoice.go:133 | one Create attempt is recorded with whether it took effect |
| Issuance.NewItems | internal/application/invoice/issue_invoice.go:108-115 | the item loop yields the request's items in order or the error of the first invalid one |
| Issuance.ItemsAccepted | internal/application/invoice/issue_invoice.go:108-115 | the loop accepts a request's items if and only if each is valid on its own |
| Issuance.FirstErrorStays | internal/application/invoice/issue_invoice.go:110-113 | once a prefix of the items is refused, the whole list is refused with that same error |
| Issuance.PreparedExactly | internal/application/invoice/issue_invoice.go:86-127 | a call gets as far as CreateVoucher if and only if its request is well formed and customer, unexpired credential and last voucher are available |
| Issuance.RequestDescribes | internal/application/invoice/issue_invoice.go:163-198 | the voucher request carries the credential's CUIT, type code 1, 6 or 11, document 80 with the customer's CUIT for types A and B and 99 with "0" for C, the dates, concept and currency, and every item with its description, quantity and price, without bonus or taxes |
| Issuance.LookupFinds | internal/infrastructure/postgres/repositories.go:339-392 | with the unique index kept, the lookup returns the one invoice stored under a customer and non-empty key |
| Issuance.FoundIsStored | internal/infrastructure/postgres/repositories.go:339-392 | whatever the lookup returns is a stored invoice of that customer and key |
| Issuance.InsertKeepsKeys | migrations/001_initial_schema.sql:57-81 | an insertion, accepted, refused or unreported, keeps the primary key and the unique (customer, non-empty key) index |
| Issuance.InvoiceStore.GetByIdempotencyKey | internal/infrastructure/postgres/repositories.go:339-392 | for any key: the store's fault, not found when no invoice has that customer and key, else one that has; for a non-empty key and kept indexes, the answer is the function `Lookup` of the rows |
| Issuance.InvoiceStore.Create | internal/infrastructure/postgres/repositories.go:250-282 | inserts unless the primary key or the (customer, non-empty key) index refuses or the write does not take effect, and reports an error in those cases and when the acknowledgement is lost; every further refusal by the schema is a write that did not take effect (`Persistence.RefinesCreate`) |
| IssuanceRuns.SucceedsExactly | internal/application/invoice/issue_invoice.go:86-160 | a call not answered from the store succeeds if and only if request, sources, ARCA and Create all say yes; it asks for one voucher exactly when it is prepared; a refusal by ARCA is reported whatever becomes of the Create |
| IssuanceRuns.AttemptIsWellFormed | internal/application/invoice/issue_invoice.go:86-160 | the invoice that a call tries to store has the request's customer, key, type, point of sale and items in order, the loop's subtotal, no tax and a total equal to the subtotal, is issued exactly on ARCA's approval with every field of ARCA's answer, and otherwise rejected with the reasons; the voucher request describes that invoice |
| IssuanceRuns.EachGuard | internal/application/invoice/issue_invoice.go:75-161 | what every call comes to, guard by guard: failing lookup, stored pair, each refusal with its error code and no effect, ARCA's refusal, a failing Create, success |
| IssuanceRuns.StoredInvoices | internal/domain/invoice/invoice.go:113-167 | every invoice that any run ever stores is such an invoice of one of its calls |
| IssuanceRuns.Conservation | internal/application/invoice/issue_invoice.go:129-160 | over every run, voucher calls and Create attempts correspond one to one in order, the stored invoices are exactly the attempts that took effect, and voucher calls = stored invoices + attempts that did not |
| IssuanceRuns.VouchersDescribeCalls | internal/application/invoice/issue_invoice.go:129-198 | over every run, each voucher request and the Create attempt it belongs to come from one call, name the customer and credential that this call saw, and offer the invoice it determines |
| IssuanceRuns.PairStaysConserved | internal/application/invoice/issue_invoice.go:76-84 | over every run, the Create attempts of one (customer, non-empty key) are its failed ones plus one exactly when the pair is stored |
| IssuanceRuns.VouchersPerPair | internal/application/invoice/issue_invoice.go:76-84 | over every run, the voucher calls for a (customer, non-empty key) equal its failed Creates, plus one exactly when the pair is stored |
| IssuanceRuns.Replay | internal/application/invoice/issue_invoice.go:76-84 | once a pair is stored, issued or rejected, every later call changes nothing and returns that very invoice without error, or an error if its lookup fails |
| IssuanceRuns.ReturnedIsStored | internal/application/invoice/issue_invoice.go:156-160 | every invoice returned is in the store, unchanged, under the caller's customer and key |
| IssuanceRuns.SameKeySameInvoice | internal/application/invoice/issue_invoice.go:76-84 | two calls of a run with the same customer and non-empty key that succeed return the same invoice |
| IssuanceRuns.CustomerIsolation | internal/application/invoice/issue_invoice.go:76-160 | erasing all other customers' calls from a run leaves a customer's results and stored invoices unchanged |
| IssuanceRace.ReachableIsConsistent | migrations/001_initial_schema.sql:81 | under every interleaving the store never holds two invoices for one customer and non-empty key, and every call's invoice belongs to its own request |
| IssuanceRace.Agreement | internal/application/invoice/issue_invoice.go:75-161 | under every interleaving, all calls for a pair that return without error return the same invoice, the only one stored for it |
| IssuanceRace.RaceConservation | internal/application/invoice/issue_invoice.go:129-160 | under every interleaving, voucher calls = stored invoices + Creates that did not take effect + calls between CreateVoucher and Create |
| IssuanceRace.VouchersPerPair | internal/application/invoice/issue_invoice.go:76-160 | under every interleaving, for a customer and non-empty key: voucher calls = Creates that did not take effect + calls between CreateVoucher and Create, plus one exactly when the pair is stored |
| IssuanceRace.StoredInvoices | internal/application/invoice/issue_invoice.go:86-160 | under every interleaving, each stored invoice is what some call's request, the sources it saw and ARCA's answer to it determine |
| IssuanceRace.AsksDescribeCalls | internal/application/invoice/issue_invoice.go:129-198 | under every interleaving, each voucher request names what its own call's request and the sources this call saw determine |
| IssuanceRace.LateArrivals | internal/application/invoice/issue_invoice.go:76-84 | a call that looks up after the pair was stored never asks ARCA, so vouchers never outnumber the calls that looked before |
| IssuanceRace.OneVoucherExactly | internal/application/invoice/issue_invoice.go:76-145 | at most one voucher is asked for, and at most one is approved, under every interleaving if and only if at most one well-formed request carries the pair |
| IssuanceRace.TwoVouchers | internal/application/invoice/issue_invoice.go:76-145 | any two well-formed requests for one pair have an interleaving in which ARCA approves a voucher for each |
| IssuanceRace.OrphanVoucher | internal/application/invoice/issue_invoice.go:76-160 | that interleaving runs on, without any fault, to a state where one call succeeded with the only stored invoice and the other, whose voucher was approved too, failed to persist its invoice |
| IssuanceRace.SoloIsSequential | internal/application/invoice/issue_invoice.go:75-161 | the steps of one undisturbed call do exactly what the sequential call does |
| Idempotency.Service.Process | internal/application/idempotency/service.go:31-92 | one call on an object over the record store leaves the specified rows, result and handler runs, under store, handler and marshalling failures |
| Idempotency.Service.RunFirst | internal/application/idempotency/service.go:42-67 | the same for the branch that creates the record, runs the handler and updates the record |
| Idempotency.IdempotencyRecord.Complete | internal/domain/idempotency/idempotency.go:90-95 | the record becomes succeeded with the response and no error; key, hash and expiry stay |
| Idempotency.IdempotencyRecord.Fail | internal/domain/idempotency/idempotency.go:97-104 | the record becomes failed with the error's text and no response; key, hash and expiry stay |
| Idempotency.NewIdempotencyRecord | internal/domain/idempotency/idempotency.go:58-77 | refuses an empty key or body, else a fresh processing record that expires after the lifetime |
| Idempotency.IdempotencyStore.Get | internal/infrastructure/postgres/repositories.go:470-497 | the row, not found, or the store's fault |
| Idempotency.IdempotencyStore.Create | internal/infrastructure/postgres/repositories.go:451-468 | an upsert that keeps an existing row's response, error and creation time |
| Idempotency.IdempotencyStore.Update | internal/infrastructure/postgres/repositories.go:499-513 | writes status, response, error and update time of an existing row, never its hash or expiry |
| IdempotencyRuns.StoreIsFirstDecision | internal/application/idempotency/service.go:36-67 | over every run the store holds for each key exactly what the first call that reached the store decided, computed without a store |
| IdempotencyRuns.MemoRefinement | internal/application/idempotency/service.go:31-92 | a call on a decided key is answered from that decision alone and runs nothing; on an undecided key the handler runs exactly when the call decides and its Create is acknowledged, and the call succeeds, with the handler's result, exactly when everything after it works too |
| IdempotencyRuns.RetryGetsFirstAnswer | internal/application/idempotency/service.go:69-91 | what a retry is told in terms of the first call: expired, else conflict on another body hash, else still processing when that call left its record unfinished, else the first handler's error text, or exactly what its encoded response decodes to, an internal error if it does not decode |
| IdempotencyRuns.SucceededRetryIsServed | internal/application/idempotency/service.go:80-86 | once a call succeeded, every retry within the lifetime and with the same body hash gets the decoded response, whether or not that encodes back to the same bytes |
| IdempotencyRuns.EachGuard | internal/application/idempotency/service.go:31-92 | what every call comes to, guard by guard, with the code of each refusal and whether the handler ran |
| IdempotencyRuns.AtMostOnce | internal/application/idempotency/service.go:36-56 | over every sequential run the handler runs at most once for a key |
| IdempotencyRuns.Lifecycle | internal/domain/idempotency/idempotency.go:58-104 | between calls a record never changes once created; succeeded means a response and no error, failed means no response |
| IdempotencyRuns.ExpiredForGood | internal/application/idempotency/service.go:69-71 | once a key has expired for one call, every later call on it gets that error, runs nothing and changes nothing |
| IdempotencyRuns.KeyIsolation | internal/application/idempotency/service.go:36-92 | erasing all calls on other keys leaves a key's results and record unchanged |
| IdempotencyRuns.ServeMatchesDecision | internal/application/idempotency/service.go:42-67 | one call changes nothing but its own key, and that only when the key had no record and the call reaches the store; its handler runs exactly when the Create was acknowledged |
| IdempotencyRace.LateArrivals | internal/application/idempotency/service.go:36-56 | under every interleaving a call that reads after the first successful Create never runs its handler, so runs never outnumber the calls that read before |
| IdempotencyRace.RunsExactly | internal/application/idempotency/service.go:36-56 | in every interleaving that has come to rest on a key, whatever failed, its handler ran exactly once for each call with a body that read before the first Create, less those stopped by a failed read or a Create of their own that was not acknowledged |
| IdempotencyRace.OneRunExactly | internal/infrastructure/postgres/repositories.go:451-468 | the handler runs at most once under every interleaving if and only if at most one request on the key has a body |
| IdempotencyRace.TwoRuns | internal/infrastructure/postgres/repositories.go:451-468 | any two requests with bodies on one key have an interleaving in which both handlers run |
| IdempotencyRace.ProcessingIsExplained | internal/application/idempotency/service.go:47-66 | in every reachable state a processing record has a call on its key between Create and Update, or one that took a step losing the outcome: an unacknowledged Create that took effect, a response that does not marshal, or an Update that did not reach the store |
| IdempotencyRace.Quiescence | internal/application/idempotency/service.go:47-66 | with none of these losses on a key and no call on it under way, its record is succeeded or failed, whatever else failed |
| IdempotencyRace.SettledIsSourced | internal/infrastructure/postgres/repositories.go:451-513 | under every interleaving a settled record holds the outcome of a handler that ran for its key and the hash of a non-empty body sent with its key |
| IdempotencyRace.RepliesAreSourced | internal/application/idempotency/service.go:51-91 | under every interleaving a call that succeeds is given its own handler's result or the decoded response of a handler that ran for its key |
| IdempotencyRace.SucceededReadIsServed | internal/application/idempotency/service.go:80-86 | under every interleaving, a call that reads a succeeded record of its body hash within its lifetime ends with exactly what the stored response decodes to, and there is one |
| IdempotencyRace.PairedExactly | internal/infrastructure/postgres/repositories.go:454-505 | the stored response always belongs to a body with the stored hash, under every interleaving, if and only if all non-empty bodies sent with the key hash alike |
| IdempotencyRace.Mismatch | internal/infrastructure/postgres/repositories.go:454-505 | any two calls with different body hashes have an interleaving that stores one's response under the other's hash |
| IdempotencyRace.SoloIsSequential | internal/application/idempotency/service.go:31-92 | the steps of one undisturbed call do exactly what the sequential call does |
| Money.NewInvoiceItem | internal/domain/invoice/invoice.go:49-64 | an item is built exactly when it has a description, a positive quantity and a price that is not negative |
| Money.WrapIsUnique | internal/domain/invoice/invoice.go:66-68 | the 64-bit value of an integer is the only one in range congruent to it modulo 2^64 |
| Money.WrapAdd | internal/domain/invoice/invoice.go:130-133 | wrapping each step of a sum wraps the sum |
| Money.SubtotalExactness | internal/domain/invoice/invoice.go:66-68 | for valid items the subtotal equals the mathematical sum if and only if that sum is below 2^63, and exactly then no line total and no partial sum overflowed |
| Money.WrappedLinesAddUp | internal/domain/invoice/invoice.go:130-133 | line totals wrapped one by one still add up in 64 bits to the wrapped mathematical sum |
| Money.SubtotalOfPermutation | internal/domain/invoice/invoice.go:130-133 | reordering the items changes neither the sum nor the wrapped subtotal |
| Invoices.ParseInvoiceType | internal/domain/invoice/invoice.go:22-33 | accepts A, B and C and nothing else |
| Invoices.NewInvoice | internal/domain/invoice/invoice.go:113-150 | the first failing check's error, or a pending invoice whose loop subtotal is the wrapped mathematical sum, with no tax |
| Invoices.Invoice.MarkIssued | internal/domain/invoice/invoice.go:152-158 | sets status, response and both times, and nothing else, from any status |
| Invoices.Invoice.MarkRejected | internal/domain/invoice/invoice.go:160-167 | sets status, a response with result rejected and the observations, and the update time, from any status |
| Invoices.Invoice.MarkCancelled | internal/domain/invoice/invoice.go:169-172 | sets status and update time, from any status |
| Float64.RoundIsFloat | internal/application/invoice/issue_invoice.go:177-178 | the rounding used for float64 conversion yields a binary64 value within half a last place |
| Float64.RoundIsNearest | internal/application/invoice/issue_invoice.go:177-178 | no binary64 value is nearer, and ties go to the even significand |
| Float64.RelativeError | internal/application/invoice/issue_invoice.go:178 | its relative error is at most 2^-53 |
| Float64.ConversionsAreNearest | internal/application/invoice/issue_invoice.go:177-178 | every non-negative 64-bit quantity converts to a nearest binary64 value, and every price in cents to a nearest one to the hundredth of its conversion |
| Float64.SmallIntegersExact | internal/application/invoice/issue_invoice.go:177 | quantities and cents below 2^53 convert exactly |
| Float64.HundredthError | internal/application/invoice/issue_invoice.go:178 | a unit price below 2^53 cents is sent with a relative error of at most 24/25 of 2^-53 |
| Float64.UnitPriceRecoverable | internal/application/invoice/issue_invoice.go:178 | a unit price of at most 100 * 2^46 cents is the nearest cent to the float that is sent |
| Float64.PricesReadableExactly | internal/application/invoice/issue_invoice.go:178 | all unit prices up to a limit can be read back from their floats if and only if the limit is at most 100 * 2^46 cents |
| Float64.PricesDistinctExactly | internal/application/invoice/issue_invoice.go:178 | all unit prices up to a limit are sent as different floats if and only if the limit is at most 100 * 2^46 + 1 cents |
| Vouchers.BuildVoucherRequest | internal/application/invoice/issue_invoice.go:163-198 | the loop builds one request item per invoice item in order, with the document and invoice type codes; the voucher number has no influence |
| Vouchers.ObservationsFromARCA | internal/application/invoice/issue_invoice.go:218-224 | the messages of the observations, in order |
| Vouchers.LineError | internal/application/invoice/issue_invoice.go:174-182 | quantity times unit price of a request line is within a relative 24/25 of 2^-53 of the line's cents |
| Vouchers.TotalError | internal/application/invoice/issue_invoice.go:174-182 | so is the exact sum over all request lines |
| Vouchers.VoucherTotalIsSubtotal | internal/application/invoice/issue_invoice.go:174-182 | for every item list whose exact subtotal is below 25/24 of 2^52 cents, the amounts sent to ARCA add up to an amount whose nearest cent is the invoice's subtotal |
| Vouchers.LargeTotalFails | internal/application/invoice/issue_invoice.go:174-182 | a single line one part in 28 million above that limit is sent as an amount one cent below the subtotal |
| Vouchers.DistinctPricesDistinct | internal/application/invoice/issue_invoice.go:178 | two items with prices of at most 100 * 2^46 + 1 cents are sent with the same unit price if and only if their prices are equal |
| Persistence.InvoiceRepository.Create | internal/infrastructure/postgres/repositories.go:250-282 | all or nothing: the invoice row and one row per item exactly when every statement, every constraint and the commit succeed, else no change; the error is that of the first statement that fails, or what the commit reported |
| Persistence.ReportedError | internal/infrastructure/postgres/repositories.go:250-282 | what a transaction reports, by what stopped it first, and nothing exactly when it commits and is acknowledged |
| Persistence.InvoiceRepository.InsertItems | internal/infrastructure/postgres/repositories.go:273-279 | the insert loop ends well if and only if every item passes its checks under an unused identifier and no statement fails |
| Persistence.ItemsAdded | internal/infrastructure/postgres/repositories.go:273-279 | the loop adds exactly one row per item under its identifier and leaves every other row alone |
| Persistence.CommittedInvoice | migrations/001_initial_schema.sql:56-92 | a committed invoice's row holds the invoice's columns and its item rows, exactly one per item, the items' columns; every item row still has its invoice, other rows are untouched, and the stored line totals add up in 64 bits to the stored subtotal |
| Persistence.CommittedRowBalances | internal/infrastructure/postgres/repositories.go:257-279 | the stored row of an invoice that the workflow built belongs to the request's customer, has no tax, and its total and subtotal equal the sum of its stored line totals |
| Persistence.CommitsExactly | migrations/001_initial_schema.sql:56-92 | the transaction commits if and only if the insertion is acceptable to the store that IssueInvoice works with, the column ranges hold, no statement fails and, for a missing key, the customer has no other invoice without one |
| Persistence.SecondUnkeyedIsRefused | migrations/001_initial_schema.sql:81 | a customer's second invoice without a key never commits and its error is reported |
| Persistence.RefinesCreate | internal/infrastructure/postgres/repositories.go:250-282 | whatever fails in the transaction, some outcome of the Create that IssueInvoice works with, the commit's own when it commits, leaves a store that the tables represent, items included, and reports an error exactly when the transaction does |
| InvoiceHandler.Handle | internal/interfaces/http/handlers/invoice.go:20-89 | unauthorized, bad request, or the reply to what one IssueInvoice call returns, with exactly that call's effect |
| InvoiceHandler.Describe | internal/interfaces/http/handlers/invoice.go:59-84 | the response carries the invoice's fields and its items in order, and ARCA's fields when there are any |
| InvoiceHandler.AmountsConserved | internal/interfaces/http/handlers/invoice.go:45-73 | in every run, a successful response's line totals add up in 64 bits to its subtotal and to its total, with no tax, and for a new invoice the lines are the request's items one for one |
| InvoiceHandler.InputIsRequest | internal/interfaces/http/handlers/invoice.go:35-51 | the workflow gets the caller as customer, the header as key, and the body's type, point of sale and items |
| InvoiceHandler.ResponseTellsTheInvoice | internal/interfaces/http/handlers/invoice.go:59-84 | in every run, a successful response reports, field by field, an invoice stored for the caller under the given key; a new one has the requested type and point of sale and ARCA's CAE, expiry, voucher number and type |
| Cuit.ValidateChecksum | internal/domain/customer/customer.go:108-122 | the loop accepts exactly the digits whose last one is the check digit of the weighted sum |
| Cuit.IsValid | internal/domain/customer/customer.go:101-106 | any text is accepted exactly when it is eleven digits with the right check digit |
| Cuit.AcceptsAsCode | internal/domain/customer/customer.go:114-121 | acceptance as a linear code: the sum with weight 1 on the last digit is 0 modulo 11, or 10 with a last digit 9 |
| Cuit.AcceptsExactly | internal/domain/customer/customer.go:101-122 | acceptance in the characters themselves: eleven digits whose sum under 5, 4, 3, 2, 7, 6, 5, 4, 3, 2, 1 is 0 modulo 11, or 10 with a last digit 9 |
| Cuit.WeightRule | internal/domain/customer/customer.go:109 | from the right, the weights run from 2 to 7 and start over |
| Cuit.CheckDigitIsUnique | internal/domain/customer/customer.go:114-121 | ten digits have at most one accepted check digit |
| Cuit.SingleDigitError | internal/domain/customer/customer.go:108-122 | changing one of the first ten digits of an accepted CUIT is missed if and only if the remainder moves between 1 and 2 |
| Cuit.CheckDigitError | internal/domain/customer/customer.go:121 | a wrong check digit is always caught |
| Cuit.SingleDigitErrorCaught | internal/domain/customer/customer.go:108-122 | unless the check digit is 9, every change of one digit is caught |
| Cuit.Transposition | internal/domain/customer/customer.go:108-122 | swapping any two unequal digits of the first ten is missed if and only if they are six places apart or the remainder moves between 1 and 2 |
| Cuit.AdjacentTranspositionCaught | internal/domain/customer/customer.go:108-122 | swapping unequal neighbours is always caught when the check digit, before and after, is not 9, the check digit's own place included |
| Cuit.SixApartNeverNoticed | internal/domain/customer/customer.go:109 | swapping digits six places apart never changes the verdict |
| ApiKeys.ParseAfterGenerate | internal/domain/apikey/apikey.go:43-55 | parsing a generated key gives back its prefix and suffix |
| ApiKeys.ParsesExactly | internal/domain/apikey/apikey.go:129-137 | a raw key parses if and only if it starts with one of the two prefixes, and the parts make up the key |
| ApiKeys.GenerateInjective | internal/domain/apikey/apikey.go:48-54 | different prefixes or random bytes give different raw keys |
| ApiKeys.HexDecodes | internal/domain/apikey/apikey.go:53 | the suffix is lower-case hexadecimal and decodes to the random bytes |
| ApiKeys.HexInjective | internal/domain/apikey/apikey.go:53 | the hexadecimal text determines the bytes |
| ApiKeys.NewKeyFits | internal/domain/apikey/apikey.go:63-94 | a new record carries the hash, prefix and last four characters that parsing its raw key leads back to, and is not revoked |
| ApiKeys.MadeAsRequested | internal/domain/apikey/apikey.go:63-94 | when a key is made, exactly, and that its record holds the request's owner, name, prefix, scopes and expiry second, or none, with the raw key's hash and last four characters |
| ApiKeys.EachRefusal | internal/application/authentication/service.go:32-58 | what every validation comes to: unknown format, too short, failing store, no such record, or by one matching record revoked, expired, invalid or valid, in that order |
| ApiKeys.EachReply | internal/application/authentication/service.go:60-100 | what every creation and revocation is told, with the code of each failure |
| ApiKeys.APIKey.Revoke | internal/domain/apikey/apikey.go:111-115 | sets the revocation and update times and nothing else |
| ApiKeys.APIKeyStore.GetByPrefixAndSuffix | internal/infrastructure/postgres/repositories.go:109-125 | some row with that prefix and last four characters if there is one, else not found |
| ApiKeys.APIKeyStore.GetByID | internal/infrastructure/postgres/repositories.go:127-143 | the row, not found, or the store's fault |
| ApiKeys.APIKeyStore.Create | internal/infrastructure/postgres/repositories.go:95-107 | inserts unless the primary key refuses or the write does not take effect, and reports a database error in those cases and when the acknowledgement is lost |
| ApiKeys.APIKeyStore.Update | internal/infrastructure/postgres/repositories.go:167-180 | writes name, scopes, expiry and revocation of an existing row, never hash, prefix or owner |
| ApiKeys.Service.ValidateAPIKey | internal/application/authentication/service.go:32-58 | its answer is one that parsing, some matching row and that row's validation allow |
| ApiKeys.Service.CreateAPIKey | internal/application/authentication/service.go:60-77 | hands out a raw key if and only if its record was stored and acknowledged, and otherwise a validation or database error around its cause |
| ApiKeys.Service.RevokeAPIKey | internal/application/authentication/service.go:87-100 | reports no error if and only if the key was found and its update acknowledged, and otherwise a not-found or database error around its cause |
| ApiKeyRuns.RunIsFaithful | internal/application/authentication/service.go:60-77 | over every run each stored record fits the raw key it was created with |
| ApiKeyRuns.KeysPersist | internal/infrastructure/postgres/repositories.go:167-180 | over every run a stored key keeps its raw key and everything but its revocation and update times, and is never un-revoked |
| ApiKeyRuns.HandedOut | internal/application/authentication/service.go:60-77 | a raw key that was handed out belongs, for the rest of the run, to a record with the owner, name, scopes, creation time and expiry its creation asked for |
| ApiKeyRuns.NeverAfterRequestedExpiry | internal/application/authentication/service.go:61-65 | a raw key handed out with an expiry is never accepted after that second |
| ApiKeyRuns.AcceptedUpToRequestedExpiry | internal/application/authentication/service.go:32-77 | while unrevoked and alone with its suffix, a handed-out raw key is accepted, as its own record, if and only if no requested expiry has passed |
| ApiKeyRuns.ValidMeansOwnRow | internal/domain/apikey/apikey.go:96-109 | in any store whose records fit their raw keys, a raw key that validates gives its own record, neither revoked nor expired |
| ApiKeyRuns.ValidationIsSound | internal/application/authentication/service.go:32-58 | in every run, every successful validation returns the stored record created with that raw key |
| ApiKeyRuns.RevokedForGood | internal/application/authentication/service.go:87-100 | once a revocation was reported done, its raw key never validates again, whatever other keys share its last four characters |
| ApiKeyRuns.ExpiredForGood | internal/domain/apikey/apikey.go:100-102 | once a key's expiry has passed, its raw key never validates again |
| ApiKeyRuns.AuthenticatesExactly | internal/application/authentication/service.go:38-57 | an issued, unrevoked, unexpired raw key is sure to validate to its own record if and only if no other stored key shares its prefix and last four characters |

## Left out

- Consecutive voucher numbers: the next number is computed and never sent, so nothing about it holds.
- SQL text and column scans: stores are modelled as maps of values with the schema's key constraints, so lossy columns
  (ARCA's fields are not written or read back) and mismatched argument counts do not appear.
- VARCHAR widths, the fixed length of an item's creation time and the foreign key to the users table.
- Hashing, HMAC, random bytes, JSON, date formatting and parsing: parameters of the model.
- Time: instants are unbounded integers, and the clock readings within one call are collapsed to one before and one
  after the external call; a store's own update of the update time is not a separate reading.
- Float64.RoundIsNearest: only amounts that are 0 or between 2^-7 and 2^64 are rounded, which covers every conversion
  here; negative values, overflow and subnormals do not occur.
- Issuance.InvoiceStore.Create: a missing key is not indexed here, as the workflow assumes; the schema, which indexes it,
  can refuse more, and `Persistence.RefinesCreate` shows each such refusal to be one of this Create's outcomes.
- Vouchers.VoucherTotalIsSubtotal: between 25/24 of 2^52 cents and `Vouchers.LargeTotalFails`, one part in 28 million,
  which totals arrive exactly is not determined.
- Issuance.InvoiceStore.GetByIdempotencyKey: a failing read always carries the code `database_error`.
- Persistence.InvoiceRepository.Create: errors are one of the coded messages without the driver's own cause.
- ApiKeys.Service.ValidateAPIKey: a suffix shorter than four characters, where the program's slice would panic, is the outcome `Panicked`.
- ApiKeys.Service.CreateAPIKey: the random source delivers 32 bytes or an error, as the program's buffer guarantees.
- Aliasing: a returned invoice or record is a value and not the object that the store may share.
- Composing Process around IssueInvoice: described in the documentation, not wired in the program.
- Panics and cancellation inside handlers and collaborators.
- Guarded invoice transitions: the Mark methods do not look at the current status, so none are claimed.
- Listing and masking of API keys, generation of identifiers, parsing of other enumerations, e-mail and customer fields,
  construction of credentials, HTTP routing, middleware, configuration and health checks: easy or plumbing.
