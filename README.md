# kredit-plus: credit-limit ledger and contract issuance, modelled in Dafny

kredit-plus is a consumer-financing back end. Each customer holds credit limits, one per tenor (1, 2, 3 or 6 months). A limit row records
`limitAmount` and `usedAmount`, the part of the limit committed to contracts. Issuing a contract for an asset
checks the request and looks up the customer, the asset and the limit row. It then prices the contract at a flat
rate, stores the contract with its monthly installment schedule, and commits the credit limit. Around this
ledger sit the following:

- the request validators, which return ordered lists of messages;
- the customer store, which has a unique NIK, soft deletion, and at most one document of each type per customer;
- the asset catalogue, whose delete is refused while a contract finances the asset;
- paginated listings;
- the cache-key builders.

The model is organised as the program is:

| Dafny module | file | Go package |
|---|---|---|
| `Common`, `Clock`, `Paging`, `Messages`, `Errors` | `common.dfy`, `clock.dfy`, `paging.dfy`, `messages.dfy`, `errors.dfy` | shared values: ids, 64-bit `int` wrap-around, instants, LIMIT/OFFSET, the validator pattern, error values |
| `CreditLimitEntity`, `TransactionEntity`, `CustomerEntity` | `entity_*.dfy` | `internal/entity` |
| `CreditLimitRepository`, `TransactionRepository`, `CustomerRepository`, `AssetRepository` | `repository_*.dfy` | `internal/repository` |
| `CreditLimitService`, `TransactionService`, `CustomerService` | `service_*.dfy` | `internal/service` |
| `CacheKey` | `cache_key.dfy` | `cacher` |

**Repositories.** Each repository is a class over its tables:

- the credit-limit table is a `map` keyed by id;
- contracts, installment rows, documents and assets are `seq`s in insertion order;
- customers are a `map`.

Each repository method is one database transaction, so it is one atomic step. Its `modifies` clause names the
tables it writes, and its `ensures` give the whole new state. The transaction store holds a reference to the
credit-limit store of the same database, because issuing a contract writes both. The asset store holds a
reference to the transaction store, because deleting an asset reads the contracts.

**Services.** The services are classes over the repositories.

- For contract creation, the four lookups that the code runs concurrently become four input values of type `Fetch`.
  A `Fetch` is either an error, nil, or a row.
- Fresh uuids and the clock are parameters. Amounts are exact `real`s.
- gorm's `First` orders by the primary key and returns the matching row with the smallest id. On a non-key
  column the model returns some matching row instead. That covers the row gorm picks, but promises less when
  several rows match (see "## Left out").
- Go's `int` is 64 bits wide. The page offsets `(page - 1) * perPage` wrap as Go's arithmetic does (`WrapInt`).
  An offset that wraps negative is refused by the document store, and the contract listing, which emits no OFFSET
  for it, returns the first rows.
- `ORDER BY created_at DESC` is the reverse of insertion order.

**Issuance follows the code as written.** The repository step charges `OTRAmount`, and the service then charges
`totalAmount` in a second, separate step.

- On full success, `used` grows by `OTRAmount + totalAmount`.
- If the second step fails, the contract stays stored.

Take a limit of 100000 with nothing used, and a contract with price 90000, fee 5000, rate 2 % and a one-month
tenor. Its total is 96800, which passes the pre-check. An all-or-nothing issuance would succeed and commit 96800.
The code instead stores the contract, commits 90000 and returns an error; the model follows the code. The corrected single charge of the total is modelled
beside it and proved (see "## Findings").

Proved across all operations:

- Every path through the credit-limit service and the issuance steps keeps `used <= limit`, because each charge
  is check-then-increment. The credit-limit service also keeps `0 <= used`. Issuance keeps `0 <= used` when the
  asset's price is not negative, because the fee and the rate are then non-negative too.
- Each validator returns an empty list exactly when every check passes.
- Each validator reports a message exactly when its check fails, and in check order.
- The installment schedule has one entry per month of the tenor. Entry `i` is number `i + 1`, due `i + 1` months
  after issuance, and the entries repay the contract's total exactly.
- Paginated listings count before paging, and return selected rows only, newest first, at most `limit` of them.
  The service listings return exactly the responses of the repository's page.
  Two consecutive pages neither overlap nor skip a row.
- Every cache key reads back as the object it was built for, so no two objects share a key.

## Model

| member | source | states |
|---|---|---|
| Common.WrapInt | internal/entity/transaction.go:204 | The result lies in Go's 64-bit `int` range and differs from the exact value by a multiple of 2^64. A value already in range is unchanged. |
| Messages.CollectEmpty | internal/entity/credit_limit.go:62-81 | A validator that appends the message of each failing check returns an empty list exactly when no check fails. |
| Messages.CollectHas | internal/entity/credit_limit.go:62-81 | When the checks carry distinct messages, a check's message is in the result exactly when that check fails. |
| Messages.CollectLacks | internal/entity/customer.go:172-196 | A message that no check carries is never reported. |
| Messages.CollectOrdered | internal/entity/credit_limit.go:62-81 | The reported messages keep the order of the checks: they form a subsequence of the check list's messages. |
| Messages.WhenStep | internal/entity/customer.go:143-147 | Putting one more check in front keeps the reported messages in check order. |
| Messages.DistinctByMessages | internal/entity/credit_limit.go:62-81 | Checks whose message list has no repeats carry pairwise distinct messages. |
| Messages.ParseFormat | internal/entity/credit_limit.go:83-85 | Splitting the text `code + ": " + message` at its first colon gives back the code and the message, when the code holds no colon. |
| CreditLimitEntity.CreateChecksMessages | internal/entity/credit_limit.go:62-81 | The three checks carry three distinct messages, in the order the source tests them. |
| CreditLimitEntity.CreateChecksCollect | internal/entity/credit_limit.go:62-81 | The list is empty iff the request is acceptable. Each of "customer_id is required", the tenor message and "limit_amount must be greater than 0" appears iff its condition holds. |
| CreditLimitEntity.Validate | internal/entity/credit_limit.go:62-81 | The list is empty iff the customer id is not nil, the tenor is in {1,2,3,6} and the limit is > 0. Each message appears iff its check fails, and the messages come in check order. |
| CreditLimitEntity.CreditLimitError.Error | internal/entity/credit_limit.go:83-85 | The text is `code`, then `": "`, then `message`, and it parses back into both parts. |
| CreditLimitEntity.SentinelCodesDistinct | internal/entity/credit_limit.go:87-92 | The four sentinel credit-limit errors have pairwise distinct codes. |
| TransactionEntity.IsValidStatus | internal/entity/transaction.go:128-136 | A contract status is valid exactly for pending, active and completed. |
| TransactionEntity.IsValidDetailStatus | internal/entity/transaction.go:138-146 | An installment status is valid exactly for pending, paid and overdue. |
| TransactionEntity.CreateChecksMessages | internal/entity/transaction.go:148-179 | The six checks carry six distinct messages, in source order. |
| TransactionEntity.CreateChecksCollect | internal/entity/transaction.go:148-179 | The list is empty iff the request is acceptable, and each message appears iff its check fails. |
| TransactionEntity.Validate | internal/entity/transaction.go:148-179 | The list is empty iff the customer and asset ids are non-nil, the tenor is in {1,2,3,6}, the fee is >= 0, the rate is in [0,100] and the contract number is non-empty. Each message appears iff its check fails, in check order. The request is only read, so the contract number is never altered. |
| TransactionEntity.FilterChecksMessages | internal/entity/transaction.go:181-198 | The four filter checks carry distinct messages, in source order. |
| TransactionEntity.FilterChecksCollect | internal/entity/transaction.go:181-198 | The list is empty iff the filter is acceptable, and each message appears iff its check fails. |
| TransactionEntity.ValidateFilter | internal/entity/transaction.go:181-198 | The four messages are exactly these conditions: page < 1, per_page < 1, per_page > 100, and a non-empty invalid status. The list is empty iff none holds, and the messages come in check order. |
| TransactionEntity.ToTransactionFilterRepo | internal/entity/transaction.go:200-206 | The status is kept and limit = perPage. The offset is `(page-1)*perPage` wrapped to 64 bits. While that product fits, offset + limit = page * perPage, so page `p` starts where page `p-1` ends, and for an acceptable filter the offset is >= 0. For an acceptable filter the limit is in 1..100. |
| TransactionEntity.LargePageWrapsNegative | internal/entity/transaction.go:181-206 | Page 92233720368547760 of 100 passes validation, and its offset wraps negative. |
| TransactionEntity.LargePageWrapsToStart | internal/entity/transaction.go:181-206 | Page 2^58 + 1 of 64 passes validation, and its offset wraps to 0, the first page. |
| TransactionEntity.TransactionError.Error | internal/entity/transaction.go:214-216 | The text is `code + ": " + message`, and it parses back into both parts. |
| CustomerEntity.IsValidDocumentType | internal/entity/customer.go:134-141 | A document type is valid exactly for "ktp" and "selfie". |
| CustomerEntity.ProfileChecksMessages | internal/entity/customer.go:172-196 | The seven profile checks carry distinct messages, in source order. |
| CustomerEntity.ProfileChecksEmpty | internal/entity/customer.go:172-196 | No profile message is reported iff every profile field is acceptable. |
| CustomerEntity.ProfileChecksNames | internal/entity/customer.go:174-185 | Each name's "required" message appears iff the name is empty. Its length message appears iff the name is over 100 characters. |
| CustomerEntity.ProfileChecksRest | internal/entity/customer.go:186-194 | The birth place, birth date and salary messages appear iff their checks fail, and the NIK message never appears. |
| CustomerEntity.ValidateUpdate | internal/entity/customer.go:172-196 | The update list is empty iff the profile is acceptable. Each message appears iff its check fails, in check order, and the NIK message never appears. |
| CustomerEntity.ValidateCreate | internal/entity/customer.go:143-170 | The create list is empty iff the NIK has length 16 and the profile is acceptable. The NIK message appears iff the length is not 16. Every profile message appears iff it appears in the update validator's list for the same fields, so the checks are the same minus the NIK. |
| CustomerEntity.UploadChecksMessages | internal/entity/customer.go:198-210 | The three upload checks carry distinct messages, in source order. |
| CustomerEntity.UploadChecksCollect | internal/entity/customer.go:198-210 | The list is empty iff the type is valid and the URL length is in [10,255], and each message appears iff its check fails. |
| CustomerEntity.ValidateUpload | internal/entity/customer.go:198-210 | The same as `UploadChecksCollect`, in check order. An empty URL draws both the "required" and the length message. |
| CustomerEntity.FilterChecksMessages | internal/entity/customer.go:212-227 | The four document-filter checks carry distinct messages, in source order. |
| CustomerEntity.FilterChecksCollect | internal/entity/customer.go:212-227 | The list is empty iff page >= 1, perPage is in [1,100] and a given type is valid. Each message appears iff its check fails. |
| CustomerEntity.ValidateFilter | internal/entity/customer.go:212-227 | The same as `FilterChecksCollect`, in check order. |
| CustomerEntity.ToDocumentFilterRepo | internal/entity/customer.go:229-236 | The customer id and type are kept and limit = perPage. The offset is `(page-1)*perPage` wrapped to 64 bits. While that product fits, offset + limit = page * perPage, and for an acceptable filter the offset is >= 0. For an acceptable filter the limit is in 1..100. |
| CustomerEntity.LargePageWrapsNegative | internal/entity/customer.go:212-236 | Page 92233720368547760 of 100 passes validation, and its offset wraps negative. |
| Clock.AddMonth | internal/repository/transaction.go:224 | `AddDate(0, 1, 0)` lands exactly one calendar month later, with a month in 1..12, on the same day and time. |
| Clock.AddMonthsIndex | internal/repository/transaction.go:221-224 | Advancing one month at a time `n` times lands exactly `n` months later, on the same day and time. |
| Paging.Filter | internal/repository/customer.go:280-286 | A WHERE clause keeps exactly the rows that satisfy it, never more rows than the table has. |
| Paging.Newest | internal/repository/customer.go:282 | Newest first is the insertion order reversed, with the same length. |
| Paging.Page | internal/repository/customer.go:305-308 | LIMIT/OFFSET returns the rows from offset `max(offset, 0)` onwards, and at most `limit` of them when `limit >= 0`. Its length is exactly what is left, capped by the limit. |
| Paging.PageOfNewest | internal/repository/transaction.go:169-175 | A page of the newest-first rows holds only rows of the table, and no more of them than the table has. |
| Paging.ConsecutivePages | internal/entity/transaction.go:200-206 | With offset `(p-1)*n`, page `p` followed by page `p+1` is exactly the window of `2n` rows starting at page `p`: pages never overlap and never skip a row. |
| CreditLimitRepository.Charge | internal/repository/credit_limit.go:137-152 | The check-then-increment succeeds iff the row exists and `used + amount <= limit`. It then keeps the row set, leaves every other row alone and leaves `used <= limit` on the charged row. |
| CreditLimitRepository.ChargePreserves | internal/repository/credit_limit.go:146-152 | A successful charge changes only the charged row's `usedAmount`, by exactly `amount`. It keeps rows keyed by id, `used <= limit` on every row, and the (customer, tenor) pairs unique. It keeps `used >= 0` unless the amount takes it below zero. |
| CreditLimitRepository.ChargeTwice | internal/repository/credit_limit.go:146-152 | Two charges of one row both succeed iff `used + a + b <= limit`, and they then equal one charge of `a + b`. |
| CreditLimitRepository.InsertByTenor | internal/repository/credit_limit.go:111-114 | Inserting a row into the listing adds exactly that row, as a multiset. |
| CreditLimitRepository.InsertKeepsSorted | internal/repository/credit_limit.go:113 | Inserting into a list sorted ascending by tenor keeps it sorted. |
| CreditLimitRepository.SortedCons | internal/repository/credit_limit.go:113 | A row whose tenor is no larger than any tenor of a sorted list can go in front of it. |
| CreditLimitRepository.ListsInsert | internal/repository/credit_limit.go:110-114 | Inserting the row of one more id keeps the listing exactly the rows of the listed ids, each once. |
| CreditLimitRepository.CreditLimitRepo.Create | internal/repository/credit_limit.go:28-51 | An insert adds the row under its id. A taken id is refused and nothing changes. |
| CreditLimitRepository.CreditLimitRepo.GetByID | internal/repository/credit_limit.go:53-73 | The row with that id, or nil iff there is none. |
| CreditLimitRepository.CreditLimitRepo.GetByCustomerIDAndTenor | internal/repository/credit_limit.go:75-101 | Nil iff no row matches the pair; otherwise a matching row of the table, and the only one when pairs are unique. |
| CreditLimitRepository.CreditLimitRepo.GetAllByCustomerID | internal/repository/credit_limit.go:103-123 | Exactly the customer's rows, each once, ascending by tenor. |
| CreditLimitRepository.CreditLimitRepo.UpdateUsedAmount | internal/repository/credit_limit.go:125-162 | Succeeds iff the row exists and `used + amount <= limit`, and then adds `amount` to `used`. A missing row is "failed to get credit limit for update". Over the limit is "insufficient credit limit" with the available and requested amounts. A refusal changes nothing. |
| CreditLimitRepository.CreditLimitRepo.Delete | internal/repository/credit_limit.go:164-199 | A missing row is "credit limit not found", and a row with `used > 0` is "in use"; both change nothing. Otherwise exactly that row is removed. |
| CreditLimitService.Service.Create | internal/service/credit_limit.go:25-64 | A validation failure or an existing (customer, tenor) limit inserts nothing. Success inserts the request's row with `used = 0` under the fresh id. Creation keeps the pairs unique, `used <= limit` and `used >= 0`. |
| CreditLimitService.Service.GetByID | internal/service/credit_limit.go:66-81 | The row, or `ErrCreditLimitNotFound` iff there is none. |
| CreditLimitService.Service.GetByCustomerIDAndTenor | internal/service/credit_limit.go:83-108 | A tenor outside {1,2,3,6} is refused before any lookup. Otherwise the result is a matching row, or `ErrCreditLimitNotFound` iff there is none. |
| CreditLimitService.Service.GetAllByCustomerID | internal/service/credit_limit.go:110-126 | Every limit of the customer, once each, ascending by tenor. A customer without limits gets an empty list. |
| CreditLimitService.Service.Delete | internal/service/credit_limit.go:128-155 | A missing row gives `ErrCreditLimitNotFound` and `used > 0` gives `ErrCreditLimitInUse`; both leave the table unchanged. Otherwise exactly that row is removed. |
| CreditLimitService.Service.UpdateUsedAmount | internal/service/credit_limit.go:157-197 | Zero is a no-op and a missing row is `ErrCreditLimitNotFound`. A release below zero is refused with "negative used amount", and a charge beyond the limit with `ErrInsufficientCreditLimit`. Success is exactly the store's charge. Every outcome keeps `0 <= used <= limit` on every row. |
| TransactionRepository.GenerateInstallments | internal/repository/transaction.go:218-238 | Exactly `TenorMonth` entries. Entry `i` has number `i+1`, the contract's id, the installment amount and status pending. It is due `i+1` one-month steps after the start. |
| TransactionRepository.ScheduleFacts | internal/repository/transaction.go:218-238 | Each entry is due one month after the previous one, and the first one month after the start. Entries are numbered 1..tenor, and together they repay `installment * tenor`. |
| TransactionRepository.TotalOfEqual | internal/repository/transaction.go:225-233 | `n` equal installments add up to `n` times the installment. |
| TransactionRepository.TransactionRepo.Create | internal/repository/transaction.go:29-86 | Any failure writes nothing. No limit row for the (customer, tenor) pair gives "failed to get credit limit". With a unique matching row, `used + OTRAmount > limit` gives "insufficient credit limit". When every matching row has room: a taken contract id gives "failed to create transaction", a zero tenor gives the empty-slice error of the schedule insert, and otherwise the step succeeds. Success appends the contract and its `TenorMonth`-entry schedule, and charges a matching row by exactly `OTRAmount`. With a non-negative `OTRAmount`, `used >= 0` is kept. |
| TransactionRepository.TransactionRepo.GetByID | internal/repository/transaction.go:88-112 | Nil iff no contract has that id; otherwise that contract, with one of its installment rows preloaded. |
| TransactionRepository.TransactionRepo.GetByContractNumber | internal/repository/transaction.go:114-138 | Nil iff no contract has that number; otherwise such a contract, with one of its installment rows preloaded. |
| TransactionRepository.TransactionRepo.DetailOf | internal/repository/transaction.go:97 | The has-one preload: an installment row of the contract, or nil iff it has none. |
| TransactionRepository.TransactionRepo.GetAllByCustomerID | internal/repository/transaction.go:140-184 | The count is the number of the customer's contracts, narrowed to the status when one is given, taken before paging. The page is the LIMIT/OFFSET window of them, newest first, each with its preloaded installment row. |
| TransactionRepository.TransactionRepo.LoadDetails | internal/repository/transaction.go:170 | Preloading keeps the listed contracts and their order, and attaches each one's installment row. |
| TransactionRepository.TransactionRepo.UpdateStatus | internal/repository/transaction.go:186-216 | A missing id is "failed to get transaction" and changes nothing. Otherwise only that contract's status changes. |
| TransactionRepository.CustomerContracts | internal/repository/transaction.go:155-159 | Exactly the contracts of the customer, narrowed to the status when it is non-empty. |
| TransactionService.Price | internal/service/transaction.go:159-161 | interest = price * rate * tenor / 100 and total = price + fee + interest. The installment times the tenor is exactly the total. |
| TransactionService.PriceBounds | internal/service/transaction.go:159-161 | For an accepted fee and rate, 0 <= interest <= price * tenor, and the total is at least the price. |
| TransactionService.Admit | internal/service/transaction.go:38-180 | The decision chain succeeds iff every check passes. The first failing check decides the error, in this order: validation, the contract lookup, duplicate contract, the customer (error, missing, inactive), the asset, the limit, then the pre-check `total > limit - used`. Success builds the pending contract with `OTRAmount` = the asset price and the request's fee, tenor and number. |
| TransactionService.ScheduleRepaysTotal | internal/service/transaction.go:159-180 | The schedule generated for an admitted contract repays exactly its priced total. |
| TransactionService.IssueAsWritten | internal/service/transaction.go:182-196 | As written, the contract is stored iff the repository's OTR charge succeeds. Success then also needs the second charge of the total. A failed second charge leaves the contract stored with only the OTR committed. `used <= limit` is kept. With a non-negative OTR amount and total, `used >= 0` is kept. |
| TransactionService.AsWrittenChargesTwice | internal/service/transaction.go:190-196 | As written, a fully successful issuance against one row raises `used` by `OTRAmount + totalAmount`. |
| TransactionService.ExampleRows | internal/service/transaction.go:163-165 | A table of one row with a limit of 100000 and nothing committed. It is keyed, bounded, non-negative and has unique pairs. |
| TransactionService.AsWrittenStoresThenFails | internal/service/transaction.go:159-196 | With price 90000, fee 5000, rate 2 and tenor 1, the total is 96800, which passes the pre-check. As written, the contract is stored, the service reports failure and used = 90000. |
| TransactionService.IssueCorrected | internal/service/transaction.go:182-196 | Corrected issuance is one atomic step: the contract is stored iff it succeeds, iff `used + total <= limit`. Failure changes nothing. |
| TransactionService.CorrectedChargesTotal | internal/service/transaction.go:182-196 | The corrected step raises the row's `used` by exactly the total and leaves other rows alone. It keeps `used <= limit`, `used >= 0` and unique pairs. |
| TransactionService.CorrectedPrecheckSound | internal/service/transaction.go:163-165 | With the corrected step, a contract that passes the pre-check against the current row is issued. |
| TransactionService.CorrectedIssuesExample | internal/service/transaction.go:159-196 | With price 90000, fee 5000, rate 2 and tenor 1, the corrected step issues the contract and commits exactly its total, 96800. |
| TransactionService.ToResponse | internal/service/transaction.go:338-351 | The response carries the contract and at most one installment: the preloaded row, present exactly when one was loaded. |
| TransactionService.ToResponses | internal/service/transaction.go:258-261 | One response per contract of the page, in page order. |
| TransactionService.Service.Create | internal/service/transaction.go:38-208 | A failed decision chain returns its error and writes nothing: contracts, installment rows and limits are unchanged. An admitted contract is always stored when its limit row has room and its id is fresh. Otherwise the stores end in the state `IssueAsWritten` gives. Either the contract is not stored and nothing changes, or the contract is appended with its schedule of installment rows after the existing rows, `used` follows the two charges, and success is exactly the second charge succeeding. `used <= limit` is kept. When the asset's price is not negative, `used >= 0` is kept. Success returns the stored contract with its one installment row. |
| TransactionService.Service.Issue | internal/service/transaction.go:182-207 | The repository step, then the second charge of the total: the new state of both stores is as `IssueAsWritten` gives it. When the contract is not stored, the installment rows and limits are unchanged. When it is stored, its schedule is appended to the installment rows and nothing else in them changes. The repository's errors come back wrapped in "failed to create transaction": no limit row, a taken id, a zero tenor. A contract whose limit row has room, with a fresh id and a tenor > 0, is appended. A failed second charge returns "failed to update credit limit" with the contract kept. With a non-negative OTR amount and total, `used >= 0` is kept. Success returns the stored contract with its one installment row. |
| TransactionService.Service.Store | internal/service/transaction.go:182-188 | The repository step with its error wrapped in "failed to create transaction". A failure changes neither store. No limit row gives the wrapped "failed to get credit limit". When the row has room: a taken id and a zero tenor give their wrapped errors, and otherwise the step succeeds. A failure leaves contracts, installment rows and limits unchanged. Success appends the contract, appends its schedule (TenorMonth rows, as `IsSchedule` describes) after the existing installment rows, and charges a matching row by `OTRAmount`. |
| TransactionService.Service.ChargeTotal | internal/service/transaction.go:190-207 | The second charge succeeds iff the total fits on the fetched row, and then the table is that charge applied. A failure leaves the table alone and returns "failed to update credit limit". Success returns the stored contract with exactly one installment row, and that row is one of the contract's rows in the table. |
| TransactionService.Service.GetByID | internal/service/transaction.go:210-225 | `ErrTransactionNotFound` iff no contract has that id. Otherwise the contract with that id, and one of its installment rows exactly when it has one. |
| TransactionService.Service.GetByContractNumber | internal/service/transaction.go:227-242 | `ErrTransactionNotFound` iff no contract has that number. Otherwise a contract with that number, and one of its installment rows exactly when it has one. |
| TransactionService.Service.GetAllByCustomerID | internal/service/transaction.go:244-264 | An invalid filter returns its messages. Otherwise the count of the customer's matching contracts, and one response per contract of the page at the offset `ToTransactionFilterRepo` computes, length perPage, of the matching contracts newest first. Each response shows its contract and one of its installment rows exactly when it has one. |
| TransactionService.Service.UpdateStatus | internal/service/transaction.go:266-293 | An invalid status gives `ErrInvalidStatus` before any lookup, and a missing id gives `ErrTransactionNotFound`. Otherwise only that contract's status changes. |
| CustomerRepository.DocumentsOf | internal/repository/customer.go:71 | The preloaded documents are exactly the customer's documents. |
| CustomerRepository.OffsetPastEnd | internal/repository/customer.go:296-303 | The early return for `offset >= count > 0` gives exactly the empty page the query would have returned. |
| CustomerRepository.CustomerRepo.Create | internal/repository/customer.go:32-52 | Inserts under the customer's id. A taken id is refused and nothing changes. |
| CustomerRepository.CustomerRepo.GetByID | internal/repository/customer.go:54-93 | Nil without error iff no row has that id; otherwise that row, active or not, with its documents. |
| CustomerRepository.CustomerRepo.GetByNIK | internal/repository/customer.go:95-134 | Nil iff no row has that NIK; otherwise such a row, with its documents. |
| CustomerRepository.CustomerRepo.Update | internal/repository/customer.go:136-172 | `Save` replaces the row filed under that id. |
| CustomerRepository.CustomerRepo.Delete | internal/repository/customer.go:174-219 | A missing id fails. Otherwise this is a soft delete: the row stays with `isActive = false`, and no row disappears. |
| CustomerRepository.CustomerRepo.CreateDocument | internal/repository/customer.go:221-258 | Appends the document. A taken id is refused and nothing changes. |
| CustomerRepository.CustomerRepo.GetDocuments | internal/repository/customer.go:260-317 | A negative limit or offset is refused. The count covers only the customer's documents, narrowed to a given type, and is taken before paging. `offset >= count > 0` returns an empty list with the full count. The page is newest first, at most `limit` long, and holds only selected documents. |
| CustomerService.OnePerTypeAppend | internal/service/customer.go:192-230 | Appending a document of a type its customer does not hold yet keeps at most one document per (customer, type). |
| CustomerService.ToDocumentResponse | internal/service/customer.go:292-301 | The response copies the document's id, customer, type and URL. |
| CustomerService.ToDocumentResponses | internal/service/customer.go:260-263 | One response per document, in order. |
| CustomerService.ToResponse | internal/service/customer.go:268-290 | The customer's fields and one response per loaded document. |
| CustomerService.NewCustomer | internal/service/customer.go:39-50 | A new customer has the fresh id and the request's NIK and profile fields. It is active and stamped with the clock. |
| CustomerService.Updated | internal/service/customer.go:123-128 | Only the five profile fields and `updatedAt` change; the id, NIK, active flag and creation time are kept. |
| CustomerService.Service.Create | internal/service/customer.go:25-61 | Succeeds iff the request validates, the id is free and no customer, active or not, has the NIK. An existing NIK fails and inserts nothing. Success inserts the new active customer. A unique NIK is kept. |
| CustomerService.Service.GetByID | internal/service/customer.go:63-78 | "customer not found" iff absent. Otherwise the row, and one `ToDocumentResponse` per document of the customer, in upload order. |
| CustomerService.Service.GetByNIK | internal/service/customer.go:80-99 | A NIK whose length is not 16 is refused before any lookup. Otherwise the result is a row with that NIK, or "customer not found" iff there is none. A found row comes with one `ToDocumentResponse` per document of that customer, in upload order. |
| CustomerService.Service.Update | internal/service/customer.go:101-139 | Succeeds iff the request validates and the customer exists and is active. Missing and inactive customers fail with their messages. Success changes only that row's profile and `updatedAt`. A unique NIK is kept. The response carries the updated row and one `ToDocumentResponse` per document of the customer, in upload order. |
| CustomerService.Service.Delete | internal/service/customer.go:141-168 | A missing or already inactive customer fails. Otherwise that row is soft-deleted, and every row stays. |
| CustomerService.Service.UploadDocument | internal/service/customer.go:170-231 | Validation comes first, then "customer not found" and the inactive-customer refusal. An existing document of that type for the customer is refused. Success holds iff the request is valid, the customer exists and is active, it has no document of that type, and the new id is free. Success appends exactly the new document. One document per (customer, type) is kept. |
| CustomerService.Service.StoreDocument | internal/service/customer.go:192-230 | An existing document of the type is refused. Success holds iff the customer has no document of that type and the id is free. Success appends the document, and one per (customer, type) is kept. |
| CustomerService.Service.GetDocuments | internal/service/customer.go:233-266 | An invalid filter or a missing customer is refused. An offset that wrapped negative gives the store's pagination error, wrapped in "failed to get documents". Otherwise the customer's matching count, and one `ToDocumentResponse` per document of the page at the offset `ToDocumentFilterRepo` computes, length perPage, of the matching documents newest first. |
| AssetRepository.UsersOf | internal/repository/asset.go:201-202 | Exactly the contracts that finance the asset. |
| AssetRepository.Without | internal/repository/asset.go:214 | The catalogue without that asset's row, and nothing else removed. |
| AssetRepository.DistinctFilter | internal/repository/asset.go:214 | Removing rows keeps the ids distinct. |
| AssetRepository.AssetRepo.Create | internal/repository/asset.go:32-53 | Appends the asset. A taken id is refused and nothing changes. |
| AssetRepository.AssetRepo.GetByID | internal/repository/asset.go:55-93 | Nil without error iff absent; otherwise the asset with that id. |
| AssetRepository.AssetRepo.GetAllWithFilter | internal/repository/asset.go:95-148 | A negative limit or offset is refused. The category filter applies only when the category is non-empty, and a price bound only when it is > 0. The count is taken before paging, and `offset >= count > 0` returns an empty list. The page is newest first, at most `limit` long, and holds only selected assets. |
| AssetRepository.AssetRepo.Update | internal/repository/asset.go:150-179 | `Save` replaces the row with that id, or appends it when there is none. |
| AssetRepository.AssetRepo.Delete | internal/repository/asset.go:181-232 | A missing id is "asset not found". An asset that any contract references stays, with the error giving the count. Otherwise exactly its row goes. |
| CacheKey.SplitJoin | cacher/cache_key.go:8-14 | Splitting `a + ":" + b` at its first colon gives back `a` and `b` when `a` holds no colon. |
| CacheKey.ParseRender | cacher/cache_key.go:20-70 | Every key reads back as the object it was built for. |
| CacheKey.RenderInjective | cacher/cache_key.go:20-70 | Each builder is injective in its argument, and keys of different builders never coincide. The "all" keys of documents, limits and transactions differ in their entity segment. |
| CacheKey.AssetKeyOutsideCache | cacher/cache_key.go:68-70 | The asset key `"asset:" + id` lies outside the `cache:object` namespace. |
| CacheKey.GetMultipleCustomerCacheKeys | cacher/cache_key.go:52-58 | A list as long as `ids`, whose entry `i` is the id key of `ids[i]`. |
| CacheKey.GetMultipleCreditLimitCacheKeys | cacher/cache_key.go:60-66 | A list as long as `ids`, whose entry `i` is `GetCreditLimitCacheKey(ids[i])`. |

## Findings

| source | as written | input that shows it | evidently intended | confidence | as-written member | corrected member |
|---|---|---|---|---|---|---|
| internal/service/transaction.go:182-196 with internal/repository/transaction.go:53-56, 75-82 | The repository's atomic step commits `OTRAmount`, then the service commits `totalAmount` in a second step. A full success commits `OTRAmount + totalAmount`, and a failed second step leaves the contract stored. | Limit 100000 with nothing used, price 90000, fee 5000, rate 2, tenor 1. The total is 96800, which passes the pre-check. The contract is stored and 90000 committed, then the second charge fails (186800 > 100000) and the caller gets an error. | Commit the total once, in the same atomic step that stores the contract. The same contract then succeeds with 96800 committed. | not executed | TransactionService.AsWrittenStoresThenFails | TransactionService.CorrectedIssuesExample |

`TransactionService.IssueAsWritten` and `TransactionService.AsWrittenChargesTwice` state the as-written behaviour
in general. `TransactionService.IssueCorrected`, `TransactionService.CorrectedChargesTotal` and
`TransactionService.CorrectedPrecheckSound` state the corrected behaviour:

- the contract is stored iff the total fits;
- exactly the total is committed;
- the pre-check then decides the outcome.

The store and service methods keep the code's behaviour, because they model the code.

- `TransactionRepository.TransactionRepo.Create` settles its outcome for every input whose limit row is unique.
  No matching row is "failed to get credit limit" and a row without room is the insufficient-limit error. When the
  row has room, a taken id is refused and a zero tenor is refused. Otherwise the contract is stored.
- `TransactionService.Service.Issue` and `TransactionService.Service.Create` pass those outcomes on. When the
  contract is stored, the table ends in the state `IssueAsWritten` describes, and the service reports success
  exactly when `IssueAsWritten` does. An admitted contract whose limit row has room and whose id is fresh is always
  stored.

## Left out

- Redis read-through caching and cache invalidation in the repositories. The key builders are modelled, and
  `createCacheKey` is the identity, so each builder returns its concatenation directly. The cache itself is not,
  so every read in the model returns the current tables, while the source can serve a cached copy. In particular
  `CreateDocument` (internal/repository/customer.go:241-245) invalidates the by-id, documents and document keys but
  not the NIK key. `GetByNIK` (internal/repository/customer.go:102-109) then serves the cached customer. After an
  upload, the source's NIK lookup can return the old document list. CustomerRepository.CustomerRepo.GetByNIK and
  CustomerService.Service.GetByNIK always return the customer's current documents.
- The goroutine fan-out, channels and WaitGroup of contract creation are concurrency. The four lookup results are
  inputs to one sequential step.
- gorm transactions, `SELECT … FOR UPDATE` locking and interleavings: each repository transaction is one atomic
  step.
- float64 arithmetic and `decimal(15,2)` storage: amounts are exact reals, and the `%.2f` rendering of the
  insufficient-limit error is kept as its two numbers.
- Time: `time.Now`, RFC 3339 formatting, and Go's normalisation of days that a month lacks in `AddDate`. Instants
  are parameters, and `AddMonth` moves year and month only.
- The timestamps a store's `autoCreateTime`/`autoUpdateTime` would set on credit limits, contracts, assets and
  documents are not stored. `ORDER BY created_at DESC` in the contract, document and asset listings is modelled as
  reverse insertion order. That assumes strictly increasing stamps. Rows created in the same second come back in
  an order the database chooses, and the model does not capture that.
- Strings are sequences of characters. Go's `len` counts UTF-8 bytes, so the NIK, name and URL length checks
  agree with the source only for ASCII text. Non-ASCII input is not modelled: a 16-character NIK holding `é` is
  17 bytes, which Go refuses and the model accepts.
- Infrastructure failures of the database (lost connection, failed `Count` or `Find`) are not modelled. Their
  error paths are unreachable in the model, except for the four pre-fetches of contract creation, which can be
  errors.
- The Customer and Asset preloads of contract responses and the customer fields of those responses: only the
  installment-row preload is modelled. Preloaded documents are taken to come in upload order, although the
  preload has no `ORDER BY`.
- CreditLimitRepository.CreditLimitRepo.GetByCustomerIDAndTenor (internal/repository/credit_limit.go:86-88),
  TransactionRepository.TransactionRepo.GetByContractNumber (internal/repository/transaction.go:126),
  CustomerRepository.CustomerRepo.GetByNIK (internal/repository/customer.go:111-113) and the limit lookup inside
  TransactionRepository.TransactionRepo.Create (internal/repository/transaction.go:43-45): gorm's `First` returns
  the matching row with the smallest primary key. The model returns some matching row, so when several rows
  match it does not promise which one. The order of uuid keys in the database column is not modelled.
- TransactionEntity.ToTransactionFilterRepo and CustomerEntity.ToDocumentFilterRepo: offset + limit =
  page * perPage and a non-negative offset for an acceptable filter are promised only while `(page - 1) * perPage`
  fits in Go's 64-bit `int`. Validation bounds the page only from below, and beyond that the offset wraps.
  Request fields are unbounded integers; for page and per-page values that fit in 64 bits, as Go's always do,
  the wrapped product equals Go's. Whether the HTTP handlers bound the page is not part of this model.
- TransactionRepository.TransactionRepo.GetByID: `First` by primary key is modelled as the one contract with that
  id. Uniqueness of ids is an invariant of the store.
- Credit-limit `toResponse` (internal/service/credit_limit.go:199-209) only formats timestamps, so the services
  return the rows themselves.
- The asset service, the asset entity's validators and the HTTP handlers are not part of this model.
- `html.EscapeString` in `CreateTransactionRequest.Validate`: its result is discarded, so the request is unchanged.
- TransactionService.Price requires a tenor > 0. Division by a zero tenor cannot happen after validation, and the
  division yields +Inf in Go.
- CreditLimitEntity.SentinelCodesDistinct: states only that the four codes differ. That no code holds a colon,
  which makes `Error()` parse back, is assumed in `ParseFormat`'s precondition and not proved for the constants.
- TransactionRepository.TransactionRepo.Create requires `|detailIds| == TenorMonth`, because the ids stand for
  the `uuid.New()` of each installment row.
- The unique constraints of the database schema: the migration files are not part of this model. Uniqueness of
  (customer, tenor), NIK and document type is only what the services check.
