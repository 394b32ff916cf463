/** Contracts (transactions), their installment rows, the requests about them and the
    transaction error values. */
module TransactionEntity {
  import opened Common
  import opened Messages
  import opened Clock

  /** Contract statuses are strings, as in the database column; only three are valid. */
  const StatusPending: string := "pending"
  const StatusActive: string := "active"
  const StatusCompleted: string := "completed"

  /** `TransactionStatus.IsValid`. */
  predicate IsValidStatus(s: string)
    ensures IsValidStatus(s) <==> s in {StatusPending, StatusActive, StatusCompleted}
  {
    s == StatusPending || s == StatusActive || s == StatusCompleted
  }

  /** Installment statuses. */
  const DetailPending: string := "pending"
  const DetailPaid: string := "paid"
  const DetailOverdue: string := "overdue"

  /** `TransactionDetailStatus.IsValid`. */
  predicate IsValidDetailStatus(s: string)
    ensures IsValidDetailStatus(s) <==> s in {DetailPending, DetailPaid, DetailOverdue}
  {
    s == DetailPending || s == DetailPaid || s == DetailOverdue
  }

  /** An issued contract. `otrAmount` is the asset price at issuance (the principal). */
  datatype Transaction = Transaction(
    id: Uuid, customerId: Uuid, assetId: Uuid, contractNumber: string,
    otrAmount: real, adminFee: real, interestAmount: real,
    tenorMonth: int, installmentAmount: real, status: string)

  /** One installment row of a contract's repayment schedule. */
  datatype TransactionDetail = TransactionDetail(
    id: Uuid, transactionId: Uuid, installmentNumber: int, amount: real, dueDate: Instant, status: string)

  datatype CreateTransactionRequest = CreateTransactionRequest(
    customerId: Uuid, assetId: Uuid, tenorMonth: int, adminFee: real, interestRate: real, contractNumber: string)

  const MsgCustomerIdRequired: string := "customer_id is required"
  const MsgAssetIdRequired: string := "asset_id is required"
  const MsgTenorInvalid: string := "tenor_month must be 1, 2, 3, or 6"
  const MsgFeeNegative: string := "admin_fee must not be negative"
  const MsgRateOutOfRange: string := "interest_rate must be between 0 and 100"
  const MsgContractNumberRequired: string := "contract_number is required"

  const CreateMessages: seq<string> := [MsgCustomerIdRequired, MsgAssetIdRequired, MsgTenorInvalid,
                                        MsgFeeNegative, MsgRateOutOfRange, MsgContractNumberRequired]

  /** Every check of `Validate` passes. */
  predicate RequestOk(r: CreateTransactionRequest) {
    && r.customerId != NilUuid && r.assetId != NilUuid
    && IsValidTenor(r.tenorMonth)
    && r.adminFee >= 0.0
    && 0.0 <= r.interestRate <= 100.0
    && r.contractNumber != ""
  }

  /** The checks of `CreateTransactionRequest.Validate`, in order. */
  function CreateChecks(r: CreateTransactionRequest): seq<Check> {
    [Check(r.customerId == NilUuid, MsgCustomerIdRequired),
     Check(r.assetId == NilUuid, MsgAssetIdRequired),
     Check(!IsValidTenor(r.tenorMonth), MsgTenorInvalid),
     Check(r.adminFee < 0.0, MsgFeeNegative),
     Check(r.interestRate < 0.0 || r.interestRate > 100.0, MsgRateOutOfRange),
     Check(r.contractNumber == "", MsgContractNumberRequired)]
  }

  lemma CreateChecksMessages(r: CreateTransactionRequest)
    ensures MessagesOf(CreateChecks(r)) == CreateMessages && DistinctMessages(CreateChecks(r))
  {
    var checks := CreateChecks(r);
    assert forall i :: 0 <= i < |checks| ==> checks[i].message == CreateMessages[i];
    assert MessagesOf(checks) == CreateMessages;
    CreateMessagesDistinct();
    DistinctByMessages(checks, CreateMessages);
  }

  lemma CreateMessagesDistinct()
    ensures Distinct(CreateMessages)
  {
  }

  lemma CreateChecksCollect(r: CreateTransactionRequest)
    ensures var errors := Collect(CreateChecks(r));
            && (errors == [] <==> RequestOk(r))
            && (MsgCustomerIdRequired in errors <==> r.customerId == NilUuid)
            && (MsgAssetIdRequired in errors <==> r.assetId == NilUuid)
            && (MsgTenorInvalid in errors <==> !IsValidTenor(r.tenorMonth))
            && (MsgFeeNegative in errors <==> r.adminFee < 0.0)
            && (MsgRateOutOfRange in errors <==> r.interestRate < 0.0 || r.interestRate > 100.0)
            && (MsgContractNumberRequired in errors <==> r.contractNumber == "")
  {
    var checks := CreateChecks(r);
    CreateChecksMessages(r);
    CollectEmpty(checks);
    CollectHas(checks, 0); CollectHas(checks, 1); CollectHas(checks, 2);
    CollectHas(checks, 3); CollectHas(checks, 4); CollectHas(checks, 5);
  }

  /** `CreateTransactionRequest.Validate`: the messages of the failing checks in check order,
      empty exactly for an acceptable request. The request is passed by value and only read:
      the escaped contract number the source computes is discarded, so the contract number
      is never altered. */
  function Validate(r: CreateTransactionRequest): (errors: seq<string>)
    ensures errors == [] <==> RequestOk(r)
    ensures MsgCustomerIdRequired in errors <==> r.customerId == NilUuid
    ensures MsgAssetIdRequired in errors <==> r.assetId == NilUuid
    ensures MsgTenorInvalid in errors <==> !IsValidTenor(r.tenorMonth)
    ensures MsgFeeNegative in errors <==> r.adminFee < 0.0
    ensures MsgRateOutOfRange in errors <==> r.interestRate < 0.0 || r.interestRate > 100.0
    ensures MsgContractNumberRequired in errors <==> r.contractNumber == ""
    ensures IsSubsequence(errors, CreateMessages)
  {
    CreateChecksCollect(r);
    CreateChecksMessages(r);
    CollectOrdered(CreateChecks(r));
    Collect(CreateChecks(r))
  }

  /** Query of a customer's contracts; an empty `status` means "any status". */
  datatype TransactionFilterRequest = TransactionFilterRequest(status: string, page: int, perPage: int)

  datatype TransactionFilterRepository = TransactionFilterRepository(status: string, limit: int, offset: int)

  const MsgPageTooSmall: string := "page must be greater than 0"
  const MsgPerPageTooSmall: string := "per_page must be greater than 0"
  const MsgPerPageTooLarge: string := "per_page must not exceed 100"
  const MsgInvalidStatus: string := "invalid status"

  const FilterMessages: seq<string> := [MsgPageTooSmall, MsgPerPageTooSmall, MsgPerPageTooLarge, MsgInvalidStatus]

  predicate FilterOk(r: TransactionFilterRequest) {
    r.page >= 1 && 1 <= r.perPage <= 100 && (r.status == "" || IsValidStatus(r.status))
  }

  /** The checks of `TransactionFilterRequest.Validate`, in order. */
  function FilterChecks(r: TransactionFilterRequest): seq<Check> {
    [Check(r.page < 1, MsgPageTooSmall),
     Check(r.perPage < 1, MsgPerPageTooSmall),
     Check(r.perPage > 100, MsgPerPageTooLarge),
     Check(r.status != "" && !IsValidStatus(r.status), MsgInvalidStatus)]
  }

  lemma FilterChecksMessages(r: TransactionFilterRequest)
    ensures MessagesOf(FilterChecks(r)) == FilterMessages && DistinctMessages(FilterChecks(r))
  {
    var checks := FilterChecks(r);
    assert forall i :: 0 <= i < |checks| ==> checks[i].message == FilterMessages[i];
    assert MessagesOf(checks) == FilterMessages;
    FilterMessagesDistinct();
    DistinctByMessages(checks, FilterMessages);
  }

  lemma FilterMessagesDistinct()
    ensures Distinct(FilterMessages)
  {
  }

  lemma FilterChecksCollect(r: TransactionFilterRequest)
    ensures var errors := Collect(FilterChecks(r));
            && (errors == [] <==> FilterOk(r))
            && (MsgPageTooSmall in errors <==> r.page < 1)
            && (MsgPerPageTooSmall in errors <==> r.perPage < 1)
            && (MsgPerPageTooLarge in errors <==> r.perPage > 100)
            && (MsgInvalidStatus in errors <==> r.status != "" && !IsValidStatus(r.status))
  {
    var checks := FilterChecks(r);
    FilterChecksMessages(r);
    CollectEmpty(checks);
    CollectHas(checks, 0); CollectHas(checks, 1); CollectHas(checks, 2); CollectHas(checks, 3);
  }

  /** `TransactionFilterRequest.Validate`. */
  function ValidateFilter(r: TransactionFilterRequest): (errors: seq<string>)
    ensures errors == [] <==> FilterOk(r)
    ensures MsgPageTooSmall in errors <==> r.page < 1
    ensures MsgPerPageTooSmall in errors <==> r.perPage < 1
    ensures MsgPerPageTooLarge in errors <==> r.perPage > 100
    ensures MsgInvalidStatus in errors <==> r.status != "" && !IsValidStatus(r.status)
    ensures IsSubsequence(errors, FilterMessages)
  {
    FilterChecksCollect(r);
    FilterChecksMessages(r);
    CollectOrdered(FilterChecks(r));
    Collect(FilterChecks(r))
  }

  /** `ToTransactionFilterRepo`: limit `perPage` and offset `(page - 1) * perPage`, computed in
      Go's 64-bit `int`. While that product fits, page `page` ends after `page` full pages, and
      for an acceptable request the offset is non-negative; a large enough page wraps it. */
  function ToTransactionFilterRepo(r: TransactionFilterRequest): (f: TransactionFilterRepository)
    ensures f.status == r.status && f.limit == r.perPage
    ensures f.offset == WrapInt((r.page - 1) * r.perPage)
    ensures InInt((r.page - 1) * r.perPage) ==> f.offset + f.limit == r.page * r.perPage
    ensures FilterOk(r) ==> 1 <= f.limit <= 100
    ensures FilterOk(r) && (r.page - 1) * r.perPage <= IntMax ==> f.offset >= 0
  {
    TransactionFilterRepository(r.status, r.perPage, WrapInt((r.page - 1) * r.perPage))
  }

  /** Validation bounds the page only from below: page 92233720368547760 of 100 rows passes,
      and its offset wraps to a negative number. */
  lemma LargePageWrapsNegative()
    ensures var r := TransactionFilterRequest("", 92233720368547760, 100);
            ValidateFilter(r) == [] && ToTransactionFilterRepo(r).offset < 0
  {
  }

  /** Page 2^58 + 1 of 64 rows passes validation and wraps to offset 0: it asks for the first
      page again. */
  lemma LargePageWrapsToStart()
    ensures var r := TransactionFilterRequest("", 0x400_0000_0000_0001, 64);
            ValidateFilter(r) == [] && ToTransactionFilterRepo(r).offset == 0
  {
  }

  /** A coded transaction error; its text is `code + ": " + message`. The source declares this
      type and `CreditLimitError` separately with the same `Error` method, and so does the model. */
  datatype TransactionError = TransactionError(code: string, message: string) {
    function Error(): (s: string)
      ensures |s| == |code| + 2 + |message|
      ensures s[..|code|] == code && s[|code|..|code| + 2] == ": " && s[|code| + 2..] == message
      ensures ':' !in code ==> ParseCoded(s) == (code, message)
    {
      if ':' in code then Format(code, message) else ParseFormat(code, message); Format(code, message)
    }
  }

  const ErrTransactionNotFound: TransactionError := TransactionError("TRANSACTION_NOT_FOUND", "transaction not found")
  const ErrDuplicateContract: TransactionError := TransactionError("DUPLICATE_CONTRACT", "contract number already exists")
  const ErrInvalidStatus: TransactionError := TransactionError("INVALID_STATUS", "invalid transaction status")
}
