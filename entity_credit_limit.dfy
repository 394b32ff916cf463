/** Credit-limit rows, the request that creates one, and the credit-limit error values. */
module CreditLimitEntity {
  import opened Common
  import opened Messages

  /** One row of the credit-limit table: how much `customerId` may borrow over `tenorMonth` months
      (`limitAmount`) and how much of it is committed (`usedAmount`). */
  datatype CreditLimit = CreditLimit(id: Uuid, customerId: Uuid, tenorMonth: int, limitAmount: real, usedAmount: real)

  datatype CreateCreditLimitRequest = CreateCreditLimitRequest(customerId: Uuid, tenorMonth: int, limitAmount: real)

  const MsgCustomerIdRequired: string := "customer_id is required"
  const MsgTenorInvalid: string := "tenor_month must be 1, 2, 3, or 6"
  const MsgLimitNotPositive: string := "limit_amount must be greater than 0"

  /** Every check of `Validate` passes. */
  predicate RequestOk(r: CreateCreditLimitRequest) {
    r.customerId != NilUuid && IsValidTenor(r.tenorMonth) && r.limitAmount > 0.0
  }

  const CreateMessages: seq<string> := [MsgCustomerIdRequired, MsgTenorInvalid, MsgLimitNotPositive]

  /** The checks of `CreateCreditLimitRequest.Validate`, in order. */
  function CreateChecks(r: CreateCreditLimitRequest): seq<Check> {
    [Check(r.customerId == NilUuid, MsgCustomerIdRequired),
     Check(!IsValidTenor(r.tenorMonth), MsgTenorInvalid),
     Check(r.limitAmount <= 0.0, MsgLimitNotPositive)]
  }

  lemma CreateChecksMessages(r: CreateCreditLimitRequest)
    ensures MessagesOf(CreateChecks(r)) == CreateMessages && DistinctMessages(CreateChecks(r))
  {
    var checks := CreateChecks(r);
    assert forall i :: 0 <= i < |checks| ==> checks[i].message == CreateMessages[i];
    assert MessagesOf(checks) == CreateMessages;
    CreateMessagesDistinct();
    DistinctByMessages(checks, CreateMessages);
  }

  lemma CreateMessagesDistinct()
    ensures Distinct(CreateMessages)
  {
  }

  lemma CreateChecksCollect(r: CreateCreditLimitRequest)
    ensures var errors := Collect(CreateChecks(r));
            && (errors == [] <==> RequestOk(r))
            && (MsgCustomerIdRequired in errors <==> r.customerId == NilUuid)
            && (MsgTenorInvalid in errors <==> !IsValidTenor(r.tenorMonth))
            && (MsgLimitNotPositive in errors <==> r.limitAmount <= 0.0)
  {
    var checks := CreateChecks(r);
    CreateChecksMessages(r);
    CollectEmpty(checks);
    CollectHas(checks, 0); CollectHas(checks, 1); CollectHas(checks, 2);
  }

  /** `CreateCreditLimitRequest.Validate`: the messages of the failing checks, in check order;
      empty exactly for an acceptable request. */
  function Validate(r: CreateCreditLimitRequest): (errors: seq<string>)
    ensures errors == [] <==> RequestOk(r)
    ensures MsgCustomerIdRequired in errors <==> r.customerId == NilUuid
    ensures MsgTenorInvalid in errors <==> !IsValidTenor(r.tenorMonth)
    ensures MsgLimitNotPositive in errors <==> r.limitAmount <= 0.0
    ensures IsSubsequence(errors, CreateMessages)
  {
    CreateChecksCollect(r);
    CreateChecksMessages(r);
    CollectOrdered(CreateChecks(r));
    Collect(CreateChecks(r))
  }

  /** A coded credit-limit error; its text is `code + ": " + message`. */
  datatype CreditLimitError = CreditLimitError(code: string, message: string) {
    function Error(): (s: string)
      ensures |s| == |code| + 2 + |message|
      ensures s[..|code|] == code && s[|code|..|code| + 2] == ": " && s[|code| + 2..] == message
      ensures ':' !in code ==> ParseCoded(s) == (code, message)
    {
      if ':' in code then Format(code, message) else ParseFormat(code, message); Format(code, message)
    }
  }

  const ErrCreditLimitNotFound: CreditLimitError := CreditLimitError("CREDIT_LIMIT_NOT_FOUND", "credit limit not found")
  const ErrInsufficientCreditLimit: CreditLimitError := CreditLimitError("INSUFFICIENT_CREDIT_LIMIT", "insufficient credit limit")
  const ErrDuplicateCreditLimit: CreditLimitError := CreditLimitError("DUPLICATE_CREDIT_LIMIT", "credit limit already exists for this tenor")
  const ErrCreditLimitInUse: CreditLimitError := CreditLimitError("CREDIT_LIMIT_IN_USE", "credit limit is currently in use")

  /** The four sentinel errors carry pairwise distinct codes, so each one's text names it alone. */
  lemma SentinelCodesDistinct()
    ensures var codes := [ErrCreditLimitNotFound.code, ErrInsufficientCreditLimit.code,
                          ErrDuplicateCreditLimit.code, ErrCreditLimitInUse.code];
            forall i, j :: 0 <= i < j < |codes| ==> codes[i] != codes[j]
  {
  }
}
