/** Contract issuance and the contract queries of the service layer. */
module TransactionService {
  import opened Common
  import opened Clock
  import opened Paging
  import opened Errors
  import opened TransactionEntity
  import CE = CustomerEntity
  import opened AssetRepository
  import CL = CreditLimitEntity
  import opened CreditLimitRepository
  import opened TransactionRepository

  /** Flat-rate pricing: interest on the price for the whole tenor, the total the customer
      repays, and the equal monthly installment. */
  datatype Pricing = Pricing(interest: real, total: real, installment: real)

  function Price(price: real, adminFee: real, rate: real, tenorMonth: int): (p: Pricing)
    requires tenorMonth > 0
    ensures p.interest == price * rate * (tenorMonth as real) / 100.0
    ensures p.total == price + adminFee + p.interest
    ensures p.installment * (tenorMonth as real) == p.total
  {
    var interest := price * rate * (tenorMonth as real) / 100.0;
    var total := price + adminFee + interest;
    Pricing(interest, total, total / (tenorMonth as real))
  }

  /** With a fee and a rate the validator accepts, the total is at least the price, and the
      interest is at most the price once per month of the tenor. */
  lemma PriceBounds(price: real, adminFee: real, rate: real, tenorMonth: int)
    requires tenorMonth > 0 && price >= 0.0 && adminFee >= 0.0 && 0.0 <= rate <= 100.0
    ensures var p := Price(price, adminFee, rate, tenorMonth);
            0.0 <= p.interest <= price * (tenorMonth as real) && price <= p.total
  {
    var t := tenorMonth as real;
    var pt := price * t;
    NonNegativeProduct(price, t);
    assert price * rate * t == rate * pt;
    NonNegativeProduct(rate, pt);
    ProductBelow(rate, 100.0, pt);
  }

  lemma NonNegativeProduct(a: real, b: real)
    requires 0.0 <= a && 0.0 <= b
    ensures 0.0 <= a * b
  {
  }

  lemma ProductBelow(a: real, b: real, c: real)
    requires a <= b && 0.0 <= c
    ensures a * c <= b * c
  {
    NonNegativeProduct(b - a, c);
    assert (b - a) * c == b * c - a * c;
  }

  /** What a successful decision chain hands to the stores: the contract to insert, the
      limit row the service fetched, and the total it then charges. */
  datatype Plan = Plan(transaction: Transaction, limitId: Uuid, total: real)

  /** Every check of the decision chain passes. */
  predicate Admissible(req: CreateTransactionRequest, existing: Fetch<Loaded>, customer: Fetch<CE.Customer>,
                       asset: Fetch<Asset>, limit: Fetch<CL.CreditLimit>)
  {
    && RequestOk(req)
    && existing.Nil?
    && customer.Found? && customer.value.isActive
    && asset.Found?
    && limit.Found?
    && Price(asset.value.price, req.adminFee, req.interestRate, req.tenorMonth).total
         <= limit.value.limitAmount - limit.value.usedAmount
  }

  /** The decision chain of `Create`, up to the first store write: validation, then the four
      lookups (whose results are the inputs), then pricing and the capacity pre-check. The
      first failing check decides the error. */
  function Admit(req: CreateTransactionRequest, existing: Fetch<Loaded>, customer: Fetch<CE.Customer>,
                 asset: Fetch<Asset>, limit: Fetch<CL.CreditLimit>, id: Uuid): (r: Result<Plan, Error>)
    ensures r.Success? <==> Admissible(req, existing, customer, asset, limit)
    ensures r.Success? ==>
              var p := Price(asset.value.price, req.adminFee, req.interestRate, req.tenorMonth);
              r.value == Plan(Transaction(id, req.customerId, req.assetId, req.contractNumber, asset.value.price,
                                          req.adminFee, p.interest, req.tenorMonth, p.installment, StatusPending),
                              limit.value.id, p.total)
    ensures !RequestOk(req) ==> r == Failure(ValidationFailed(Validate(req)))
    ensures RequestOk(req) && existing.Errored? ==> r == Failure(Wrapped("failed to check existing contract", existing.cause))
    ensures RequestOk(req) && existing.Found? ==> r == Failure(TransactionFailure(ErrDuplicateContract))
    ensures RequestOk(req) && existing.Nil? ==>
              && (customer.Errored? ==> r == Failure(Wrapped("failed to get customer", customer.cause)))
              && (customer.Nil? ==> r == Failure(Message("customer not found")))
              && (customer.Found? && !customer.value.isActive ==> r == Failure(Message("customer is not active")))
    ensures RequestOk(req) && existing.Nil? && customer.Found? && customer.value.isActive ==>
              && (asset.Errored? ==> r == Failure(Wrapped("failed to get asset", asset.cause)))
              && (asset.Nil? ==> r == Failure(Message("asset not found")))
    ensures RequestOk(req) && existing.Nil? && customer.Found? && customer.value.isActive && asset.Found? ==>
              && (limit.Errored? ==> r == Failure(Wrapped("failed to get credit limit", limit.cause)))
              && (limit.Nil? ==> r == Failure(NoCreditLimitForTenor(req.tenorMonth)))
              && (limit.Found? && !Admissible(req, existing, customer, asset, limit) ==>
                    r == Failure(CreditLimitFailure(CL.ErrInsufficientCreditLimit)))
  {
    var errors := Validate(req);
    if errors != [] then Failure(ValidationFailed(errors))
    else if existing.Errored? then Failure(Wrapped("failed to check existing contract", existing.cause))
    else if existing.Found? then Failure(TransactionFailure(ErrDuplicateContract))
    else if customer.Errored? then Failure(Wrapped("failed to get customer", customer.cause))
    else if customer.Nil? then Failure(Message("customer not found"))
    else if !customer.value.isActive then Failure(Message("customer is not active"))
    else if asset.Errored? then Failure(Wrapped("failed to get asset", asset.cause))
    else if asset.Nil? then Failure(Message("asset not found"))
    else if limit.Errored? then Failure(Wrapped("failed to get credit limit", limit.cause))
    else if limit.Nil? then Failure(NoCreditLimitForTenor(req.tenorMonth))
    else
      var p := Price(asset.value.price, req.adminFee, req.interestRate, req.tenorMonth);
      if p.total > limit.value.limitAmount - limit.value.usedAmount then
        Failure(CreditLimitFailure(CL.ErrInsufficientCreditLimit))
      else
        Success(Plan(Transaction(id, req.customerId, req.assetId, req.contractNumber, asset.value.price,
                                 req.adminFee, p.interest, req.tenorMonth, p.installment, StatusPending),
                     limit.value.id, p.total))
  }

  /** The installments generated for an admitted contract repay exactly its total. */
  lemma ScheduleRepaysTotal(req: CreateTransactionRequest, existing: Fetch<Loaded>, customer: Fetch<CE.Customer>,
                            asset: Fetch<Asset>, limit: Fetch<CL.CreditLimit>, id: Uuid,
                            start: Instant, ids: seq<Uuid>, s: seq<TransactionDetail>)
    requires Admit(req, existing, customer, asset, limit, id).Success?
    requires IsSchedule(Admit(req, existing, customer, asset, limit, id).value.transaction, start, ids, s)
    ensures TotalDue(s) == Admit(req, existing, customer, asset, limit, id).value.total
  {
    var plan := Admit(req, existing, customer, asset, limit, id).value;
    ScheduleFacts(plan.transaction, start, ids, s);
  }

  /** The effect on the credit-limit table of issuing a contract: the table afterwards,
      whether the contract is stored, and whether the service reports success. */
  datatype Issue = Issue(rows: Table, contractStored: bool, succeeded: bool)

  /** Issuance as written: the repository's atomic step charges the OTR amount on the row it
      finds (`repoRow`) and stores the contract; the service then charges the total on the row
      it fetched (`serviceRow`) in a separate step, which can fail after the contract is stored. */
  function IssueAsWritten(rows: Table, repoRow: Uuid, serviceRow: Uuid, otr: real, total: real): (r: Issue)
    ensures r.contractStored <==> Charge(rows, repoRow, otr).Some?
    ensures r.contractStored ==>
              && (r.succeeded <==> Charge(Charge(rows, repoRow, otr).value, serviceRow, total).Some?)
              && r.rows == if r.succeeded then Charge(Charge(rows, repoRow, otr).value, serviceRow, total).value
                           else Charge(rows, repoRow, otr).value
    ensures r.succeeded ==> r.contractStored
    ensures !r.contractStored ==> r.rows == rows
    ensures Bounded(rows) ==> Bounded(r.rows)
    ensures NonNegative(rows) && otr >= 0.0 && total >= 0.0 ==> NonNegative(r.rows)
  {
    match Charge(rows, repoRow, otr)
    case None => Issue(rows, false, false)
    case Some(afterRepo) =>
      ChargePreserves(rows, repoRow, otr);
      match Charge(afterRepo, serviceRow, total)
      case None => Issue(afterRepo, true, false)
      case Some(after) =>
        ChargePreserves(afterRepo, serviceRow, total);
        Issue(after, true, true)
  }

  /** Once the repository step has charged `otr`, issuance as written ends in whatever the
      second charge of `total` makes of the table. */
  lemma AsWrittenAfterStore(rows: Table, repoRow: Uuid, serviceRow: Uuid, otr: real, total: real, final: Table, ok: bool)
    requires Charge(rows, repoRow, otr).Some?
    requires ok <==> Charge(Charge(rows, repoRow, otr).value, serviceRow, total).Some?
    requires final == if ok then Charge(Charge(rows, repoRow, otr).value, serviceRow, total).value
                      else Charge(rows, repoRow, otr).value
    ensures IssueAsWritten(rows, repoRow, serviceRow, otr, total) == Issue(final, true, ok)
  {
  }

  /** As written, a fully successful issuance against one row commits the OTR amount and the
      total: `used` grows by `otr + total`, not by the total the customer owes. */
  lemma {:induction false} AsWrittenChargesTwice(rows: Table, id: Uuid, otr: real, total: real)
    requires IssueAsWritten(rows, id, id, otr, total).succeeded
    ensures IssueAsWritten(rows, id, id, otr, total).rows[id].usedAmount == rows[id].usedAmount + otr + total
    ensures IssueAsWritten(rows, id, id, otr, total).rows == Charge(rows, id, otr + total).value
  {
    ChargeTwice(rows, id, otr, total);
    ChargePreserves(rows, id, otr + total);
  }

  const ExampleLimitId: Uuid := Uuid("limit-1")

  /** One customer with a limit of 100000 for a one-month tenor, nothing committed. */
  function ExampleRows(): (rows: Table)
    ensures ExampleLimitId in rows && rows[ExampleLimitId].usedAmount == 0.0
    ensures Keyed(rows) && Bounded(rows) && NonNegative(rows) && UniquePairs(rows)
  {
    map[ExampleLimitId := CL.CreditLimit(ExampleLimitId, Uuid("customer-1"), 1, 100000.0, 0.0)]
  }

  /** A price of 90000, a fee of 5000 and a 2% rate over one month cost 96800 in total, which
      the pre-check lets through against a free limit of 100000. As written, the repository
      step commits 90000 and stores the contract, the second charge of 96800 then exceeds the
      limit, and the service reports an error while the contract stays stored with 90000
      committed. */
  lemma AsWrittenStoresThenFails()
    ensures var p := Price(90000.0, 5000.0, 2.0, 1);
            && p.total == 96800.0
            && p.total <= ExampleRows()[ExampleLimitId].limitAmount - ExampleRows()[ExampleLimitId].usedAmount
            && var i := IssueAsWritten(ExampleRows(), ExampleLimitId, ExampleLimitId, 90000.0, p.total);
               i.contractStored && !i.succeeded && i.rows[ExampleLimitId].usedAmount == 90000.0
  {
    var p := Price(90000.0, 5000.0, 2.0, 1);
    assert p.interest == 1800.0;
  }

  /** Issuance as evidently intended: one atomic step that stores the contract and charges
      the total once, or does neither. */
  function IssueCorrected(rows: Table, id: Uuid, total: real): (r: Issue)
    ensures r.succeeded <==> r.contractStored
    ensures r.succeeded <==> id in rows && rows[id].usedAmount + total <= rows[id].limitAmount
    ensures !r.succeeded ==> r.rows == rows
  {
    match Charge(rows, id, total)
    case None => Issue(rows, false, false)
    case Some(after) => Issue(after, true, true)
  }

  /** A corrected issuance commits exactly the total on that row, leaves every other row
      alone and keeps the table's invariants. */
  lemma CorrectedChargesTotal(rows: Table, id: Uuid, total: real)
    requires IssueCorrected(rows, id, total).succeeded
    ensures var after := IssueCorrected(rows, id, total).rows;
            && after.Keys == rows.Keys
            && after[id] == rows[id].(usedAmount := rows[id].usedAmount + total)
            && (forall other :: other in rows && other != id ==> after[other] == rows[other])
            && (Bounded(rows) ==> Bounded(after))
            && (UniquePairs(rows) ==> UniquePairs(after))
            && (NonNegative(rows) && total >= 0.0 ==> NonNegative(after))
  {
    ChargePreserves(rows, id, total);
  }

  /** With the corrected step the pre-check is exact: when the snapshot the service read is
      the row itself, passing the pre-check means the issuance succeeds. */
  lemma CorrectedPrecheckSound(req: CreateTransactionRequest, existing: Fetch<Loaded>, customer: Fetch<CE.Customer>,
                               asset: Fetch<Asset>, limit: Fetch<CL.CreditLimit>, id: Uuid, rows: Table)
    requires Admit(req, existing, customer, asset, limit, id).Success?
    requires limit.value.id in rows && rows[limit.value.id] == limit.value
    ensures IssueCorrected(rows, limit.value.id, Admit(req, existing, customer, asset, limit, id).value.total).succeeded
  {
  }

  /** The same contract with the corrected step: it is issued and exactly its total, 96800,
      is committed. */
  lemma CorrectedIssuesExample()
    ensures var i := IssueCorrected(ExampleRows(), ExampleLimitId, Price(90000.0, 5000.0, 2.0, 1).total);
            i.succeeded && i.rows[ExampleLimitId].usedAmount == 96800.0
  {
    var p := Price(90000.0, 5000.0, 2.0, 1);
    assert p.interest == 1800.0;
    CorrectedChargesTotal(ExampleRows(), ExampleLimitId, p.total);
  }

  /** A contract as the service returns it, with the installment rows it shows. */
  datatype TransactionResponse = TransactionResponse(transaction: Transaction, installments: seq<TransactionDetail>)

  /** `toResponse`: the contract's fields and, when the lookup loaded an installment row, that
      single row. */
  function ToResponse(l: Loaded): (r: TransactionResponse)
    ensures r.transaction == l.transaction
    ensures |r.installments| <= 1
    ensures r.installments == [] <==> l.detail.None?
    ensures l.detail.Some? ==> r.installments[0] == l.detail.value
  {
    TransactionResponse(l.transaction, if l.detail.Some? then [l.detail.value] else [])
  }

  /** `r` is what `toResponse` makes of contract `t` with its installment row preloaded from
      `details`: the contract itself, and one row of it exactly when it has one. */
  predicate Shows(r: TransactionResponse, t: Transaction, details: seq<TransactionDetail>) {
    && r.transaction == t
    && |r.installments| <= 1
    && (r.installments == [] <==> forall j :: 0 <= j < |details| ==> details[j].transactionId != t.id)
    && (r.installments != [] ==> r.installments[0] in details && r.installments[0].transactionId == t.id)
  }

  /** The response of a contract with a preloaded installment row shows that contract. */
  lemma ToResponseShows(l: Loaded, details: seq<TransactionDetail>)
    requires LoadsDetail(l, details)
    ensures Shows(ToResponse(l), l.transaction, details)
  {
  }

  /** The loop of `GetAllByCustomerID` that fills the response slice: one response per
      contract of the page, in page order. */
  method ToResponses(page: seq<Loaded>) returns (responses: seq<TransactionResponse>)
    ensures |responses| == |page|
    ensures forall k :: 0 <= k < |page| ==> responses[k] == ToResponse(page[k])
  {
    var out := new TransactionResponse[|page|];
    for i := 0 to |page|
      invariant forall j :: 0 <= j < i ==> out[j] == ToResponse(page[j])
    {
      out[i] := ToResponse(page[i]);
    }
    responses := out[..];
  }

  class Service {
    const transactionRepo: TransactionRepo
    const creditLimitRepo: CreditLimitRepo

    ghost predicate Valid()
      reads this, transactionRepo, creditLimitRepo
    {
      transactionRepo.limits == creditLimitRepo && transactionRepo.Valid()
    }

    constructor (transactionRepo: TransactionRepo)
      requires transactionRepo.Valid()
      ensures Valid() && this.transactionRepo == transactionRepo && creditLimitRepo == transactionRepo.limits
    {
      this.transactionRepo := transactionRepo;
      this.creditLimitRepo := transactionRepo.limits;
    }

    /** `Create`. `existing`, `customer`, `asset` and `limit` are the results of the four
        lookups the source runs concurrently; `id` is the new contract's id, `now` the clock
        and `detailIds` the ids of its installment rows. */
    method Create(req: CreateTransactionRequest, existing: Fetch<Loaded>, customer: Fetch<CE.Customer>,
                  asset: Fetch<Asset>, limit: Fetch<CL.CreditLimit>, id: Uuid, now: Instant, detailIds: seq<Uuid>)
      returns (r: Result<TransactionResponse, Error>)
      requires Valid()
      requires IsValidTenor(req.tenorMonth) ==> |detailIds| == req.tenorMonth
      modifies transactionRepo, creditLimitRepo
      ensures Valid()
      ensures Bounded(old(creditLimitRepo.rows)) ==> Bounded(creditLimitRepo.rows)
      ensures NonNegative(old(creditLimitRepo.rows)) && (asset.Found? ==> asset.value.price >= 0.0) ==>
                NonNegative(creditLimitRepo.rows)
      ensures Admit(req, existing, customer, asset, limit, id).Failure? ==>
                && r == Failure(Admit(req, existing, customer, asset, limit, id).error)
                && transactionRepo.transactions == old(transactionRepo.transactions)
                && transactionRepo.details == old(transactionRepo.details)
                && creditLimitRepo.rows == old(creditLimitRepo.rows)
      ensures Admit(req, existing, customer, asset, limit, id).Success? ==>
                var plan := Admit(req, existing, customer, asset, limit, id).value;
                if transactionRepo.transactions == old(transactionRepo.transactions) then
                  && r.Failure? && r.error.Wrapped? && r.error.context == "failed to create transaction"
                  && transactionRepo.details == old(transactionRepo.details)
                  && creditLimitRepo.rows == old(creditLimitRepo.rows)
                else
                  && transactionRepo.transactions == old(transactionRepo.transactions) + [plan.transaction]
                  && AppendsSchedule(old(transactionRepo.details), transactionRepo.details, plan.transaction, now, detailIds)
                  && exists k :: k in old(creditLimitRepo.rows) &&
                                 Matches(old(creditLimitRepo.rows)[k], req.customerId, req.tenorMonth) &&
                                 var issue := IssueAsWritten(old(creditLimitRepo.rows), k, plan.limitId,
                                                             plan.transaction.otrAmount, plan.total);
                                 && issue.contractStored
                                 && creditLimitRepo.rows == issue.rows
                                 && (r.Success? <==> issue.succeeded)
      ensures Admit(req, existing, customer, asset, limit, id).Success? ==>
                var plan := Admit(req, existing, customer, asset, limit, id).value;
                LimitFits(old(creditLimitRepo.rows), plan.transaction) && !HasId(old(transactionRepo.transactions), id) ==>
                  transactionRepo.transactions == old(transactionRepo.transactions) + [plan.transaction]
      ensures r.Success? ==> Admit(req, existing, customer, asset, limit, id).Success? && |r.value.installments| == 1 &&
                             Shows(r.value, Admit(req, existing, customer, asset, limit, id).value.transaction,
                                   transactionRepo.details)
    {
      var admitted := Admit(req, existing, customer, asset, limit, id);
      if admitted.Failure? {
        return Failure(admitted.error);
      }
      if asset.value.price >= 0.0 {
        PriceBounds(asset.value.price, req.adminFee, req.interestRate, req.tenorMonth);
      }
      r := Issue(admitted.value, now, detailIds);
    }

    /** Stores an admitted contract with its schedule (the repository charges the OTR amount),
        then charges the plan's total in a second step. */
    method Issue(plan: Plan, now: Instant, detailIds: seq<Uuid>) returns (r: Result<TransactionResponse, Error>)
      requires Valid()
      requires plan.transaction.tenorMonth >= 0 && |detailIds| == plan.transaction.tenorMonth
      modifies transactionRepo, creditLimitRepo
      ensures Valid()
      ensures Bounded(old(creditLimitRepo.rows)) ==> Bounded(creditLimitRepo.rows)
      ensures NonNegative(old(creditLimitRepo.rows)) && plan.transaction.otrAmount >= 0.0 && plan.total >= 0.0 ==>
                NonNegative(creditLimitRepo.rows)
      ensures if transactionRepo.transactions == old(transactionRepo.transactions) then
                && r.Failure? && r.error.Wrapped? && r.error.context == "failed to create transaction"
                && transactionRepo.details == old(transactionRepo.details)
                && creditLimitRepo.rows == old(creditLimitRepo.rows)
              else
                && transactionRepo.transactions == old(transactionRepo.transactions) + [plan.transaction]
                && AppendsSchedule(old(transactionRepo.details), transactionRepo.details, plan.transaction, now, detailIds)
                && exists k :: k in old(creditLimitRepo.rows) &&
                               Matches(old(creditLimitRepo.rows)[k], plan.transaction.customerId, plan.transaction.tenorMonth) &&
                               var issue := IssueAsWritten(old(creditLimitRepo.rows), k, plan.limitId,
                                                           plan.transaction.otrAmount, plan.total);
                               && issue.contractStored
                               && creditLimitRepo.rows == issue.rows
                               && (r.Success? <==> issue.succeeded)
      ensures (forall k :: k in old(creditLimitRepo.rows) ==>
                 !Matches(old(creditLimitRepo.rows)[k], plan.transaction.customerId, plan.transaction.tenorMonth)) ==>
                r == Failure(Wrapped("failed to create transaction", Wrapped("failed to get credit limit", RecordNotFound)))
      ensures LimitFits(old(creditLimitRepo.rows), plan.transaction) ==>
                if HasId(old(transactionRepo.transactions), plan.transaction.id) then
                  r == Failure(Wrapped("failed to create transaction", Wrapped("failed to create transaction", DuplicateKey)))
                else if plan.transaction.tenorMonth == 0 then
                  r == Failure(Wrapped("failed to create transaction",
                                       Wrapped("failed to create transaction details", EmptySlice)))
                else
                  transactionRepo.transactions == old(transactionRepo.transactions) + [plan.transaction]
      ensures r.Success? ==> |r.value.installments| == 1 && Shows(r.value, plan.transaction, transactionRepo.details)
    {
      var err := Store(plan, now, detailIds);
      if err.Some? {
        return Failure(err.value);
      }
      ghost var k :| k in old(creditLimitRepo.rows) &&
                     Matches(old(creditLimitRepo.rows)[k], plan.transaction.customerId, plan.transaction.tenorMonth) &&
                     Charge(old(creditLimitRepo.rows), k, plan.transaction.otrAmount) == Some(creditLimitRepo.rows);
      r := ChargeTotal(plan);
      AsWrittenAfterStore(old(creditLimitRepo.rows), k, plan.limitId, plan.transaction.otrAmount, plan.total,
                          creditLimitRepo.rows, r.Success?);
    }

    /** The repository step of issuance, with its error wrapped as the service wraps it. */
    method Store(plan: Plan, now: Instant, detailIds: seq<Uuid>) returns (err: Option<Error>)
      requires Valid()
      requires plan.transaction.tenorMonth >= 0 && |detailIds| == plan.transaction.tenorMonth
      modifies transactionRepo, creditLimitRepo
      ensures Valid()
      ensures err.Some? ==>
                && transactionRepo.transactions == old(transactionRepo.transactions)
                && transactionRepo.details == old(transactionRepo.details)
                && creditLimitRepo.rows == old(creditLimitRepo.rows)
                && err.value.Wrapped? && err.value.context == "failed to create transaction"
      ensures (forall k :: k in old(creditLimitRepo.rows) ==>
                 !Matches(old(creditLimitRepo.rows)[k], plan.transaction.customerId, plan.transaction.tenorMonth)) ==>
                err == Some(Wrapped("failed to create transaction", Wrapped("failed to get credit limit", RecordNotFound)))
      ensures LimitFits(old(creditLimitRepo.rows), plan.transaction) ==>
                err == if HasId(old(transactionRepo.transactions), plan.transaction.id) then
                         Some(Wrapped("failed to create transaction", Wrapped("failed to create transaction", DuplicateKey)))
                       else if plan.transaction.tenorMonth == 0 then
                         Some(Wrapped("failed to create transaction",
                                      Wrapped("failed to create transaction details", EmptySlice)))
                       else None
      ensures err.None? ==>
                && transactionRepo.transactions == old(transactionRepo.transactions) + [plan.transaction]
                && AppendsSchedule(old(transactionRepo.details), transactionRepo.details, plan.transaction, now, detailIds)
                && (exists j :: 0 <= j < |transactionRepo.details| && transactionRepo.details[j].transactionId == plan.transaction.id)
                && exists k :: k in old(creditLimitRepo.rows) &&
                               Matches(old(creditLimitRepo.rows)[k], plan.transaction.customerId, plan.transaction.tenorMonth) &&
                               Charge(old(creditLimitRepo.rows), k, plan.transaction.otrAmount) == Some(creditLimitRepo.rows)
    {
      var e := transactionRepo.Create(plan.transaction, now, detailIds);
      if e.Some? {
        return Some(Wrapped("failed to create transaction", e.value));
      }
      ghost var n := |old(transactionRepo.details)|;
      assert transactionRepo.details[n] == transactionRepo.details[n..][0];
      err := None;
    }

    /** The second step of issuance, after the contract is stored: charge the plan's total on
        the row the service fetched, then read the stored contract back. */
    method ChargeTotal(plan: Plan) returns (r: Result<TransactionResponse, Error>)
      requires Valid()
      requires |transactionRepo.transactions| > 0
      requires transactionRepo.transactions[|transactionRepo.transactions| - 1] == plan.transaction
      requires exists j :: 0 <= j < |transactionRepo.details| && transactionRepo.details[j].transactionId == plan.transaction.id
      modifies creditLimitRepo
      ensures Valid()
      ensures r.Success? <==> Charge(old(creditLimitRepo.rows), plan.limitId, plan.total).Some?
      ensures creditLimitRepo.rows == if r.Success? then Charge(old(creditLimitRepo.rows), plan.limitId, plan.total).value
                                      else old(creditLimitRepo.rows)
      ensures r.Failure? ==> r.error.Wrapped? && r.error.context == "failed to update credit limit"
      ensures r.Success? ==> |r.value.installments| == 1 && Shows(r.value, plan.transaction, transactionRepo.details)
    {
      var charged := creditLimitRepo.UpdateUsedAmount(plan.limitId, plan.total);
      if charged.Some? {
        return Failure(Wrapped("failed to update credit limit", charged.value));
      }
      var created := transactionRepo.GetByID(plan.transaction.id);
      ToResponseShows(created.value, transactionRepo.details);
      r := Success(ToResponse(created.value));
    }

    /** `GetByID`: a missing contract is `ErrTransactionNotFound`. */
    method GetByID(id: Uuid) returns (r: Result<TransactionResponse, Error>)
      requires Valid()
      ensures r.Failure? <==> !HasId(transactionRepo.transactions, id)
      ensures r.Failure? ==> r.error == TransactionFailure(ErrTransactionNotFound)
      ensures r.Success? ==> r.value.transaction in transactionRepo.transactions && r.value.transaction.id == id &&
                             Shows(r.value, r.value.transaction, transactionRepo.details)
    {
      var found := transactionRepo.GetByID(id);
      if found.None? {
        return Failure(TransactionFailure(ErrTransactionNotFound));
      }
      r := Success(ToResponse(found.value));
    }

    /** `GetByContractNumber`: a missing contract is `ErrTransactionNotFound`. */
    method GetByContractNumber(contractNumber: string) returns (r: Result<TransactionResponse, Error>)
      requires Valid()
      ensures r.Failure? <==> forall i :: 0 <= i < |transactionRepo.transactions| ==>
                                transactionRepo.transactions[i].contractNumber != contractNumber
      ensures r.Failure? ==> r.error == TransactionFailure(ErrTransactionNotFound)
      ensures r.Success? ==> r.value.transaction in transactionRepo.transactions &&
                             r.value.transaction.contractNumber == contractNumber &&
                             Shows(r.value, r.value.transaction, transactionRepo.details)
    {
      var found := transactionRepo.GetByContractNumber(contractNumber);
      if found.None? {
        return Failure(TransactionFailure(ErrTransactionNotFound));
      }
      r := Success(ToResponse(found.value));
    }

    /** `GetAllByCustomerID`: validates the filter, pages the customer's contracts and maps
        each to its response. */
    method GetAllByCustomerID(customerId: Uuid, filter: TransactionFilterRequest)
      returns (responses: seq<TransactionResponse>, count: nat, err: Option<Error>)
      requires Valid()
      ensures ValidateFilter(filter) != [] ==> err == Some(ValidationFailed(ValidateFilter(filter))) && responses == [] && count == 0
      ensures ValidateFilter(filter) == [] ==>
                && err == None
                && count == |CustomerContracts(transactionRepo.transactions, customerId, filter.status)|
                && |responses| <= filter.perPage
                && (var rows := Page(Newest(CustomerContracts(transactionRepo.transactions, customerId, filter.status)),
                                     filter.perPage, ToTransactionFilterRepo(filter).offset);
                    && |responses| == |rows|
                    && forall k :: 0 <= k < |responses| ==> Shows(responses[k], rows[k], transactionRepo.details))
                && forall k :: 0 <= k < |responses| ==>
                     responses[k].transaction in transactionRepo.transactions &&
                     Selected(responses[k].transaction, customerId, filter.status)
    {
      var errors := ValidateFilter(filter);
      if errors != [] {
        return [], 0, Some(ValidationFailed(errors));
      }
      var repoFilter := ToTransactionFilterRepo(filter);
      var page;
      page, count := transactionRepo.GetAllByCustomerID(customerId, repoFilter);
      responses := ToResponses(page);
      ghost var rows := Page(Newest(CustomerContracts(transactionRepo.transactions, customerId, filter.status)),
                             repoFilter.limit, repoFilter.offset);
      forall k | 0 <= k < |responses| ensures Shows(responses[k], rows[k], transactionRepo.details) {
        ToResponseShows(page[k], transactionRepo.details);
      }
      err := None;
    }

    /** `UpdateStatus`: an invalid status is refused before any lookup, a missing contract is
        `ErrTransactionNotFound`; otherwise only that contract's status changes. */
    method UpdateStatus(id: Uuid, status: string) returns (err: Option<Error>)
      requires Valid()
      modifies transactionRepo
      ensures Valid() && transactionRepo.details == old(transactionRepo.details)
      ensures !IsValidStatus(status) ==>
                err == Some(TransactionFailure(ErrInvalidStatus)) && transactionRepo.transactions == old(transactionRepo.transactions)
      ensures IsValidStatus(status) && !HasId(old(transactionRepo.transactions), id) ==>
                err == Some(TransactionFailure(ErrTransactionNotFound)) && transactionRepo.transactions == old(transactionRepo.transactions)
      ensures IsValidStatus(status) && HasId(old(transactionRepo.transactions), id) ==> err == None
      ensures |transactionRepo.transactions| == |old(transactionRepo.transactions)|
      ensures forall i :: 0 <= i < |transactionRepo.transactions| ==>
                transactionRepo.transactions[i] ==
                  if old(transactionRepo.transactions)[i].id == id && err.None? then old(transactionRepo.transactions)[i].(status := status)
                  else old(transactionRepo.transactions)[i]
    {
      if !IsValidStatus(status) {
        return Some(TransactionFailure(ErrInvalidStatus));
      }
      var found := transactionRepo.GetByID(id);
      if found.None? {
        return Some(TransactionFailure(ErrTransactionNotFound));
      }
      var e := transactionRepo.UpdateStatus(id, status);
      assert e.None?;
      err := None;
    }
  }
}
