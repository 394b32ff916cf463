/** The contract store: contracts and their installment rows, and the atomic issuance step
    that also commits the credit limit. */
module TransactionRepository {
  import opened Common
  import opened Clock
  import opened Paging
  import opened TransactionEntity
  import opened Errors
  import opened CreditLimitRepository

  /** `s` is the schedule `generateInstallments` builds for `t` when the clock reads `start`
      and `ids` are the fresh installment ids: one pending entry per month of the tenor, the
      `i`-th numbered `i + 1`, due `i + 1` months after `start`, each for the contract's
      monthly installment. */
  predicate IsSchedule(t: Transaction, start: Instant, ids: seq<Uuid>, s: seq<TransactionDetail>) {
    && |s| == t.tenorMonth
    && |ids| == |s|
    && forall i :: 0 <= i < |s| ==>
         s[i] == TransactionDetail(ids[i], t.id, i + 1, t.installmentAmount, AddMonths(start, i + 1), DetailPending)
  }

  /** `after` is `before` with the schedule of `t` (as `IsSchedule` describes it) appended and
      nothing else changed: the installment rows one issuance inserts. */
  predicate AppendsSchedule(before: seq<TransactionDetail>, after: seq<TransactionDetail>,
                            t: Transaction, start: Instant, ids: seq<Uuid>) {
    && |before| <= |after|
    && after[..|before|] == before
    && IsSchedule(t, start, ids, after[|before|..])
  }

  /** `generateInstallments`: fills an array of `TenorMonth` entries, advancing a running due
      date by one month before each entry. */
  method GenerateInstallments(t: Transaction, start: Instant, ids: seq<Uuid>) returns (s: seq<TransactionDetail>)
    requires t.tenorMonth >= 0 && |ids| == t.tenorMonth
    ensures IsSchedule(t, start, ids, s)
  {
    var installments := new TransactionDetail[t.tenorMonth];
    var dueDate := start;
    var i := 0;
    while i < t.tenorMonth
      invariant 0 <= i <= t.tenorMonth
      invariant dueDate == AddMonths(start, i)
      invariant forall j :: 0 <= j < i ==>
                  installments[j] == TransactionDetail(ids[j], t.id, j + 1, t.installmentAmount, AddMonths(start, j + 1), DetailPending)
    {
      dueDate := AddMonth(dueDate);
      installments[i] := TransactionDetail(ids[i], t.id, i + 1, t.installmentAmount, dueDate, DetailPending);
      i := i + 1;
    }
    s := installments[..];
  }

  /** What the installments of a schedule add up to. */
  function TotalDue(s: seq<TransactionDetail>): real {
    if s == [] then 0.0 else s[0].amount + TotalDue(s[1..])
  }

  /** Every entry is due one month after the previous one (the first one month after the
      start), they are numbered 1..tenor, and together they repay `tenor` installments. */
  lemma {:induction false} ScheduleFacts(t: Transaction, start: Instant, ids: seq<Uuid>, s: seq<TransactionDetail>)
    requires IsSchedule(t, start, ids, s)
    ensures forall i :: 0 <= i < |s| ==> MonthIndex(s[i].dueDate) == MonthIndex(start) + i + 1
    ensures forall i :: 0 < i < |s| ==> s[i].dueDate == AddMonth(s[i - 1].dueDate)
    ensures forall i :: 0 <= i < |s| ==> s[i].installmentNumber == i + 1 && s[i].transactionId == t.id
    ensures TotalDue(s) == t.installmentAmount * (t.tenorMonth as real)
  {
    forall i | 0 <= i < |s| ensures MonthIndex(s[i].dueDate) == MonthIndex(start) + i + 1 {
      AddMonthsIndex(start, i + 1);
    }
    TotalOfEqual(s, t.installmentAmount);
  }

  lemma {:induction false} TotalOfEqual(s: seq<TransactionDetail>, amount: real)
    requires forall i :: 0 <= i < |s| ==> s[i].amount == amount
    ensures TotalDue(s) == amount * (|s| as real)
  {
    if s != [] {
      TotalOfEqual(s[1..], amount);
    }
  }

  /** A contract as a lookup returns it, with the installment row its has-one association
      loads (nil when the contract has none). */
  datatype Loaded = Loaded(transaction: Transaction, detail: Option<TransactionDetail>)

  predicate UniqueIds(ts: seq<Transaction>) {
    forall i, j :: 0 <= i < |ts| && 0 <= j < |ts| && ts[i].id == ts[j].id ==> i == j
  }

  predicate HasId(ts: seq<Transaction>, id: Uuid) {
    exists i :: 0 <= i < |ts| && ts[i].id == id
  }

  /** A limit row of the contract's customer and tenor exists, and every such row has room
      for the contract's OTR amount: the repository's capacity check cannot fail. */
  predicate LimitFits(rows: Table, t: Transaction) {
    && (exists k :: k in rows && Matches(rows[k], t.customerId, t.tenorMonth))
    && forall k :: k in rows && Matches(rows[k], t.customerId, t.tenorMonth) ==>
         rows[k].usedAmount + t.otrAmount <= rows[k].limitAmount
  }

  /** The contract store; `limits` is the credit-limit table of the same database. */
  class TransactionRepo {
    var transactions: seq<Transaction>
    var details: seq<TransactionDetail>
    const limits: CreditLimitRepo

    ghost predicate Valid()
      reads this, limits
    {
      limits.Valid() && UniqueIds(transactions)
    }

    constructor (limits: CreditLimitRepo)
      requires limits.Valid()
      ensures Valid() && this.limits == limits && transactions == [] && details == []
    {
      this.limits := limits;
      transactions := [];
      details := [];
    }

    /** `Create`, one database transaction: find a limit row of the contract's customer and
        tenor, refuse when `used + OTRAmount` would exceed its limit, insert the contract and
        its schedule, and add `OTRAmount` (not the total) to the row's `used`. Any failure
        rolls everything back. `now` is the clock reading and `detailIds` the fresh ids of
        the installment rows. */
    method Create(t: Transaction, now: Instant, detailIds: seq<Uuid>) returns (err: Option<Error>)
      requires Valid()
      requires t.tenorMonth >= 0 && |detailIds| == t.tenorMonth
      modifies this, limits
      ensures Valid()
      ensures err.Some? ==> transactions == old(transactions) && details == old(details) && limits.rows == old(limits.rows)
      ensures NonNegative(old(limits.rows)) && t.otrAmount >= 0.0 ==> NonNegative(limits.rows)
      ensures (forall k :: k in old(limits.rows) ==> !Matches(old(limits.rows)[k], t.customerId, t.tenorMonth)) ==>
                err == Some(Wrapped("failed to get credit limit", RecordNotFound))
      ensures UniquePairs(old(limits.rows)) ==>
                forall k :: k in old(limits.rows) && Matches(old(limits.rows)[k], t.customerId, t.tenorMonth) &&
                            old(limits.rows)[k].usedAmount + t.otrAmount > old(limits.rows)[k].limitAmount ==>
                  err == Some(Insufficient(old(limits.rows)[k].limitAmount - old(limits.rows)[k].usedAmount, t.otrAmount))
      ensures LimitFits(old(limits.rows), t) ==>
                err == if HasId(old(transactions), t.id) then Some(Wrapped("failed to create transaction", DuplicateKey))
                       else if t.tenorMonth == 0 then Some(Wrapped("failed to create transaction details", EmptySlice))
                       else None
      ensures err.None? ==>
                && !HasId(old(transactions), t.id)
                && t.tenorMonth > 0
                && transactions == old(transactions) + [t]
                && AppendsSchedule(old(details), details, t, now, detailIds)
                && exists k :: k in old(limits.rows) && Matches(old(limits.rows)[k], t.customerId, t.tenorMonth) &&
                               Charge(old(limits.rows), k, t.otrAmount) == Some(limits.rows)
    {
      var limit := limits.GetByCustomerIDAndTenor(t.customerId, t.tenorMonth);
      if limit.None? {
        return Some(Wrapped("failed to get credit limit", RecordNotFound));
      }
      var row := limit.value;
      if row.usedAmount + t.otrAmount > row.limitAmount {
        return Some(Insufficient(row.limitAmount - row.usedAmount, t.otrAmount));
      }
      if exists i :: 0 <= i < |transactions| && transactions[i].id == t.id {
        return Some(Wrapped("failed to create transaction", DuplicateKey));
      }
      var installments := GenerateInstallments(t, now, detailIds);
      if installments == [] {
        return Some(Wrapped("failed to create transaction details", EmptySlice));
      }
      var oldTransactions := transactions;
      transactions := transactions + [t];
      assert UniqueIds(transactions) by {
        forall i, j | 0 <= i < |transactions| && 0 <= j < |transactions| && transactions[i].id == transactions[j].id
          ensures i == j
        {
          if i < |oldTransactions| && j < |oldTransactions| {
            assert oldTransactions[i].id == oldTransactions[j].id;
          }
        }
      }
      details := details + installments;
      assert details[|old(details)|..] == installments;
      var e := limits.UpdateUsedAmount(row.id, t.otrAmount);
      assert e.None?;
      ChargePreserves(old(limits.rows), row.id, t.otrAmount);
      err := None;
    }

    /** `GetByID`: the contract with that id and one of its installment rows, or nil. */
    method GetByID(id: Uuid) returns (r: Option<Loaded>)
      requires Valid()
      ensures r.None? <==> !HasId(transactions, id)
      ensures r.Some? ==> r.value.transaction in transactions && r.value.transaction.id == id
      ensures r.Some? ==> LoadsDetail(r.value, details)
    {
      if exists i :: 0 <= i < |transactions| && transactions[i].id == id {
        var i :| 0 <= i < |transactions| && transactions[i].id == id;
        var d := DetailOf(id);
        r := Some(Loaded(transactions[i], d));
      } else {
        r := None;
      }
    }

    /** `GetByContractNumber`: a contract with that number and one of its installment rows, or nil. */
    method GetByContractNumber(contractNumber: string) returns (r: Option<Loaded>)
      requires Valid()
      ensures r.None? <==> forall i :: 0 <= i < |transactions| ==> transactions[i].contractNumber != contractNumber
      ensures r.Some? ==> r.value.transaction in transactions && r.value.transaction.contractNumber == contractNumber
      ensures r.Some? ==> LoadsDetail(r.value, details)
    {
      if exists i :: 0 <= i < |transactions| && transactions[i].contractNumber == contractNumber {
        var i :| 0 <= i < |transactions| && transactions[i].contractNumber == contractNumber;
        var d := DetailOf(transactions[i].id);
        r := Some(Loaded(transactions[i], d));
      } else {
        r := None;
      }
    }

    /** The has-one preload: some installment row of the contract, nil when it has none. */
    method DetailOf(id: Uuid) returns (d: Option<TransactionDetail>)
      ensures d.None? <==> forall j :: 0 <= j < |details| ==> details[j].transactionId != id
      ensures d.Some? ==> d.value in details && d.value.transactionId == id
    {
      if exists j :: 0 <= j < |details| && details[j].transactionId == id {
        var j :| 0 <= j < |details| && details[j].transactionId == id;
        d := Some(details[j]);
      } else {
        d := None;
      }
    }

    /** `GetAllByCustomerID`: counts the customer's contracts (of the given status unless it is
        empty) before paging, then returns the requested page of them, newest first, each with
        one of its installment rows. */
    method GetAllByCustomerID(customerId: Uuid, filter: TransactionFilterRepository) returns (page: seq<Loaded>, count: nat)
      ensures count == |CustomerContracts(transactions, customerId, filter.status)|
      ensures var rows := Page(Newest(CustomerContracts(transactions, customerId, filter.status)), filter.limit, filter.offset);
              |page| == |rows| && forall k :: 0 <= k < |page| ==> page[k].transaction == rows[k] && LoadsDetail(page[k], details)
      ensures forall k :: 0 <= k < |page| ==> page[k].transaction in transactions && Selected(page[k].transaction, customerId, filter.status)
      ensures filter.limit >= 0 ==> |page| <= filter.limit
      ensures |page| <= count
    {
      var matching := CustomerContracts(transactions, customerId, filter.status);
      count := |matching|;
      var rows := Page(Newest(matching), filter.limit, filter.offset);
      PageOfNewest(matching, filter.limit, filter.offset);
      page := LoadDetails(rows);
    }

    /** Preloads the installment row of each listed contract, keeping the list's order. */
    method LoadDetails(rows: seq<Transaction>) returns (page: seq<Loaded>)
      ensures |page| == |rows|
      ensures forall k :: 0 <= k < |page| ==> page[k].transaction == rows[k] && LoadsDetail(page[k], details)
    {
      page := [];
      var k := 0;
      while k < |rows|
        invariant 0 <= k <= |rows| && |page| == k
        invariant forall j :: 0 <= j < k ==> page[j].transaction == rows[j] && LoadsDetail(page[j], details)
      {
        var d := DetailOf(rows[k].id);
        page := page + [Loaded(rows[k], d)];
        k := k + 1;
      }
    }

    /** `UpdateStatus`: a missing contract is an error; otherwise only that contract's status
        changes. */
    method UpdateStatus(id: Uuid, status: string) returns (err: Option<Error>)
      requires Valid()
      modifies this
      ensures Valid() && details == old(details)
      ensures !HasId(old(transactions), id) ==>
                err == Some(Wrapped("failed to get transaction", RecordNotFound)) && transactions == old(transactions)
      ensures HasId(old(transactions), id) ==> err == None
      ensures |transactions| == |old(transactions)|
      ensures forall i :: 0 <= i < |transactions| ==>
                transactions[i] == if old(transactions)[i].id == id && err.None? then old(transactions)[i].(status := status)
                                   else old(transactions)[i]
    {
      if !(exists i :: 0 <= i < |transactions| && transactions[i].id == id) {
        return Some(Wrapped("failed to get transaction", RecordNotFound));
      }
      var i :| 0 <= i < |transactions| && transactions[i].id == id;
      transactions := transactions[i := transactions[i].(status := status)];
      err := None;
    }
  }

  /** The detail a lookup loaded belongs to the loaded contract, and is missing only when the
      contract has no installment row. */
  predicate LoadsDetail(l: Loaded, details: seq<TransactionDetail>) {
    && (l.detail.None? <==> forall j :: 0 <= j < |details| ==> details[j].transactionId != l.transaction.id)
    && (l.detail.Some? ==> l.detail.value in details && l.detail.value.transactionId == l.transaction.id)
  }

  /** The WHERE clause of `GetAllByCustomerID`: the customer, and the status when one is given. */
  predicate Selected(t: Transaction, customerId: Uuid, status: string) {
    t.customerId == customerId && (status == "" || t.status == status)
  }

  /** The contracts `GetAllByCustomerID` selects, in insertion order. */
  function CustomerContracts(transactions: seq<Transaction>, customerId: Uuid, status: string): (r: seq<Transaction>)
    ensures forall t :: t in r <==> t in transactions && Selected(t, customerId, status)
  {
    Filter(transactions, (t: Transaction) => Selected(t, customerId, status))
  }
}
