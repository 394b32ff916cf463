/** The credit-limit service: request validation and the business checks in front of the
    credit-limit store. */
module CreditLimitService {
  import opened Common
  import opened CreditLimitEntity
  import opened Errors
  import opened CreditLimitRepository

  class Service {
    const repo: CreditLimitRepo

    constructor (repo: CreditLimitRepo)
      ensures this.repo == repo
    {
      this.repo := repo;
    }

    /** `Create`: validates, refuses a second limit for the same (customer, tenor), and inserts
        a row with nothing committed. A refused request inserts nothing, so creating limits
        through the service keeps the pairs unique. `id` stands for the fresh `uuid.New()`. */
    method Create(req: CreateCreditLimitRequest, id: Uuid) returns (r: Result<CreditLimit, Error>)
      requires repo.Valid()
      modifies repo
      ensures repo.Valid()
      ensures Validate(req) != [] ==> r == Failure(ValidationFailed(Validate(req))) && repo.rows == old(repo.rows)
      ensures Validate(req) == [] && (exists k :: k in old(repo.rows) && Matches(old(repo.rows)[k], req.customerId, req.tenorMonth)) ==>
                r == Failure(CreditLimitFailure(ErrDuplicateCreditLimit)) && repo.rows == old(repo.rows)
      ensures r.Success? ==>
                && Validate(req) == []
                && r.value == CreditLimit(id, req.customerId, req.tenorMonth, req.limitAmount, 0.0)
                && id !in old(repo.rows)
                && repo.rows == old(repo.rows)[id := r.value]
      ensures r.Failure? ==> repo.rows == old(repo.rows)
      ensures (Validate(req) == [] && id !in old(repo.rows) &&
               forall k :: k in old(repo.rows) ==> !Matches(old(repo.rows)[k], req.customerId, req.tenorMonth)) ==> r.Success?
      ensures UniquePairs(old(repo.rows)) ==> UniquePairs(repo.rows)
      ensures Bounded(old(repo.rows)) ==> Bounded(repo.rows)
      ensures NonNegative(old(repo.rows)) ==> NonNegative(repo.rows)
    {
      var errors := Validate(req);
      if errors != [] {
        return Failure(ValidationFailed(errors));
      }
      var existing := repo.GetByCustomerIDAndTenor(req.customerId, req.tenorMonth);
      if existing.Some? {
        return Failure(CreditLimitFailure(ErrDuplicateCreditLimit));
      }
      var limit := CreditLimit(id, req.customerId, req.tenorMonth, req.limitAmount, 0.0);
      var err := repo.Create(limit);
      if err.Some? {
        return Failure(Wrapped("failed to create credit limit", err.value));
      }
      r := Success(limit);
    }

    /** `GetByID`: the row, or `ErrCreditLimitNotFound`. */
    method GetByID(id: Uuid) returns (r: Result<CreditLimit, Error>)
      requires repo.Valid()
      ensures r.Success? <==> id in repo.rows
      ensures r.Success? ==> r.value == repo.rows[id]
      ensures r.Failure? ==> r.error == CreditLimitFailure(ErrCreditLimitNotFound)
    {
      var limit := repo.GetByID(id);
      if limit.None? {
        return Failure(CreditLimitFailure(ErrCreditLimitNotFound));
      }
      r := Success(limit.value);
    }

    /** `GetByCustomerIDAndTenor`: refuses a tenor outside {1, 2, 3, 6} before any lookup, then
        returns a row of the pair or `ErrCreditLimitNotFound`. */
    method GetByCustomerIDAndTenor(customerId: Uuid, tenorMonth: int) returns (r: Result<CreditLimit, Error>)
      requires repo.Valid()
      ensures !IsValidTenor(tenorMonth) ==> r == Failure(Message("invalid tenor month: must be 1, 2, 3, or 6"))
      ensures IsValidTenor(tenorMonth) && (forall k :: k in repo.rows ==> !Matches(repo.rows[k], customerId, tenorMonth)) ==>
                r == Failure(CreditLimitFailure(ErrCreditLimitNotFound))
      ensures r.Success? ==> IsValidTenor(tenorMonth) && r.value.id in repo.rows && repo.rows[r.value.id] == r.value &&
                             Matches(r.value, customerId, tenorMonth)
      ensures IsValidTenor(tenorMonth) && (exists k :: k in repo.rows && Matches(repo.rows[k], customerId, tenorMonth)) ==> r.Success?
    {
      if !IsValidTenor(tenorMonth) {
        return Failure(Message("invalid tenor month: must be 1, 2, 3, or 6"));
      }
      var limit := repo.GetByCustomerIDAndTenor(customerId, tenorMonth);
      if limit.None? {
        return Failure(CreditLimitFailure(ErrCreditLimitNotFound));
      }
      r := Success(limit.value);
    }

    /** `GetAllByCustomerID`: every limit of the customer, once each, ascending by tenor; a
        customer without limits gets an empty list, not an error. */
    method GetAllByCustomerID(customerId: Uuid) returns (limits: seq<CreditLimit>)
      requires repo.Valid()
      ensures Lists(repo.rows, LimitIdsOf(repo.rows, customerId), limits) && SortedByTenor(limits)
      ensures (forall k :: k in repo.rows ==> repo.rows[k].customerId != customerId) ==> limits == []
    {
      limits := repo.GetAllByCustomerID(customerId);
      assert (forall k :: k in repo.rows ==> repo.rows[k].customerId != customerId) ==> LimitIdsOf(repo.rows, customerId) == {};
    }

    /** `Delete`: `ErrCreditLimitNotFound` for a missing row, `ErrCreditLimitInUse` for a row with
        a committed amount; otherwise exactly that row is removed. */
    method Delete(id: Uuid) returns (err: Option<Error>)
      requires repo.Valid()
      modifies repo
      ensures repo.Valid()
      ensures id !in old(repo.rows) ==> err == Some(CreditLimitFailure(ErrCreditLimitNotFound)) && repo.rows == old(repo.rows)
      ensures id in old(repo.rows) && old(repo.rows)[id].usedAmount > 0.0 ==>
                err == Some(CreditLimitFailure(ErrCreditLimitInUse)) && repo.rows == old(repo.rows)
      ensures id in old(repo.rows) && old(repo.rows)[id].usedAmount <= 0.0 ==> err == None && repo.rows == old(repo.rows) - {id}
    {
      var limit := repo.GetByID(id);
      if limit.None? {
        return Some(CreditLimitFailure(ErrCreditLimitNotFound));
      }
      if limit.value.usedAmount > 0.0 {
        return Some(CreditLimitFailure(ErrCreditLimitInUse));
      }
      var e := repo.Delete(id);
      // The store repeats both checks on the same snapshot, so it cannot refuse here; only a
      // database failure, which is not modelled, reaches the "failed to delete" path.
      assert e.None?;
      err := None;
    }

    /** `UpdateUsedAmount`: zero is a no-op; a missing row is `ErrCreditLimitNotFound`; a release
        that would take `used` below zero and a charge beyond the limit are refused before the
        store is called. Every outcome keeps `0 <= used <= limit` on every row. */
    method UpdateUsedAmount(id: Uuid, amount: real) returns (err: Option<Error>)
      requires repo.Valid()
      modifies repo
      ensures repo.Valid()
      ensures amount == 0.0 ==> err == None && repo.rows == old(repo.rows)
      ensures amount != 0.0 && id !in old(repo.rows) ==> err == Some(CreditLimitFailure(ErrCreditLimitNotFound))
      ensures amount < 0.0 && id in old(repo.rows) && old(repo.rows)[id].usedAmount + amount < 0.0 ==>
                err == Some(Message("invalid amount: would result in negative used amount"))
      ensures amount > 0.0 && id in old(repo.rows) && old(repo.rows)[id].usedAmount + amount > old(repo.rows)[id].limitAmount ==>
                err == Some(CreditLimitFailure(ErrInsufficientCreditLimit))
      ensures err.Some? ==> repo.rows == old(repo.rows)
      ensures err.None? && amount != 0.0 ==> 
                Charge(old(repo.rows), id, amount).Some? && repo.rows == Charge(old(repo.rows), id, amount).value
      ensures err.None? <==> amount == 0.0 || (Charge(old(repo.rows), id, amount).Some? && 0.0 <= old(repo.rows)[id].usedAmount + amount) ||
                             (Charge(old(repo.rows), id, amount).Some? && amount > 0.0)
      ensures Bounded(old(repo.rows)) ==> Bounded(repo.rows)
      ensures NonNegative(old(repo.rows)) ==> NonNegative(repo.rows)
    {
      if amount == 0.0 {
        return None;
      }
      var limit := repo.GetByID(id);
      if limit.None? {
        return Some(CreditLimitFailure(ErrCreditLimitNotFound));
      }
      if amount < 0.0 {
        if limit.value.usedAmount + amount < 0.0 {
          return Some(Message("invalid amount: would result in negative used amount"));
        }
      }
      if amount > 0.0 {
        if limit.value.usedAmount + amount > limit.value.limitAmount {
          return Some(CreditLimitFailure(ErrInsufficientCreditLimit));
        }
      }
      var e := repo.UpdateUsedAmount(id, amount);
      if e.Some? {
        return Some(Wrapped("failed to update credit limit used amount", e.value));
      }
      ChargePreserves(old(repo.rows), id, amount);
      err := None;
    }
  }
}
