/** The credit-limit table: one row per (customer, tenor) limit, with `usedAmount` the part of
    `limitAmount` committed to contracts. */
module CreditLimitRepository {
  import opened Common
  import opened CreditLimitEntity
  import opened Errors

  /** The table, by primary key. */
  type Table = map<Uuid, CreditLimit>

  /** Every row is filed under its own id. */
  predicate Keyed(rows: Table) {
    forall id :: id in rows ==> rows[id].id == id
  }

  /** No row has committed more than its limit. */
  predicate Bounded(rows: Table) {
    forall id :: id in rows ==> rows[id].usedAmount <= rows[id].limitAmount
  }

  /** No row has a negative committed amount. */
  predicate NonNegative(rows: Table) {
    forall id :: id in rows ==> 0.0 <= rows[id].usedAmount
  }

  predicate Matches(row: CreditLimit, customerId: Uuid, tenorMonth: int) {
    row.customerId == customerId && row.tenorMonth == tenorMonth
  }

  /** At most one row per (customer, tenor) pair. */
  predicate UniquePairs(rows: Table) {
    forall a, b :: a in rows && b in rows && Matches(rows[a], rows[b].customerId, rows[b].tenorMonth) ==> a == b
  }

  /** The check-then-increment of `UpdateUsedAmount` on a snapshot of the table: `None` when
      the row is missing or `used + amount` would exceed its limit. */
  function Charge(rows: Table, id: Uuid, amount: real): (r: Option<Table>)
    ensures r.Some? <==> id in rows && rows[id].usedAmount + amount <= rows[id].limitAmount
    ensures r.Some? ==> r.value.Keys == rows.Keys
    ensures r.Some? ==> r.value[id].usedAmount <= r.value[id].limitAmount
    ensures r.Some? ==> forall other :: other in rows && other != id ==> r.value[other] == rows[other]
  {
    if id in rows && rows[id].usedAmount + amount <= rows[id].limitAmount then
      Some(rows[id := rows[id].(usedAmount := rows[id].usedAmount + amount)])
    else None
  }

  /** A successful charge changes nothing of the row but its committed amount, which grows by
      exactly `amount`, and keeps every table invariant; a non-negative committed amount stays
      non-negative unless the amount takes it below zero. */
  lemma ChargePreserves(rows: Table, id: Uuid, amount: real)
    requires Charge(rows, id, amount).Some?
    ensures var after := Charge(rows, id, amount).value;
            && after[id] == rows[id].(usedAmount := rows[id].usedAmount + amount)
            && (Keyed(rows) ==> Keyed(after))
            && (Bounded(rows) ==> Bounded(after))
            && (UniquePairs(rows) ==> UniquePairs(after))
            && (NonNegative(rows) && 0.0 <= rows[id].usedAmount + amount ==> NonNegative(after))
  {
    var after := Charge(rows, id, amount).value;
    assert forall x :: x in after ==> after[x].customerId == rows[x].customerId && after[x].tenorMonth == rows[x].tenorMonth;
  }

  /** Two successive charges of one row succeed exactly when they would succeed one after the
      other, and then equal one charge of the sum. */
  lemma ChargeTwice(rows: Table, id: Uuid, a: real, b: real)
    requires Charge(rows, id, a).Some?
    ensures Charge(Charge(rows, id, a).value, id, b).Some? <==> rows[id].usedAmount + a + b <= rows[id].limitAmount
    ensures Charge(Charge(rows, id, a).value, id, b).Some? ==>
              Charge(rows, id, a + b) == Charge(Charge(rows, id, a).value, id, b)
  {
    var r1 := Charge(rows, id, a).value;
    ChargePreserves(rows, id, a);
    if Charge(r1, id, b).Some? {
      var r2 := Charge(r1, id, b).value;
      ChargePreserves(r1, id, b);
      assert r2 == rows[id := rows[id].(usedAmount := rows[id].usedAmount + (a + b))];
    }
  }

  /** The ids of the rows of one customer. */
  function LimitIdsOf(rows: Table, customerId: Uuid): set<Uuid> {
    set id | id in rows && rows[id].customerId == customerId
  }

  /** Ascending by tenor, as `ORDER BY tenor_month ASC` returns rows. */
  predicate SortedByTenor(limits: seq<CreditLimit>) {
    forall i, j :: 0 <= i < j < |limits| ==> limits[i].tenorMonth <= limits[j].tenorMonth
  }

  /** Places `x` in a list behind the leading rows of smaller tenor. */
  function InsertByTenor(limits: seq<CreditLimit>, x: CreditLimit): (r: seq<CreditLimit>)
    ensures multiset(r) == multiset(limits) + multiset{x}
    ensures |r| == |limits| + 1
  {
    if limits == [] || x.tenorMonth <= limits[0].tenorMonth then [x] + limits
    else
      assert limits == [limits[0]] + limits[1..];
      [limits[0]] + InsertByTenor(limits[1..], x)
  }

  /** Inserting into a tenor-sorted list keeps it sorted. */
  lemma {:induction false} InsertKeepsSorted(limits: seq<CreditLimit>, x: CreditLimit)
    requires SortedByTenor(limits)
    ensures SortedByTenor(InsertByTenor(limits, x))
  {
    if !(limits == [] || x.tenorMonth <= limits[0].tenorMonth) {
      var rest := InsertByTenor(limits[1..], x);
      InsertKeepsSorted(limits[1..], x);
      forall k | 0 <= k < |rest| ensures limits[0].tenorMonth <= rest[k].tenorMonth {
        assert rest[k] in multiset(limits[1..]) + multiset{x};
      }
      SortedCons(limits[0], rest);
    }
  }

  /** A row no later in tenor than any row of a sorted list can go in front of it. */
  lemma SortedCons(head: CreditLimit, rest: seq<CreditLimit>)
    requires SortedByTenor(rest)
    requires forall k :: 0 <= k < |rest| ==> head.tenorMonth <= rest[k].tenorMonth
    ensures SortedByTenor([head] + rest)
  {
    var r := [head] + rest;
    assert forall k :: 0 < k < |r| ==> r[k] == rest[k - 1];
  }

  /** `limits` holds the rows of `ids`, each exactly once. */
  predicate Lists(rows: Table, ids: set<Uuid>, limits: seq<CreditLimit>) {
    && |limits| == |ids|
    && (forall k :: 0 <= k < |limits| ==> limits[k].id in ids && limits[k].id in rows && rows[limits[k].id] == limits[k])
    && (forall id :: id in ids ==> id in rows && rows[id] in limits)
  }

  /** Inserting the row of one more id keeps the list exact. */
  lemma ListsInsert(rows: Table, ids: set<Uuid>, limits: seq<CreditLimit>, id: Uuid)
    requires Lists(rows, ids, limits) && id in rows && id !in ids && rows[id].id == id
    ensures Lists(rows, ids + {id}, InsertByTenor(limits, rows[id]))
  {
    var r := InsertByTenor(limits, rows[id]);
    forall k | 0 <= k < |r| ensures r[k].id in ids + {id} && r[k].id in rows && rows[r[k].id] == r[k] {
      assert r[k] in multiset(limits) + multiset{rows[id]};
    }
    forall d | d in ids + {id} ensures d in rows && rows[d] in r {
      if d != id {
        assert rows[d] in multiset(limits);
      }
      assert rows[d] in multiset(r);
    }
  }

  /** The credit-limit store. */
  class CreditLimitRepo {
    var rows: Table

    ghost predicate Valid()
      reads this
    {
      Keyed(rows)
    }

    constructor ()
      ensures Valid() && rows == map[]
    {
      rows := map[];
    }

    /** `Create`: inserts the row; the database refuses an id that is already taken. */
    method Create(limit: CreditLimit) returns (err: Option<Error>)
      requires Valid()
      modifies this
      ensures Valid()
      ensures limit.id in old(rows) ==> err == Some(Wrapped("failed to create credit limit", DuplicateKey)) && rows == old(rows)
      ensures limit.id !in old(rows) ==> err == None && rows == old(rows)[limit.id := limit]
    {
      if limit.id in rows {
        return Some(Wrapped("failed to create credit limit", DuplicateKey));
      }
      rows := rows[limit.id := limit];
      err := None;
    }

    /** `GetByID`: the row with that id, or nil. */
    method GetByID(id: Uuid) returns (r: Option<CreditLimit>)
      requires Valid()
      ensures r.Some? <==> id in rows
      ensures r.Some? ==> r.value == rows[id] && r.value.id == id
    {
      if id in rows {
        r := Some(rows[id]);
      } else {
        r := None;
      }
    }

    /** `GetByCustomerIDAndTenor`: the first row the database finds for the pair, or nil when
        there is none. Which row is first is not specified, so any matching row may come back;
        with unique pairs it is the only one. */
    method GetByCustomerIDAndTenor(customerId: Uuid, tenorMonth: int) returns (r: Option<CreditLimit>)
      requires Valid()
      ensures r.None? <==> forall id :: id in rows ==> !Matches(rows[id], customerId, tenorMonth)
      ensures r.Some? ==> r.value.id in rows && rows[r.value.id] == r.value && Matches(r.value, customerId, tenorMonth)
      ensures r.Some? && UniquePairs(rows) ==>
                forall id :: id in rows && Matches(rows[id], customerId, tenorMonth) ==> id == r.value.id
    {
      if exists id :: id in rows && Matches(rows[id], customerId, tenorMonth) {
        var id :| id in rows && Matches(rows[id], customerId, tenorMonth);
        r := Some(rows[id]);
      } else {
        r := None;
      }
    }

    /** `GetAllByCustomerID`: every row of the customer, each once, ascending by tenor (rows
        of equal tenor come in an order the database chooses). */
    method GetAllByCustomerID(customerId: Uuid) returns (limits: seq<CreditLimit>)
      requires Valid()
      ensures Lists(rows, LimitIdsOf(rows, customerId), limits)
      ensures SortedByTenor(limits)
    {
      var remaining := LimitIdsOf(rows, customerId);
      ghost var all := remaining;
      ghost var done: set<Uuid> := {};
      limits := [];
      while remaining != {}
        invariant remaining !! done && remaining + done == all && all <= rows.Keys
        invariant Lists(rows, done, limits) && SortedByTenor(limits)
        decreases |remaining|
      {
        var id :| id in remaining;
        ListsInsert(rows, done, limits, id);
        InsertKeepsSorted(limits, rows[id]);
        limits := InsertByTenor(limits, rows[id]);
        remaining := remaining - {id};
        done := done + {id};
      }
    }

    /** `UpdateUsedAmount`: in one database transaction, looks the row up, refuses when
        `used + amount` would exceed the limit, and otherwise adds `amount` to `used`.
        A refusal leaves the table as it was. */
    method UpdateUsedAmount(id: Uuid, amount: real) returns (err: Option<Error>)
      requires Valid()
      modifies this
      ensures Valid()
      ensures err.None? <==> Charge(old(rows), id, amount).Some?
      ensures rows == if err.None? then Charge(old(rows), id, amount).value else old(rows)
      ensures id !in old(rows) ==> err == Some(Wrapped("failed to get credit limit for update", RecordNotFound))
      ensures id in old(rows) && old(rows)[id].usedAmount + amount > old(rows)[id].limitAmount ==>
                err == Some(Insufficient(old(rows)[id].limitAmount - old(rows)[id].usedAmount, amount))
    {
      if id !in rows {
        return Some(Wrapped("failed to get credit limit for update", RecordNotFound));
      }
      var limit := rows[id];
      if limit.usedAmount + amount > limit.limitAmount {
        return Some(Insufficient(limit.limitAmount - limit.usedAmount, amount));
      }
      limit := limit.(usedAmount := limit.usedAmount + amount);
      rows := rows[id := limit];
      ChargePreserves(old(rows), id, amount);
      err := None;
    }

    /** `Delete`: refuses a missing row and a row with a committed amount; otherwise removes
        exactly that row. */
    method Delete(id: Uuid) returns (err: Option<Error>)
      requires Valid()
      modifies this
      ensures Valid()
      ensures id !in old(rows) ==> err == Some(Message("credit limit not found")) && rows == old(rows)
      ensures id in old(rows) && old(rows)[id].usedAmount > 0.0 ==>
                err == Some(Message("cannot delete credit limit: limit is currently in use")) && rows == old(rows)
      ensures id in old(rows) && old(rows)[id].usedAmount <= 0.0 ==> err == None && rows == old(rows) - {id}
    {
      if id !in rows {
        return Some(Message("credit limit not found"));
      }
      var limit := rows[id];
      if limit.usedAmount > 0.0 {
        return Some(Message("cannot delete credit limit: limit is currently in use"));
      }
      rows := rows - {id};
      err := None;
    }
  }
}
