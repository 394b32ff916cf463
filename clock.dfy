/** Calendar instants and the one calendar step the installment schedule uses. */
module Clock {

  /** A UTC instant. `day` and `second` (of the day) are carried along unchanged by month
      arithmetic; Go's normalisation of a day that the target month lacks is not modelled. */
  datatype Instant = Instant(year: int, month: int, day: int, second: int)

  /** Go's zero `time.Time`: January 1 of year 1, 00:00:00 UTC (what `IsZero` tests for). */
  const ZeroInstant: Instant := Instant(1, 1, 1, 0)

  predicate IsZero(t: Instant) {
    t == ZeroInstant
  }

  /** Months since the start of year 0; a month outside 1..12 counts as Go's `Date` would normalise it. */
  function MonthIndex(t: Instant): int {
    t.year * 12 + (t.month - 1)
  }

  /** `t.AddDate(0, 1, 0)`: the same day and time one calendar month later. */
  function AddMonth(t: Instant): (r: Instant)
    ensures MonthIndex(r) == MonthIndex(t) + 1
    ensures 1 <= r.month <= 12
    ensures r.day == t.day && r.second == t.second
  {
    var next := MonthIndex(t) + 1;
    Instant(next / 12, next % 12 + 1, t.day, t.second)
  }

  /** `t` advanced by `n` single-month steps, one after the other. */
  function AddMonths(t: Instant, n: nat): Instant {
    if n == 0 then t else AddMonth(AddMonths(t, n - 1))
  }

  /** Advancing `n` months one at a time lands exactly `n` months later, on the same day and time. */
  lemma {:induction false} AddMonthsIndex(t: Instant, n: nat)
    ensures MonthIndex(AddMonths(t, n)) == MonthIndex(t) + n
    ensures AddMonths(t, n).day == t.day && AddMonths(t, n).second == t.second
  {
    if n > 0 {
      AddMonthsIndex(t, n - 1);
    }
  }
}
