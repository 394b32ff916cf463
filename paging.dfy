/** Filtering, newest-first ordering and LIMIT/OFFSET slicing of query results. */
module Paging {

  /** The rows of `xs` that satisfy `keep`, in their original order (a WHERE clause). */
  function Filter<T(!new)>(xs: seq<T>, keep: T -> bool): (r: seq<T>)
    ensures |r| <= |xs|
    ensures forall x :: x in r <==> x in xs && keep(x)
    ensures forall k :: 0 <= k < |r| ==> keep(r[k])
  {
    if xs == [] then [] else (if keep(xs[0]) then [xs[0]] else []) + Filter(xs[1..], keep)
  }

  /** Tables are kept in insertion order, so ORDER BY created_at DESC is the reverse. */
  function Newest<T>(xs: seq<T>): (r: seq<T>)
    ensures |r| == |xs|
    ensures forall k :: 0 <= k < |xs| ==> r[k] == xs[|xs| - 1 - k]
  {
    if xs == [] then [] else Newest(xs[1..]) + [xs[0]]
  }

  /** The first row an OFFSET clause keeps: gorm emits OFFSET only for a positive offset. */
  function Start(offset: int): nat {
    if offset > 0 then offset else 0
  }

  /** LIMIT `limit` OFFSET `offset` as gorm emits them: a negative limit means no limit,
      LIMIT 0 returns nothing. */
  function Page<T>(xs: seq<T>, limit: int, offset: int): (r: seq<T>)
    ensures limit >= 0 ==> |r| <= limit
    ensures |r| == (var avail := if Start(offset) < |xs| then |xs| - Start(offset) else 0;
                    if 0 <= limit < avail then limit else avail)
    ensures forall k :: 0 <= k < |r| ==> Start(offset) + k < |xs| && r[k] == xs[Start(offset) + k]
  {
    var rest := if Start(offset) < |xs| then xs[Start(offset)..] else [];
    if 0 <= limit < |rest| then rest[..limit] else rest
  }

  /** A page of the newest-first rows holds rows of the table, and no more of them than the
      table has. */
  lemma PageOfNewest<T>(xs: seq<T>, limit: int, offset: int)
    ensures |Page(Newest(xs), limit, offset)| <= |xs|
    ensures forall k :: 0 <= k < |Page(Newest(xs), limit, offset)| ==> Page(Newest(xs), limit, offset)[k] in xs
  {
    var ys := Newest(xs);
    forall k | 0 <= k < |Page(ys, limit, offset)| ensures Page(ys, limit, offset)[k] in xs {
      assert Page(ys, limit, offset)[k] == ys[Start(offset) + k] == xs[|xs| - 1 - (Start(offset) + k)];
    }
  }

  /** Two consecutive pages of size `n` are the page of size `2n` starting at the first:
      pages never overlap and never skip a row. */
  lemma ConsecutivePages<T>(xs: seq<T>, n: nat, offset: nat)
    ensures Page(xs, n, offset) + Page(xs, n, offset + n) == Page(xs, n + n, offset)
  {
    var a, b, c := Page(xs, n, offset), Page(xs, n, offset + n), Page(xs, n + n, offset);
    assert |a + b| == |c|;
    forall k | 0 <= k < |c| ensures (a + b)[k] == c[k] {
      if k < |a| {
      } else {
        assert |a| == n;
        assert (a + b)[k] == b[k - n];
      }
    }
  }
}
