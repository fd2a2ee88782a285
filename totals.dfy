/** `getTotalSales`, `getTotalFees`, `getLastItemDayDifference` and
    `countDifferentDays`: accumulator loops over the rows. Money is in
    integer cents, so the sums are exact and need no rounding. */
module Totals {
  import opened Seqs
  import opened Rows

  method GetTotalSales(data: seq<Row>) returns (total: int)
    ensures total == Sum(Prices(data))
  {
    total := 0;
    for i := 0 to |data|
      invariant total == Sum(Prices(data)[..i])
    {
      assert Prices(data)[..i + 1][..i] == Prices(data)[..i];
      total := total + data[i].price;
    }
    assert Prices(data)[..|data|] == Prices(data);
  }

  method GetTotalFees(data: seq<Row>) returns (total: int)
    ensures total == Sum(Fees(data))
  {
    total := 0;
    for i := 0 to |data|
      invariant total == Sum(Fees(data)[..i])
    {
      assert Fees(data)[..i + 1][..i] == Fees(data)[..i];
      total := total + data[i].fee;
    }
    assert Fees(data)[..|data|] == Fees(data);
  }

  lemma {:induction false} SumAppend(a: seq<int>, b: seq<int>)
    ensures Sum(a + b) == Sum(a) + Sum(b)
    decreases |b|
  {
    if b != [] {
      assert (a + b)[..|a + b| - 1] == a + b[..|b| - 1];
      SumAppend(a, b[..|b| - 1]);
    } else {
      assert a + b == a;
    }
  }

  /** The total of two tables put together is the sum of their totals. */
  lemma TotalsAppend(a: seq<Row>, b: seq<Row>)
    ensures Sum(Prices(a + b)) == Sum(Prices(a)) + Sum(Prices(b))
    ensures Sum(Fees(a + b)) == Sum(Fees(a)) + Sum(Fees(b))
  {
    assert Prices(a + b) == Prices(a) + Prices(b);
    assert Fees(a + b) == Fees(a) + Fees(b);
    SumAppend(Prices(a), Prices(b));
    SumAppend(Fees(a), Fees(b));
  }

  /** Whole days from the last row's timestamp to `now`, rounded down. The
      table must not be empty (the source reads its last row). */
  function LastItemDayDifference(data: seq<Row>, now: int): (days: int)
    requires |data| > 0
    ensures days * MsPerDay <= now - data[|data| - 1].date < days * MsPerDay + MsPerDay
  {
    (now - data[|data| - 1].date) / MsPerDay
  }

  /** For rows ordered newest-first the last row is the oldest, so no row
      lies more whole days before `now`. */
  lemma LastItemIsOldest(data: seq<Row>, now: int, i: nat)
    requires |data| > 0 && NewestFirstByTime(data) && i < |data|
    ensures (now - data[i].date) / MsPerDay <= LastItemDayDifference(data, now)
  {
    var d, di := LastItemDayDifference(data, now), (now - data[i].date) / MsPerDay;
    assert data[|data| - 1].date <= data[i].date;
    assert di * MsPerDay < (d + 1) * MsPerDay;
  }

  /** Number of different UTC days among the rows' dates. */
  function DifferentDays(data: seq<Row>): nat {
    |Elements(Keys(data, Daily))|
  }

  method CountDifferentDays(data: seq<Row>) returns (n: nat)
    ensures n == DifferentDays(data)
  {
    ghost var ks := Keys(data, Daily);
    var uniqueDates: set<int> := {};
    for i := 0 to |data|
      invariant uniqueDates == Elements(ks[..i])
    {
      KeysAt(data, Daily, i);
      assert ks[..i + 1] == ks[..i] + [ks[i]];
      uniqueDates := uniqueDates + {DayNumber(data[i].date)};
    }
    assert ks[..|data|] == ks;
    n := |uniqueDates|;
  }

  /** There are no more days than rows, and at least one for a non-empty
      table. */
  lemma DifferentDaysBounds(data: seq<Row>)
    ensures DifferentDays(data) <= |data|
    ensures |data| > 0 ==> DifferentDays(data) >= 1
  {
    var ks := Keys(data, Daily);
    ElementsCardinality(ks);
  }

  /** One more row adds one day when its day is new, and nothing when a row
      of the same day is already there. */
  lemma DifferentDaysSnoc(data: seq<Row>, row: Row)
    ensures var seen := exists i :: 0 <= i < |data| && DayNumber(data[i].date) == DayNumber(row.date);
      DifferentDays(data + [row]) == DifferentDays(data) + (if seen then 0 else 1)
  {
    var ks, ks', day := Keys(data, Daily), Keys(data + [row], Daily), DayNumber(row.date);
    assert Elements(ks') == Elements(ks) + {day} by {
      assert (data + [row])[..|data|] == data;
      assert ks' == ks + [day];
    }
    var seen := exists i :: 0 <= i < |data| && DayNumber(data[i].date) == day;
    assert seen <==> day in Elements(ks) by {
      forall i | 0 <= i < |data| ensures ks[i] == DayNumber(data[i].date) {
        KeysAt(data, Daily, i);
      }
    }
  }
}
