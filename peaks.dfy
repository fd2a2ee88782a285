/** `getMostExpensiveItem`, `getMostSalesInOneDay` and
    `getMostItemsSoldInOneDay`: running-maximum scans in which the first
    occurrence of the greatest value wins. The two daily scans walk the
    dense daily series but take their loop bound from the number of rows;
    reading past the end of the series compares `undefined > x`, which is
    false, so only the first `min(|data|, |series|)` days take part. */
module Peaks {
  import opened Seqs
  import opened Rows
  import opened Buckets

  /** `{ sales, date }`: a day's summed price (cents) and its day number. */
  datatype SalesPeak = SalesPeak(sales: int, date: int)

  /** `{ items, date }`: a day's number of rows and its day number. */
  datatype ItemsPeak = ItemsPeak(items: int, date: int)

  /** Position of the first greatest value among `v[0..n)`. */
  function FirstMax(v: seq<int>, n: nat): (m: nat)
    requires 0 < n <= |v|
    ensures m < n
    ensures forall j :: 0 <= j < n ==> v[j] <= v[m]
    ensures forall j :: 0 <= j < m ==> v[j] < v[m]
  {
    if n == 1 then 0
    else
      var m := FirstMax(v, n - 1);
      if v[n - 1] > v[m] then n - 1 else m
  }

  /** One more step of the scan. */
  lemma FirstMaxStep(v: seq<int>, n: nat)
    requires 0 < n < |v|
    ensures FirstMax(v, n + 1) == if v[n] > v[FirstMax(v, n)] then n else FirstMax(v, n)
  {
  }

  /** The three properties of `FirstMax` single out one position. */
  lemma FirstMaxUnique(v: seq<int>, n: nat, k: nat)
    requires 0 < n <= |v| && k < n
    requires forall j :: 0 <= j < n ==> v[j] <= v[k]
    requires forall j :: 0 <= j < k ==> v[j] < v[k]
    ensures k == FirstMax(v, n)
  {
  }

  /** `getMostExpensiveItem`: the first row of greatest price; `None`
      stands for the `undefined` read from an empty table. */
  method GetMostExpensiveItem(data: seq<Row>) returns (r: Option<Row>)
    ensures r.None? <==> |data| == 0
    ensures r.Some? ==> exists i :: (0 <= i < |data| && data[i] == r.value
      && (forall j :: 0 <= j < |data| ==> data[j].price <= r.value.price)
      && (forall j :: 0 <= j < i ==> data[j].price < r.value.price))
  {
    if |data| == 0 {
      return None;
    }
    ghost var ps := Prices(data);
    var mostExpensive := data[0];
    ghost var m := 0;
    for i := 1 to |data|
      invariant m == FirstMax(ps, i) && mostExpensive == data[m]
    {
      if data[i].price > mostExpensive.price {
        mostExpensive := data[i];
        m := i;
      }
    }
    assert data[m] == mostExpensive && forall j :: 0 <= j < |data| ==> ps[j] == data[j].price;
    r := Some(mostExpensive);
  }

  /** How many days of the series the daily scans look at. */
  function ScanBound(data: seq<Row>, s: Series): nat {
    if |data| < |s.dates| then |data| else |s.dates|
  }

  /** A non-empty series comes from a non-empty table, so the scans look
      at one day at least. */
  lemma ScanBoundPositive(data: seq<Row>)
    requires |DenseSeries(data, Daily).dates| > 0
    ensures 0 < ScanBound(data, DenseSeries(data, Daily)) <= |DenseSeries(data, Daily).dates|
  {
  }

  /** `getMostSalesInOneDay` as written: the first day of greatest summed
      price among the first `min(|data|, |series|)` days; `None` for an
      empty series (the source then returns `undefined` fields). */
  method GetMostSalesInOneDay(data: seq<Row>) returns (r: Option<SalesPeak>)
    ensures var s := DenseSeries(data, Daily);
      && (r.None? <==> |s.dates| == 0)
      && (r.Some? ==> (0 < ScanBound(data, s) &&
            var m := FirstMax(s.priceSums, ScanBound(data, s));
            r.value == SalesPeak(s.priceSums[m], s.dates[m])))
  {
    var dataDaily := GetPriceSumAndItemCount(data, Daily);
    if |dataDaily.dates| == 0 {
      return None;
    }
    ScanBoundPositive(data);
    var most := SalesPeak(dataDaily.priceSums[0], dataDaily.dates[0]);
    ghost var m := 0;
    for i := 1 to |data|
      invariant m == FirstMax(dataDaily.priceSums, if i < |dataDaily.dates| then i else |dataDaily.dates|)
      invariant most == SalesPeak(dataDaily.priceSums[m], dataDaily.dates[m])
    {
      if i < |dataDaily.priceSums| {
        FirstMaxStep(dataDaily.priceSums, i);
      }
      if i < |dataDaily.priceSums| && dataDaily.priceSums[i] > most.sales {
        most := SalesPeak(dataDaily.priceSums[i], dataDaily.dates[i]);
        m := i;
      }
    }
    r := Some(most);
  }

  /** `getMostItemsSoldInOneDay` as written: the first day with the most
      rows among the first `min(|data|, |series|)` days; `None` for an
      empty series. */
  method GetMostItemsSoldInOneDay(data: seq<Row>) returns (r: Option<ItemsPeak>)
    ensures var s := DenseSeries(data, Daily);
      && (r.None? <==> |s.dates| == 0)
      && (r.Some? ==> (0 < ScanBound(data, s) &&
            var m := FirstMax(s.itemCounts, ScanBound(data, s));
            r.value == ItemsPeak(s.itemCounts[m], s.dates[m])))
  {
    var dataDaily := GetPriceSumAndItemCount(data, Daily);
    if |dataDaily.dates| == 0 {
      return None;
    }
    ScanBoundPositive(data);
    var most := ItemsPeak(dataDaily.itemCounts[0], dataDaily.dates[0]);
    ghost var m := 0;
    for i := 1 to |data|
      invariant m == FirstMax(dataDaily.itemCounts, if i < |dataDaily.dates| then i else |dataDaily.dates|)
      invariant most == ItemsPeak(dataDaily.itemCounts[m], dataDaily.dates[m])
    {
      if i < |dataDaily.itemCounts| {
        FirstMaxStep(dataDaily.itemCounts, i);
      }
      if i < |dataDaily.itemCounts| && dataDaily.itemCounts[i] > most.items {
        most := ItemsPeak(dataDaily.itemCounts[i], dataDaily.dates[i]);
        m := i;
      }
    }
    r := Some(most);
  }

  /** The day of greatest summed price over the whole daily series: what
      `getMostSalesInOneDay` is meant to return. */
  function MostSalesInOneDay(data: seq<Row>): (r: Option<SalesPeak>)
    ensures var s := DenseSeries(data, Daily);
      && (r.None? <==> |s.dates| == 0)
      && (r.Some? ==> exists m :: (0 <= m < |s.dates| && r.value == SalesPeak(s.priceSums[m], s.dates[m])
            && (forall j :: 0 <= j < |s.dates| ==> s.priceSums[j] <= r.value.sales)
            && (forall j :: 0 <= j < m ==> s.priceSums[j] < r.value.sales)))
  {
    var s := DenseSeries(data, Daily);
    if |s.dates| == 0 then None
    else
      var m := FirstMax(s.priceSums, |s.priceSums|);
      Some(SalesPeak(s.priceSums[m], s.dates[m]))
  }

  /** The day with the most rows over the whole daily series: what
      `getMostItemsSoldInOneDay` is meant to return. */
  function MostItemsSoldInOneDay(data: seq<Row>): (r: Option<ItemsPeak>)
    ensures var s := DenseSeries(data, Daily);
      && (r.None? <==> |s.dates| == 0)
      && (r.Some? ==> exists m :: (0 <= m < |s.dates| && r.value == ItemsPeak(s.itemCounts[m], s.dates[m])
            && (forall j :: 0 <= j < |s.dates| ==> s.itemCounts[j] <= r.value.items)
            && (forall j :: 0 <= j < m ==> s.itemCounts[j] < r.value.items)))
  {
    var s := DenseSeries(data, Daily);
    if |s.dates| == 0 then None
    else
      var m := FirstMax(s.itemCounts, |s.itemCounts|);
      Some(ItemsPeak(s.itemCounts[m], s.dates[m]))
  }

  /** For newest-first rows no row's day sells more than the intended
      peak. */
  lemma MostSalesBoundsEveryRowDay(data: seq<Row>, j: nat)
    requires |data| > 0 && NewestFirst(data, Daily) && j < |data|
    ensures var k := Keys(data, Daily)[j];
      MostSalesInOneDay(data).Some? && BucketOf(data, Daily, k).priceSum <= MostSalesInOneDay(data).value.sales
  {
    EveryRowInOneBucket(data, Daily, j);
    var s, k := DenseSeries(data, Daily), Keys(data, Daily)[j];
    var i := k - s.dates[0];
    assert s.priceSums[i] == BucketOf(data, Daily, k).priceSum;
  }

  /** For newest-first rows no row's day holds more rows than the intended
      peak. */
  lemma MostItemsBoundsEveryRowDay(data: seq<Row>, j: nat)
    requires |data| > 0 && NewestFirst(data, Daily) && j < |data|
    ensures var k := Keys(data, Daily)[j];
      MostItemsSoldInOneDay(data).Some? && Count(Keys(data, Daily), k) <= MostItemsSoldInOneDay(data).value.items
  {
    EveryRowInOneBucket(data, Daily, j);
    var s, k := DenseSeries(data, Daily), Keys(data, Daily)[j];
    var i := k - s.dates[0];
    BucketsCountRows(data, Daily, i);
    var most := MostItemsSoldInOneDay(data);
    assert s.itemCounts[i] <= most.value.items;
  }

  /** When the series is no longer than the table (the days have no gaps
      beyond the number of rows), the scans as written return the intended
      peaks. */
  lemma ScansAgreeWhenSeriesFits(data: seq<Row>)
    requires |DenseSeries(data, Daily).dates| <= |data|
    ensures var s := DenseSeries(data, Daily);
      |s.dates| > 0 ==>
        && ScanBound(data, s) == |s.dates|
        && MostSalesInOneDay(data) == Some(SalesPeak(s.priceSums[FirstMax(s.priceSums, ScanBound(data, s))], s.dates[FirstMax(s.priceSums, ScanBound(data, s))]))
        && MostItemsSoldInOneDay(data) == Some(ItemsPeak(s.itemCounts[FirstMax(s.itemCounts, ScanBound(data, s))], s.dates[FirstMax(s.itemCounts, ScanBound(data, s))]))
  {
  }

  /** The rows of the counterexample below: two on day 3, one on day 0,
      newest first. */
  function GapExample(): seq<Row> {
    [Row("a", 3 * MsPerDay, 400, 0), Row("b", 3 * MsPerDay, 500, 0), Row("c", 0, 100, 0)]
  }

  lemma GapExampleKeys()
    ensures Keys(GapExample(), Daily) == [3, 3, 0]
    ensures Prices(GapExample()) == [400, 500, 100]
  {
    var data := GapExample();
    KeysAt(data, Daily, 0);
    KeysAt(data, Daily, 1);
    KeysAt(data, Daily, 2);
  }

  lemma GapExampleOrder()
    ensures Distinct([3, 3, 0]) == [3, 0]
  {
    assert [3, 3, 0][..2] == [3, 3];
    assert [3, 3][..1] == [3];
    assert Distinct([3]) == [3];
    assert Distinct([3, 3]) == [3];
  }

  lemma GapExampleBuckets(k: int)
    ensures Accumulate([3, 3, 0], [400, 500, 100], k) ==
      if k == 3 then Bucket(900, 2) else if k == 0 then Bucket(100, 1) else Bucket(0, 0)
  {
    var ks, ps := [3, 3, 0], [400, 500, 100];
    assert ks[..2] == [3, 3] && ps[..2] == [400, 500];
    assert [3, 3][..1] == [3] && [400, 500][..1] == [400];
    assert Accumulate([3], [400], k) == if k == 3 then Bucket(400, 1) else Bucket(0, 0);
    assert Accumulate([3, 3], [400, 500], k) == if k == 3 then Bucket(900, 2) else Bucket(0, 0);
  }

  lemma GapExampleSeries()
    ensures SeriesOf([3, 3, 0], [400, 500, 100]) == Series([0, 1, 2, 3], [100, 0, 0, 900], [1, 0, 0, 2])
  {
    var ks, ps := [3, 3, 0], [400, 500, 100];
    GapExampleOrder();
    GapExampleBuckets(0);
    GapExampleBuckets(1);
    GapExampleBuckets(2);
    GapExampleBuckets(3);
    assert WalkStart(ks) == 0 && WalkEnd(ks) == 3 && WalkLength(ks) == 4;
    var s := SeriesOf(ks, ps);
    assert s.dates == Span(0, 4);
    assert s.priceSums == PriceColumn(ks, ps, 0, 4);
    assert s.itemCounts == CountColumn(ks, ps, 0, 4);
    assert s.dates == [0, 1, 2, 3];
    assert s.priceSums == [100, 0, 0, 900];
    assert s.itemCounts == [1, 0, 0, 2];
  }

  lemma GapExampleDense()
    ensures NewestFirst(GapExample(), Daily)
    ensures DenseSeries(GapExample(), Daily) == Series([0, 1, 2, 3], [100, 0, 0, 900], [1, 0, 0, 2])
  {
    GapExampleKeys();
    GapExampleSeries();
  }

  lemma GapExampleScans(data: seq<Row>)
    requires |data| == 3
    requires DenseSeries(data, Daily) == Series([0, 1, 2, 3], [100, 0, 0, 900], [1, 0, 0, 2])
    ensures var s := DenseSeries(data, Daily);
      && ScanBound(data, s) == 3
      && FirstMax(s.priceSums, 3) == 0
      && FirstMax(s.itemCounts, 3) == 0
  {
    var s := DenseSeries(data, Daily);
    FirstMaxUnique(s.priceSums, 3, 0);
    FirstMaxUnique(s.itemCounts, 3, 0);
  }

  lemma GapExamplePeaks(data: seq<Row>)
    requires DenseSeries(data, Daily) == Series([0, 1, 2, 3], [100, 0, 0, 900], [1, 0, 0, 2])
    ensures MostSalesInOneDay(data) == Some(SalesPeak(900, 3))
    ensures MostItemsSoldInOneDay(data) == Some(ItemsPeak(2, 3))
  {
    var s := DenseSeries(data, Daily);
    FirstMaxUnique(s.priceSums, 4, 3);
    FirstMaxUnique(s.itemCounts, 4, 3);
  }

  /** Three rows on days 3, 3 and 0 (newest first): the daily series has
      four days, the scans as written look at days 0..2 only and report
      day 0, while day 3 holds both the greater sales and more rows. */
  lemma ScanStopsBeforeLastDay()
    ensures var data := GapExample();
      var s := DenseSeries(data, Daily);
      && NewestFirst(data, Daily)
      && s == Series([0, 1, 2, 3], [100, 0, 0, 900], [1, 0, 0, 2])
      && ScanBound(data, s) == 3
      && FirstMax(s.priceSums, ScanBound(data, s)) == 0
      && FirstMax(s.itemCounts, ScanBound(data, s)) == 0
      && MostSalesInOneDay(data) == Some(SalesPeak(900, 3))
      && MostItemsSoldInOneDay(data) == Some(ItemsPeak(2, 3))
  {
    GapExampleDense();
    GapExampleScans(GapExample());
    GapExamplePeaks(GapExample());
  }
}
