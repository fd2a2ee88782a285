/** `getPriceSumAndItemCount`: rows grouped into day, month or year buckets in
    a map that keeps first-insertion order, then a walk one bucket at a time
    from the key inserted last to the key inserted first, emitting zeros for
    buckets no row falls in (a dense, gap-filled time series).

    The specification is stated over the rows' keys `Keys(data, agg)` and
    prices `Prices(data)`, both plain integer sequences. */
module Buckets {
  import opened Seqs
  import opened Rows

  /** What the map holds per bucket key. */
  datatype Bucket = Bucket(priceSum: int, itemCount: nat)

  /** The three parallel arrays the function returns. */
  datatype Series = Series(dates: seq<int>, priceSums: seq<int>, itemCounts: seq<int>)

  /** The prices of the rows whose key is `k`, zero for the other rows. */
  function KeyedPrices(ks: seq<int>, ps: seq<int>, k: int): (r: seq<int>)
    requires |ks| == |ps|
    ensures |r| == |ks|
  {
    seq(|ks|, i requires 0 <= i < |ks| => if ks[i] == k then ps[i] else 0)
  }

  /** The bucket of key `k` once rows with keys `ks` and prices `ps` were
      added to the map in order. */
  function Accumulate(ks: seq<int>, ps: seq<int>, k: int): (b: Bucket)
    requires |ks| == |ps|
    ensures b.itemCount == Count(ks, k)
    ensures k !in ks ==> b.priceSum == 0
  {
    if ks == [] then Bucket(0, 0)
    else
      var b := Accumulate(ks[..|ks| - 1], ps[..|ps| - 1], k);
      if ks[|ks| - 1] == k then Bucket(b.priceSum + ps[|ps| - 1], b.itemCount + 1) else b
  }

  /** A bucket's price sum is the sum of the prices of the rows with its
      key. */
  lemma {:induction false} AccumulatePriceSum(ks: seq<int>, ps: seq<int>, k: int)
    requires |ks| == |ps|
    ensures Accumulate(ks, ps, k).priceSum == Sum(KeyedPrices(ks, ps, k))
  {
    if ks != [] {
      var ks', ps' := ks[..|ks| - 1], ps[..|ps| - 1];
      AccumulatePriceSum(ks', ps', k);
      assert KeyedPrices(ks, ps, k)[..|ks| - 1] == KeyedPrices(ks', ps', k);
    }
  }

  /** The bucket of key `k` in the map built from `data`. */
  function BucketOf(data: seq<Row>, agg: Aggregation, k: int): Bucket {
    Accumulate(Keys(data, agg), Prices(data), k)
  }

  /** Where the walk starts: the last key inserted into the map. */
  function WalkStart(ks: seq<int>): int
    requires |ks| > 0
  {
    var order := Distinct(ks);
    order[|order| - 1]
  }

  /** The walk starts at a key of a row, and every row after that key's
      first occurrence repeats an earlier key: it is the key inserted
      last. */
  lemma WalkStartIsNewest(ks: seq<int>)
    requires |ks| > 0
    ensures WalkStart(ks) in ks
    ensures forall j :: 0 <= j < |ks| && WalkStart(ks) in ks[..j] ==> ks[j] in ks[..j]
  {
    DistinctLastIsNewest(ks);
  }

  /** Where the walk ends (inclusive): the first key inserted into the map,
      the key of the first row. */
  function WalkEnd(ks: seq<int>): (w: int)
    requires |ks| > 0
    ensures w == ks[0]
  {
    Distinct(ks)[0]
  }

  /** Number of buckets walked: none when the start lies after the end. */
  function WalkLength(ks: seq<int>): nat {
    if |ks| == 0 || WalkEnd(ks) < WalkStart(ks) then 0
    else WalkEnd(ks) - WalkStart(ks) + 1
  }

  /** The keys `lo, lo + 1, ..., lo + n - 1`. */
  function Span(lo: int, n: nat): seq<int> {
    seq(n, i => lo + i)
  }

  function PriceColumn(ks: seq<int>, ps: seq<int>, lo: int, n: nat): seq<int>
    requires |ks| == |ps|
  {
    seq(n, i => Accumulate(ks, ps, lo + i).priceSum)
  }

  function CountColumn(ks: seq<int>, ps: seq<int>, lo: int, n: nat): seq<int>
    requires |ks| == |ps|
  {
    seq(n, i => Accumulate(ks, ps, lo + i).itemCount)
  }

  /** The series the walk produces for rows with keys `ks` and prices `ps`. */
  function SeriesOf(ks: seq<int>, ps: seq<int>): (s: Series)
    requires |ks| == |ps|
    ensures |s.dates| == |s.priceSums| == |s.itemCounts| == WalkLength(ks)
  {
    if |ks| == 0 then Series([], [], [])
    else
      var lo, n := WalkStart(ks), WalkLength(ks);
      Series(Span(lo, n), PriceColumn(ks, ps, lo, n), CountColumn(ks, ps, lo, n))
  }

  /** The series `getPriceSumAndItemCount(data, agg)` returns. */
  function DenseSeries(data: seq<Row>, agg: Aggregation): Series {
    SeriesOf(Keys(data, agg), Prices(data))
  }

  /** The map once the first `n` rows, with keys `ks` and prices `ps`, were
      added in order. */
  function BucketMap(ks: seq<int>, ps: seq<int>, n: nat): map<int, Bucket>
    requires n <= |ks| == |ps|
  {
    if n == 0 then map[]
    else
      var m, k := BucketMap(ks, ps, n - 1), ks[n - 1];
      var b := if k in m then m[k] else Bucket(0, 0);
      m[k := Bucket(b.priceSum + ps[n - 1], b.itemCount + 1)]
  }

  /** The map holds a bucket for exactly the keys of the first `n` rows, and
      each bucket is the accumulation of those rows with its key. */
  lemma {:induction false} BucketMapMeaning(ks: seq<int>, ps: seq<int>, n: nat, k: int)
    requires n <= |ks| == |ps|
    ensures k in BucketMap(ks, ps, n) <==> k in ks[..n]
    ensures k in BucketMap(ks, ps, n) <==> k in FirstSeen(ks, n)
    ensures k in BucketMap(ks, ps, n) ==> BucketMap(ks, ps, n)[k] == Accumulate(ks[..n], ps[..n], k)
  {
    if n > 0 {
      BucketMapMeaning(ks, ps, n - 1, k);
      assert ks[..n] == ks[..n - 1] + [ks[n - 1]];
      assert ks[..n][..n - 1] == ks[..n - 1] && ps[..n][..n - 1] == ps[..n - 1];
    }
  }

  /** The first loop: every row added to the bucket of its key, with the
      map's key order kept alongside; `key` is `dateToString` for the
      chosen aggregation. */
  method FillBuckets(data: seq<Row>, key: int -> int) returns (dateMap: map<int, Bucket>, keyOrder: seq<int>)
    ensures keyOrder == FirstSeen(KeysBy(data, key), |data|)
    ensures dateMap == BucketMap(KeysBy(data, key), Prices(data), |data|)
  {
    ghost var ks, ps := KeysBy(data, key), Prices(data);
    dateMap, keyOrder := map[], [];
    for i := 0 to |data|
      invariant keyOrder == FirstSeen(ks, i)
      invariant dateMap == BucketMap(ks, ps, i)
    {
      var dateString := key(data[i].date);
      KeysByAt(data, key, i);
      BucketMapMeaning(ks, ps, i, dateString);
      var dateData := if dateString in dateMap then dateMap[dateString] else Bucket(0, 0);
      dateData := Bucket(dateData.priceSum + data[i].price, dateData.itemCount + 1);
      if dateString !in dateMap {
        keyOrder := keyOrder + [dateString];
      }
      dateMap := dateMap[dateString := dateData];
    }
  }

  /** One more step of the walk appends one key and its bucket. */
  lemma ColumnsStep(ks: seq<int>, ps: seq<int>, lo: int, n: nat)
    requires |ks| == |ps|
    ensures Span(lo, n + 1) == Span(lo, n) + [lo + n]
    ensures PriceColumn(ks, ps, lo, n + 1) == PriceColumn(ks, ps, lo, n) + [Accumulate(ks, ps, lo + n).priceSum]
    ensures CountColumn(ks, ps, lo, n + 1) == CountColumn(ks, ps, lo, n) + [Accumulate(ks, ps, lo + n).itemCount]
  {
  }

  /** One step of the walk at key `lo + n`: the three arrays grow by that
      key and by its bucket from the map `m` of all rows, or by zeros when
      the map has no such key. */
  lemma WalkStep(ks: seq<int>, ps: seq<int>, m: map<int, Bucket>, lo: int, n: nat,
                 dates: seq<int>, priceSums: seq<int>, itemCounts: seq<int>)
    requires |ks| == |ps| && m == BucketMap(ks, ps, |ks|)
    requires dates == Span(lo, n)
    requires priceSums == PriceColumn(ks, ps, lo, n) && itemCounts == CountColumn(ks, ps, lo, n)
    ensures dates + [lo + n] == Span(lo, n + 1)
    ensures lo + n !in m ==>
      priceSums + [0] == PriceColumn(ks, ps, lo, n + 1) && itemCounts + [0] == CountColumn(ks, ps, lo, n + 1)
    ensures lo + n in m ==>
      && priceSums + [m[lo + n].priceSum] == PriceColumn(ks, ps, lo, n + 1)
      && itemCounts + [m[lo + n].itemCount] == CountColumn(ks, ps, lo, n + 1)
  {
    ColumnsStep(ks, ps, lo, n);
    BucketMapMeaning(ks, ps, |ks|, lo + n);
    assert ks[..|ks|] == ks && ps[..|ps|] == ps;
  }

  /** The second loop: from the last-inserted key to the first-inserted key
      (inclusive), one bucket at a time, emitting each key with its bucket
      from the map or with zeros. */
  method WalkBuckets(dateMap: map<int, Bucket>, keyOrder: seq<int>, ghost ks: seq<int>, ghost ps: seq<int>)
    returns (dates: seq<int>, priceSums: seq<int>, itemCounts: seq<int>)
    requires |ks| == |ps| && dateMap == BucketMap(ks, ps, |ks|) && keyOrder == Distinct(ks)
    ensures Series(dates, priceSums, itemCounts) == SeriesOf(ks, ps)
  {
    dates, priceSums, itemCounts := [], [], [];
    if |keyOrder| > 0 {
      var firstDate := keyOrder[|keyOrder| - 1];
      var lastDate := keyOrder[0] + 1;
      var currentDate := firstDate;
      while currentDate < lastDate
        invariant firstDate <= currentDate && (currentDate <= lastDate || currentDate == firstDate)
        invariant dates == Span(firstDate, currentDate - firstDate)
        invariant priceSums == PriceColumn(ks, ps, firstDate, currentDate - firstDate)
        invariant itemCounts == CountColumn(ks, ps, firstDate, currentDate - firstDate)
        decreases lastDate - currentDate
      {
        WalkStep(ks, ps, dateMap, firstDate, currentDate - firstDate, dates, priceSums, itemCounts);
        if currentDate !in dateMap {
          dates, priceSums, itemCounts := dates + [currentDate], priceSums + [0], itemCounts + [0];
        } else {
          var dateData := dateMap[currentDate];
          dates, priceSums, itemCounts := dates + [currentDate], priceSums + [dateData.priceSum], itemCounts + [dateData.itemCount];
        }
        currentDate := currentDate + 1;
      }
      assert currentDate - firstDate == WalkLength(ks);
    }
  }

  method GetPriceSumAndItemCount(data: seq<Row>, agg: Aggregation) returns (r: Series)
    ensures r == DenseSeries(data, agg)
  {
    var dateMap, keyOrder := FillBuckets(data, KeyOf(agg));
    ghost var ks, ps := Keys(data, agg), Prices(data);
    FirstSeenIsDistinct(ks, |ks|);
    assert ks[..|ks|] == ks;
    var dates, priceSums, itemCounts := WalkBuckets(dateMap, keyOrder, ks, ps);
    r := Series(dates, priceSums, itemCounts);
  }

  /** A non-increasing key sequence walks from its last key to its first. */
  lemma SpanOfNonIncreasing(ks: seq<int>, ps: seq<int>)
    requires |ks| == |ps| && |ks| > 0 && NonIncreasing(ks)
    ensures var s := SeriesOf(ks, ps);
      && |s.dates| == ks[0] - ks[|ks| - 1] + 1
      && forall i :: 0 <= i < |s.dates| ==> s.dates[i] == ks[|ks| - 1] + i
  {
    DistinctLastOfMonotone(ks);
  }

  /** For non-empty newest-first rows the series runs from the oldest row's
      bucket to the newest row's bucket, one bucket at a time. */
  lemma NewestFirstSpan(data: seq<Row>, agg: Aggregation)
    requires |data| > 0 && NewestFirst(data, agg)
    ensures var s, ks := DenseSeries(data, agg), Keys(data, agg);
      var oldest, newest := ks[|data| - 1], ks[0];
      && oldest <= newest
      && |s.dates| == newest - oldest + 1
      && s.dates[0] == oldest
      && s.dates[|s.dates| - 1] == newest
      && forall i :: 0 <= i < |s.dates| - 1 ==> s.dates[i + 1] == s.dates[i] + 1
  {
    SpanOfNonIncreasing(Keys(data, agg), Prices(data));
  }

  /** For non-empty newest-first rows every row's bucket is in the series
      exactly once, at the position given by its distance from the start. */
  lemma EveryRowInOneBucket(data: seq<Row>, agg: Aggregation, j: nat)
    requires |data| > 0 && NewestFirst(data, agg) && j < |data|
    ensures var s, k := DenseSeries(data, agg), Keys(data, agg)[j];
      && 0 < |s.dates| && 0 <= k - s.dates[0] < |s.dates|
      && s.dates[k - s.dates[0]] == k
      && forall i :: 0 <= i < |s.dates| && s.dates[i] == k ==> i == k - s.dates[0]
  {
    var ks := Keys(data, agg);
    SpanOfNonIncreasing(ks, Prices(data));
    assert ks[|data| - 1] <= ks[j] <= ks[0];
  }

  /** A bucket's item count is the number of rows whose key it is; its price
      sum is zero when no row has its key. */
  lemma BucketsCountRows(data: seq<Row>, agg: Aggregation, i: nat)
    requires i < |DenseSeries(data, agg).dates|
    ensures var s := DenseSeries(data, agg);
      && s.itemCounts[i] == Count(Keys(data, agg), s.dates[i])
      && (s.itemCounts[i] == 0 ==> s.priceSums[i] == 0)
  {
    var s, ks, ps := DenseSeries(data, agg), Keys(data, agg), Prices(data);
    assert s.itemCounts[i] == Accumulate(ks, ps, s.dates[i]).itemCount;
    assert s.priceSums[i] == Accumulate(ks, ps, s.dates[i]).priceSum;
  }

  lemma {:induction false} ZeroColumns(lo: int, n: nat)
    ensures Sum(PriceColumn([], [], lo, n)) == 0 && Sum(CountColumn([], [], lo, n)) == 0
  {
    if n > 0 {
      ZeroColumns(lo, n - 1);
      var pc, cc := PriceColumn([], [], lo, n), CountColumn([], [], lo, n);
      assert pc[..n - 1] == PriceColumn([], [], lo, n - 1);
      assert cc[..n - 1] == CountColumn([], [], lo, n - 1);
      assert Sum(pc) == Sum(pc[..n - 1]) + pc[n - 1];
      assert Sum(cc) == Sum(cc[..n - 1]) + cc[n - 1];
      assert Accumulate([], [], lo + n - 1) == Bucket(0, 0);
    } else {
      assert PriceColumn([], [], lo, n) == [] && CountColumn([], [], lo, n) == [];
    }
  }

  /** One more row adds its price and one item to the column sums when its
      key lies in the window `[lo, lo + n)`, and nothing otherwise. */
  lemma {:induction false} ColumnsSnoc(ks: seq<int>, ps: seq<int>, k: int, p: int, lo: int, n: nat)
    requires |ks| == |ps|
    ensures var inside := lo <= k < lo + n;
      && Sum(PriceColumn(ks + [k], ps + [p], lo, n)) == Sum(PriceColumn(ks, ps, lo, n)) + (if inside then p else 0)
      && Sum(CountColumn(ks + [k], ps + [p], lo, n)) == Sum(CountColumn(ks, ps, lo, n)) + (if inside then 1 else 0)
  {
    var ks', ps' := ks + [k], ps + [p];
    if n > 0 {
      ColumnsSnoc(ks, ps, k, p, lo, n - 1);
      var pc', cc' := PriceColumn(ks', ps', lo, n), CountColumn(ks', ps', lo, n);
      var pc, cc := PriceColumn(ks, ps, lo, n), CountColumn(ks, ps, lo, n);
      assert pc'[..n - 1] == PriceColumn(ks', ps', lo, n - 1);
      assert cc'[..n - 1] == CountColumn(ks', ps', lo, n - 1);
      assert pc[..n - 1] == PriceColumn(ks, ps, lo, n - 1);
      assert cc[..n - 1] == CountColumn(ks, ps, lo, n - 1);
      assert Sum(pc') == Sum(pc'[..n - 1]) + pc'[n - 1];
      assert Sum(cc') == Sum(cc'[..n - 1]) + cc'[n - 1];
      assert Sum(pc) == Sum(pc[..n - 1]) + pc[n - 1];
      assert Sum(cc) == Sum(cc[..n - 1]) + cc[n - 1];
      assert ks'[..|ks|] == ks && ps'[..|ps|] == ps;
      var b := Accumulate(ks, ps, lo + n - 1);
      assert Accumulate(ks', ps', lo + n - 1) == if k == lo + n - 1 then Bucket(b.priceSum + p, b.itemCount + 1) else b;
    } else {
      assert PriceColumn(ks', ps', lo, n) == [] && CountColumn(ks', ps', lo, n) == [];
      assert PriceColumn(ks, ps, lo, n) == [] && CountColumn(ks, ps, lo, n) == [];
    }
  }

  /** When every key lies in the window, the columns add up to the total
      price and to the number of rows. */
  lemma {:induction false} ColumnsCover(ks: seq<int>, ps: seq<int>, lo: int, n: nat)
    requires |ks| == |ps|
    requires forall j :: 0 <= j < |ks| ==> lo <= ks[j] < lo + n
    ensures Sum(PriceColumn(ks, ps, lo, n)) == Sum(ps)
    ensures Sum(CountColumn(ks, ps, lo, n)) == |ks|
  {
    if ks == [] {
      ZeroColumns(lo, n);
    } else {
      var m := |ks| - 1;
      ColumnsCover(ks[..m], ps[..m], lo, n);
      ColumnsSnoc(ks[..m], ps[..m], ks[m], ps[m], lo, n);
      assert ks[..m] + [ks[m]] == ks && ps[..m] + [ps[m]] == ps;
    }
  }

  /** For non-empty newest-first rows the item counts sum to the number of
      rows and the price sums to the total price of all rows. */
  lemma SeriesTotals(data: seq<Row>, agg: Aggregation)
    requires |data| > 0 && NewestFirst(data, agg)
    ensures Sum(DenseSeries(data, agg).itemCounts) == |data|
    ensures Sum(DenseSeries(data, agg).priceSums) == Sum(Prices(data))
  {
    var ks, ps := Keys(data, agg), Prices(data);
    SpanOfNonIncreasing(ks, ps);
    var lo, n := WalkStart(ks), WalkLength(ks);
    assert forall j :: 0 <= j < |ks| ==> ks[|ks| - 1] <= ks[j] <= ks[0];
    ColumnsCover(ks, ps, lo, n);
  }

  /** Rows in ascending order (oldest first) whose first and last buckets
      differ make the walk empty: it starts at the newest bucket and ends at
      the oldest. With a single bucket the series has one entry. */
  lemma AscendingWalk(data: seq<Row>, agg: Aggregation)
    requires |data| > 0 && NonDecreasing(Keys(data, agg))
    ensures var ks := Keys(data, agg);
      |DenseSeries(data, agg).dates| == if ks[0] == ks[|data| - 1] then 1 else 0
  {
    var ks := Keys(data, agg);
    DistinctLastOfMonotone(ks);
    assert ks[0] <= ks[|data| - 1];
  }
}
