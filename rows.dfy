/** The order table and what the analyzer derives from a row's date: the
    UTC day number, the civil (Gregorian) date of that day, and the bucket key
    of a row for daily, monthly or yearly aggregation. Dates are millisecond
    timestamps (UTC) and money is in integer cents. */
module Rows {
  import opened Seqs

  datatype Option<T> = None | Some(value: T)

  /** One order line of the CSV table (`CsvRow`). The fields `sku`,
      `orderid`, `status` and `net` are never read by the analyzer. */
  datatype Row = Row(name: string, date: int, price: int, fee: int)

  datatype Aggregation = Daily | Monthly | Yearly

  const MsPerHour: int := 3600000
  const MsPerDay: int := 86400000

  /** The UTC day a timestamp falls on, counting 1970-01-01 as day 0: the
      date part `YYYY-MM-DD` of `toISOString()`. */
  function DayNumber(t: int): (d: int)
    ensures d * MsPerDay <= t < d * MsPerDay + MsPerDay
  {
    t / MsPerDay
  }

  /** The 400-year era (146097 days, starting on 1 March) of day `z`. */
  function Era(z: int): int {
    (z + 719468) / 146097
  }

  /** The day (0..146096) of day `z` within its era. */
  function DayOfEra(z: int): (doe: int)
    ensures 0 <= doe <= 146096
  {
    z + 719468 - Era(z) * 146097
  }

  /** The year (0..399) within its era of day `doe` of the era; years
      begin on 1 March, so a leap day is the last day of its year. */
  function YearOfEra(doe: int): int {
    (doe - doe / 1460 + doe / 36524 - doe / 146096) / 365
  }

  /** The day (0..365) within its March-based year of day `doe` of the era. */
  function DayOfYear(doe: int): int {
    var yoe := YearOfEra(doe);
    doe - (365 * yoe + yoe / 4 - yoe / 100)
  }

  /** The month (0..11, March being 0) of day `doy` of a March-based year. */
  function MarchMonth(doy: int): int {
    (5 * doy + 2) / 153
  }

  /** The proleptic Gregorian (year, month 1..12, day 1..31) of the day
      numbered `z`, 1970-01-01 being day 0. */
  function CivilFromDays(z: int): (ymd: (int, int, int))
    ensures 1 <= ymd.1 <= 12 && 1 <= ymd.2 <= 31
  {
    var era := Era(z);
    var doe := DayOfEra(z);
    var yoe := YearOfEra(doe);
    var doy := DayOfYear(doe);
    DayOfYearBounds(doe);
    var mp := MarchMonth(doy);
    var d := doy - (153 * mp + 2) / 5 + 1;
    var m := if mp < 10 then mp + 3 else mp - 9;
    var y := yoe + era * 400;
    (if m <= 2 then y + 1 else y, m, d)
  }

  /** `year * 12 + month` (month 0..11) of day `z`. */
  function MonthCount(z: int): int {
    var ymd := CivilFromDays(z);
    ymd.0 * 12 + (ymd.1 - 1)
  }

  /** Day 19787 is 5 March 2024; the asserts are the era (400 years from
      1 March 2000), the year of the era, and the day of that year. */
  lemma CivilFromDaysExample()
    ensures CivilFromDays(19787) == (2024, 3, 5)
  {
    assert (19787 + 719468) / 146097 == 5;
    assert 739255 - 5 * 146097 == 8770;
    assert (8770 - 8770 / 1460 + 8770 / 36524 - 8770 / 146096) / 365 == 24;
    assert 8770 - (365 * 24 + 24 / 4 - 24 / 100) == 4;
    assert (5 * 4 + 2) / 153 == 0;
  }

  /** Noon UTC on 5 March 2024 falls in day 19787, in March 2024 and in
      2024. */
  lemma BucketKeyExample()
    ensures BucketKey(1709640000000, Daily) == 19787
    ensures BucketKey(1709640000000, Monthly) == 2024 * 12 + 2
    ensures BucketKey(1709640000000, Yearly) == 2024
  {
    assert DayNumber(1709640000000) == 19787;
    CivilFromDaysExample();
  }

  /** `dateToString` for an aggregation: the bucket a timestamp falls in,
      as the day number, `year * 12 + month` (month 0..11), or the year.
      Consecutive buckets differ by one. */
  function KeyOf(agg: Aggregation): int -> int {
    match agg
    case Daily => t => DayNumber(t)
    case Monthly => t => MonthCount(DayNumber(t))
    case Yearly => t => CivilFromDays(DayNumber(t)).0
  }

  /** What a bucket key says: the UTC day whose 24 hours hold `t`; the year
      and month (0..11) of that day as quotient and remainder by twelve; or
      its year. */
  lemma KeyOfMeaning(agg: Aggregation, t: int)
    ensures var key, ymd := KeyOf(agg)(t), CivilFromDays(DayNumber(t));
      match agg
      case Daily => key * MsPerDay <= t < key * MsPerDay + MsPerDay
      case Monthly => key / 12 == ymd.0 && key % 12 == ymd.1 - 1
      case Yearly => key == ymd.0
  {
  }

  /** The bucket of timestamp `t`. */
  function BucketKey(t: int, agg: Aggregation): int {
    KeyOf(agg)(t)
  }

  /** The keys `key` gives the rows' timestamps, in row order. */
  function KeysBy(data: seq<Row>, key: int -> int): (ks: seq<int>)
    ensures |ks| == |data|
  {
    if data == [] then [] else KeysBy(data[..|data| - 1], key) + [key(data[|data| - 1].date)]
  }

  lemma {:induction false} KeysByAt(data: seq<Row>, key: int -> int, i: nat)
    requires i < |data|
    ensures KeysBy(data, key)[i] == key(data[i].date)
  {
    if i < |data| - 1 {
      KeysByAt(data[..|data| - 1], key, i);
    }
  }

  /** The bucket keys of the rows, in row order. */
  function Keys(data: seq<Row>, agg: Aggregation): (ks: seq<int>)
    ensures |ks| == |data|
  {
    KeysBy(data, KeyOf(agg))
  }

  lemma KeysAt(data: seq<Row>, agg: Aggregation, i: nat)
    requires i < |data|
    ensures Keys(data, agg)[i] == BucketKey(data[i].date, agg)
  {
    KeysByAt(data, KeyOf(agg), i);
  }

  /** The item names of the rows, in row order. */
  function Names(data: seq<Row>): seq<string> {
    seq(|data|, i requires 0 <= i < |data| => data[i].name)
  }

  /** The prices of the rows, in row order. */
  function Prices(data: seq<Row>): seq<int> {
    seq(|data|, i requires 0 <= i < |data| => data[i].price)
  }

  /** The fees of the rows, in row order. */
  function Fees(data: seq<Row>): seq<int> {
    seq(|data|, i requires 0 <= i < |data| => data[i].fee)
  }

  /** The rows are ordered from the most recent to the oldest, as seen
      through their bucket keys. */
  predicate NewestFirst(data: seq<Row>, agg: Aggregation) {
    NonIncreasing(Keys(data, agg))
  }

  /** The rows are ordered from the most recent timestamp to the oldest. */
  predicate NewestFirstByTime(data: seq<Row>) {
    forall i, j :: 0 <= i < j < |data| ==> data[j].date <= data[i].date
  }

  /** A later timestamp falls on the same day or a later one. */
  lemma DayNumberMonotone(t1: int, t2: int)
    requires t1 <= t2
    ensures DayNumber(t1) <= DayNumber(t2)
  {
    var d1, d2 := DayNumber(t1), DayNumber(t2);
    assert d1 * MsPerDay < d2 * MsPerDay + MsPerDay;
  }

  lemma YearOfEraBounds(doe: int)
    requires 0 <= doe <= 146096
    ensures 0 <= YearOfEra(doe) <= 399
  {
  }

  lemma YearOfEraMonotone(a: int, b: int)
    requires 0 <= a <= b <= 146096
    ensures YearOfEra(a) <= YearOfEra(b)
  {
    var na := a - a / 1460 + a / 36524 - a / 146096;
    var nb := b - b / 1460 + b / 36524 - b / 146096;
    assert na <= nb by {
      assert b / 1460 - a / 1460 <= b - a;
      assert b / 146096 - a / 146096 <= b / 36524 - a / 36524 + (b - a) - (b / 1460 - a / 1460);
    }
  }

  /** Within the century `c` (0..3) of an era, the day of the year is in
      0..365: `k` counts four-year cycles and `j` the year in the cycle. */
  lemma DayOfYearInCentury(doe: int, c: int)
    requires 0 <= c < 4 && 36524 * c <= doe < 36524 * c + 36524
    ensures 0 <= DayOfYear(doe) <= 365
  {
    var k := doe / 1460;
    var r := doe - 1460 * k;
    var j := (r + c - k) / 365;
    var u := r + c - k - 365 * j;
    assert YearOfEra(doe) == 4 * k + j by {
      assert doe / 36524 == c && doe / 146096 == 0;
      assert doe - doe / 1460 + doe / 36524 - doe / 146096 == 365 * (4 * k) + (r + c - k);
    }
    assert 0 <= u < 365 && -1 <= j <= 3;
    assert (4 * k + j) / 100 == c by {
      assert 100 * c <= 4 * k + j < 100 * c + 100;
    }
    assert DayOfYear(doe) == u - (if j < 0 then -1 else 0);
  }

  lemma DayOfYearBounds(doe: int)
    requires 0 <= doe <= 146096
    ensures 0 <= DayOfYear(doe) <= 365
  {
    if doe == 146096 {
      assert YearOfEra(doe) == 399;
    } else {
      DayOfYearInCentury(doe, doe / 36524);
    }
  }

  /** The month count of day `z` is the era's 4800 months, the year's 12 and
      the March-based month, shifted by the two months January and February
      that belong to the next year. */
  lemma MonthCountParts(z: int)
    ensures 0 <= YearOfEra(DayOfEra(z)) <= 399
    ensures 0 <= MarchMonth(DayOfYear(DayOfEra(z))) <= 11
    ensures MonthCount(z) == 4800 * Era(z) + 12 * YearOfEra(DayOfEra(z)) + MarchMonth(DayOfYear(DayOfEra(z))) + 2
  {
    YearOfEraBounds(DayOfEra(z));
    DayOfYearBounds(DayOfEra(z));
  }

  /** The months of later days come later. */
  lemma MonthCountMonotone(z1: int, z2: int)
    requires z1 <= z2
    ensures MonthCount(z1) <= MonthCount(z2)
  {
    MonthCountParts(z1);
    MonthCountParts(z2);
    var a, b := DayOfEra(z1), DayOfEra(z2);
    if Era(z1) == Era(z2) {
      YearOfEraMonotone(a, b);
      if YearOfEra(a) == YearOfEra(b) {
        assert DayOfYear(a) <= DayOfYear(b);
      }
    } else {
      assert Era(z1) < Era(z2);
    }
  }

  /** The year of a day is its month count divided by twelve. */
  lemma YearOfMonthCount(z: int)
    ensures CivilFromDays(z).0 == MonthCount(z) / 12
  {
  }

  /** The bucket key never decreases as the timestamp grows, for every
      aggregation. */
  lemma BucketKeyMonotone(t1: int, t2: int, agg: Aggregation)
    requires t1 <= t2
    ensures BucketKey(t1, agg) <= BucketKey(t2, agg)
  {
    DayNumberMonotone(t1, t2);
    match agg
    case Daily =>
    case Monthly =>
      MonthCountMonotone(DayNumber(t1), DayNumber(t2));
    case Yearly =>
      MonthCountMonotone(DayNumber(t1), DayNumber(t2));
      YearOfMonthCount(DayNumber(t1));
      YearOfMonthCount(DayNumber(t2));
  }

  /** Rows ordered newest-first by timestamp are newest-first by day, by
      month and by year. */
  lemma TimeOrderGivesKeyOrder(data: seq<Row>, agg: Aggregation)
    requires NewestFirstByTime(data)
    ensures NewestFirst(data, agg)
  {
    forall i, j | 0 <= i < j < |data|
      ensures Keys(data, agg)[j] <= Keys(data, agg)[i]
    {
      KeysAt(data, agg, i);
      KeysAt(data, agg, j);
      BucketKeyMonotone(data[j].date, data[i].date, agg);
    }
  }
}
