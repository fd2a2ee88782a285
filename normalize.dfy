/** `reformatDates`: every row's date, read as a wall-clock time in US
    Eastern Standard Time, is moved to UTC by adding five hours. The source
    rewrites the rows of the array it is given and returns that same array. */
module Normalize {
  import opened Rows

  /** The offset of EST from UTC, in milliseconds. */
  const EstOffset: int := 5 * MsPerHour

  /** A row with its date moved by `delta` milliseconds. */
  function MoveDate(row: Row, delta: int): (r: Row)
    ensures r.name == row.name && r.price == row.price && r.fee == row.fee
    ensures r.date - row.date == delta
  {
    row.(date := row.date + delta)
  }

  /** Every row moved by `delta`. */
  function Moved(s: seq<Row>, delta: int): (r: seq<Row>)
    ensures |r| == |s|
    ensures forall i :: 0 <= i < |s| ==> r[i] == MoveDate(s[i], delta)
  {
    seq(|s|, i requires 0 <= i < |s| => MoveDate(s[i], delta))
  }

  /** The table with every date taken from EST to UTC. */
  function Shifted(s: seq<Row>): (r: seq<Row>)
    ensures |r| == |s|
  {
    Moved(s, EstOffset)
  }

  /** The rows of `a` rewritten in place, row by row; the returned array is
      `a` itself. */
  method ReformatDates(a: array<Row>) returns (b: array<Row>)
    modifies a
    ensures b == a
    ensures a[..] == Shifted(old(a[..]))
  {
    b := a;
    for i := 0 to a.Length
      invariant a[..i] == Shifted(old(a[..]))[..i]
      invariant a[i..] == old(a[..])[i..]
    {
      a[i] := MoveDate(a[i], EstOffset);
      assert a[i + 1..] == old(a[..])[i + 1..];
    }
  }

  /** Moving back by the same offset gives the table that was read. */
  lemma ShiftedRoundTrip(s: seq<Row>)
    ensures Moved(Shifted(s), -EstOffset) == s
  {
    var r := Moved(Shifted(s), -EstOffset);
    assert forall i :: 0 <= i < |s| ==> r[i] == s[i];
  }

  /** Only the dates change: names, prices and fees, and so the totals and
      the occurrence counts, are those of the table that was read. */
  lemma ShiftedKeepsColumns(s: seq<Row>)
    ensures Names(Shifted(s)) == Names(s)
    ensures Prices(Shifted(s)) == Prices(s)
    ensures Fees(Shifted(s)) == Fees(s)
  {
    var r := Shifted(s);
    assert forall i :: 0 <= i < |s| ==> r[i].name == s[i].name && r[i].price == s[i].price && r[i].fee == s[i].fee;
  }

  /** The shift keeps the newest-first order of the table, both ways. */
  lemma ShiftedKeepsOrder(s: seq<Row>)
    ensures NewestFirstByTime(Shifted(s)) <==> NewestFirstByTime(s)
  {
    var r := Shifted(s);
    assert forall i :: 0 <= i < |s| ==> r[i].date == s[i].date + EstOffset;
  }

  /** Every date lands exactly five hours later, so the day of a row moves
      forward by at most one. */
  lemma ShiftedDays(s: seq<Row>, i: nat)
    requires i < |s|
    ensures Shifted(s)[i].date == s[i].date + 18000000
    ensures DayNumber(s[i].date) <= DayNumber(Shifted(s)[i].date) <= DayNumber(s[i].date) + 1
  {
    var t, t' := s[i].date, Shifted(s)[i].date;
    var d, d' := DayNumber(t), DayNumber(t');
    assert d * MsPerDay <= t' && t' < (d + 2) * MsPerDay;
  }
}
