/** `formatDate`: a date written as "day month year", e.g. "5 March 2024":
    the day of the month and the year in plain decimal, the month by its
    English name. A parser for the same shape is the formatter's inverse. */
module DateFormat {
  import opened Rows

  const MonthNames: seq<string> := ["January", "February", "March", "April", "May", "June",
    "July", "August", "September", "October", "November", "December"]

  function DigitChar(d: nat): char
    requires d < 10
  {
    "0123456789"[d]
  }

  predicate IsDigit(c: char) {
    '0' <= c <= '9'
  }

  function DigitValue(c: char): nat
    requires IsDigit(c)
  {
    (c - '0') as nat
  }

  /** `n` in decimal without leading zeros, as a template literal prints a
      non-negative integer. */
  function NatToString(n: nat): (s: string)
    ensures |s| > 0
  {
    if n < 10 then [DigitChar(n)] else NatToString(n / 10) + [DigitChar(n % 10)]
  }

  /** `i` in decimal, with a leading '-' when negative. */
  function IntToString(i: int): (s: string)
    ensures |s| > 0
  {
    if i < 0 then "-" + NatToString(-i) else NatToString(i)
  }

  /** The value of a non-empty string of digits. */
  function ParseNat(s: string): nat
    requires |s| > 0 && forall i :: 0 <= i < |s| ==> IsDigit(s[i])
  {
    if |s| == 1 then DigitValue(s[0])
    else ParseNat(s[..|s| - 1]) * 10 + DigitValue(s[|s| - 1])
  }

  predicate IsNatString(s: string) {
    |s| > 0 && forall i :: 0 <= i < |s| ==> IsDigit(s[i])
  }

  /** The value of `s` if it is a decimal integer with an optional '-'. */
  function ParseInt(s: string): Option<int> {
    if |s| > 0 && s[0] == '-' then
      if IsNatString(s[1..]) then Some(-(ParseNat(s[1..]) as int)) else None
    else if IsNatString(s) then Some(ParseNat(s) as int)
    else None
  }

  /** A printed natural number is all digits. */
  lemma {:induction false} NatToStringDigits(n: nat)
    ensures IsNatString(NatToString(n))
  {
    if n >= 10 {
      NatToStringDigits(n / 10);
    }
  }

  lemma {:induction false} NatRoundTrip(n: nat)
    ensures IsNatString(NatToString(n))
    ensures ParseNat(NatToString(n)) == n
  {
    NatToStringDigits(n);
    if n >= 10 {
      NatRoundTrip(n / 10);
      var s := NatToString(n);
      assert s[..|s| - 1] == NatToString(n / 10);
    }
  }

  /** Reading back a printed integer gives that integer. */
  lemma IntRoundTrip(i: int)
    ensures ParseInt(IntToString(i)) == Some(i)
    ensures ' ' !in IntToString(i)
  {
    var s := IntToString(i);
    if i < 0 {
      var n := NatToString(-i);
      assert s == "-" + n && s[1..] == n;
      NatRoundTrip(-i);
      assert forall k :: 1 <= k < |s| ==> s[k] == n[k - 1];
    } else {
      NatRoundTrip(i);
      assert s == NatToString(i) && IsDigit(s[0]);
    }
  }

  /** `formatDate` for a day of the month, a month numbered 0..11 (what
      `getMonth()` returns) and a year. */
  function FormatDate(day: nat, month: nat, year: int): (s: string)
    requires month < 12
    ensures |s| > 0
  {
    NatToString(day) + " " + MonthNames[month] + " " + IntToString(year)
  }

  /** `formatDate` of the UTC calendar date of a day number. */
  function FormatDay(z: int): string {
    var ymd := CivilFromDays(z);
    FormatDate(ymd.2, ymd.1 - 1, ymd.0)
  }

  /** Position of the first `c` in `s`, or `|s|` when there is none. */
  function IndexOf(s: string, c: char): (k: nat)
    ensures k <= |s|
    ensures forall i :: 0 <= i < k ==> s[i] != c
    ensures k < |s| ==> s[k] == c
  {
    if s == [] then 0
    else if s[0] == c then 0
    else 1 + IndexOf(s[1..], c)
  }

  /** `s.split(" ")`: the pieces between the spaces. */
  function Words(s: string): (w: seq<string>)
    ensures |w| > 0
    decreases |s|
  {
    var k := IndexOf(s, ' ');
    if k == |s| then [s] else [s[..k]] + Words(s[k + 1..])
  }

  /** The position of a month name in `MonthNames`, from index `from` on. */
  function MonthIndex(name: string, from: nat): Option<nat>
    requires from <= 12
    decreases 12 - from
  {
    if from == 12 then None
    else if MonthNames[from] == name then Some(from)
    else MonthIndex(name, from + 1)
  }

  /** Reads "day month year" back into its three parts. */
  function ParseDate(s: string): Option<(nat, nat, int)> {
    var w := Words(s);
    if |w| != 3 || !IsNatString(w[0]) then None
    else
      match (MonthIndex(w[1], 0), ParseInt(w[2]))
      case (Some(m), Some(y)) => Some((ParseNat(w[0]), m, y))
      case _ => None
  }

  lemma {:induction false} WordsOfPrefix(a: string, rest: string)
    requires ' ' !in a
    ensures Words(a + " " + rest) == [a] + Words(rest)
  {
    var s := a + " " + rest;
    IndexOfPrefix(a, rest);
    assert s[..|a|] == a && s[|a| + 1..] == rest;
  }

  lemma {:induction false} IndexOfPrefix(a: string, rest: string)
    requires ' ' !in a
    ensures IndexOf(a + " " + rest, ' ') == |a|
  {
    if a != [] {
      IndexOfPrefix(a[1..], rest);
      assert (a + " " + rest)[1..] == a[1..] + " " + rest;
    }
  }

  lemma MonthNamesHaveNoSpace(m: nat)
    requires m < 12
    ensures ' ' !in MonthNames[m]
  {
    assert ' ' !in MonthNames[0] && ' ' !in MonthNames[1] && ' ' !in MonthNames[2];
    assert ' ' !in MonthNames[3] && ' ' !in MonthNames[4] && ' ' !in MonthNames[5];
    assert ' ' !in MonthNames[6] && ' ' !in MonthNames[7] && ' ' !in MonthNames[8];
    assert ' ' !in MonthNames[9] && ' ' !in MonthNames[10] && ' ' !in MonthNames[11];
  }

  /** The twelve names are different, so a name gives its month back. */
  lemma MonthIndexOfName(m: nat)
    requires m < 12
    ensures MonthIndex(MonthNames[m], 0) == Some(m)
  {
    var names := MonthNames;
    forall i, j | 0 <= i < j < 12 ensures names[i] != names[j] {
      assert |names[i]| != |names[j]| || names[i][0] != names[j][0] || names[i][1] != names[j][1]
        || names[i][2] != names[j][2];
    }
    MonthIndexFrom(MonthNames[m], m, 0);
  }

  lemma {:induction false} MonthIndexFrom(name: string, m: nat, from: nat)
    requires from <= m < 12 && MonthNames[m] == name
    requires forall i, j :: 0 <= i < j < 12 ==> MonthNames[i] != MonthNames[j]
    ensures MonthIndex(name, from) == Some(m)
    decreases 12 - from
  {
    if from < m {
      MonthIndexFrom(name, m, from + 1);
    }
  }

  /** Reading a formatted date back gives the day, month and year it was
      made from, so different dates are formatted differently. */
  lemma FormatRoundTrip(day: nat, month: nat, year: int)
    requires month < 12
    ensures ParseDate(FormatDate(day, month, year)) == Some((day, month, year))
  {
    var d, mn, y := NatToString(day), MonthNames[month], IntToString(year);
    MonthNamesHaveNoSpace(month);
    NatToStringDigits(day);
    assert ' ' !in d by {
      forall i | 0 <= i < |d| ensures d[i] != ' ' {
        assert IsDigit(d[i]);
      }
    }
    IntRoundTrip(year);
    assert FormatDate(day, month, year) == d + " " + (mn + " " + y);
    WordsOfPrefix(d, mn + " " + y);
    WordsOfPrefix(mn, y);
    assert Words(y) == [y];
    MonthIndexOfName(month);
    NatRoundTrip(day);
    IntRoundTrip(year);
  }

  /** `formatDate` of 5 March 2024 (month 2 counting from 0). */
  lemma FormatDateExample()
    ensures FormatDate(5, 2, 2024) == "5 March 2024"
  {
    var year := NatToString(2024);
    assert year == NatToString(202) + "4" == NatToString(20) + "24" == NatToString(2) + "024" == "2024";
    assert MonthNames[2] == "March";
    assert FormatDate(5, 2, 2024) == "5" + " " + "March" + " " + "2024";
  }

  /** Day 19787 is formatted as "5 March 2024". */
  lemma FormatDayExample()
    ensures FormatDay(19787) == "5 March 2024"
  {
    CivilFromDaysExample();
    FormatDateExample();
  }
}
