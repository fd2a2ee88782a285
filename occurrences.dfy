/** `countItemOccurrences`: a name -> count dictionary filled in row order,
    its entries (in first-seen order) sorted stably by descending count, and
    optionally cut to the first `k` entries plus one `("Other", rest)` entry
    for the counts that were cut. */
module Occurrences {
  import opened Seqs
  import opened Rows

  /** A `[name, count]` pair of the result. */
  type Entry = (string, nat)

  /** Number of rows named `name`. */
  function NameCount(data: seq<Row>, name: string): nat {
    Count(Names(data), name)
  }

  /** The pair of every name of `d` with its number of occurrences in `s`. */
  function Pairs(d: seq<string>, s: seq<string>): seq<Entry> {
    if d == [] then [] else [(d[0], Count(s, d[0]))] + Pairs(d[1..], s)
  }

  /** `Object.entries` of the filled dictionary: every name once, in the
      order the names were first seen, with its count. */
  function Entries(data: seq<Row>): seq<Entry> {
    Pairs(Distinct(Names(data)), Names(data))
  }

  function EntryNames(es: seq<Entry>): seq<string> {
    if es == [] then [] else [es[0].0] + EntryNames(es[1..])
  }

  /** Sum of the counts of the entries. */
  function CountSum(es: seq<Entry>): nat {
    if es == [] then 0 else es[0].1 + CountSum(es[1..])
  }

  /** The entries with count `c`, in their order. */
  function WithCount(es: seq<Entry>, c: nat): seq<Entry> {
    if es == [] then []
    else (if es[0].1 == c then [es[0]] else []) + WithCount(es[1..], c)
  }

  predicate ByCountDesc(es: seq<Entry>) {
    forall i, j :: 0 <= i < j < |es| ==> es[j].1 <= es[i].1
  }

  predicate NamesDistinct(es: seq<Entry>) {
    forall i, j :: 0 <= i < j < |es| ==> es[i].0 != es[j].0
  }

  /** `x` placed after every entry of `t` whose count is at least its own. */
  function InsertByCount(x: Entry, t: seq<Entry>): (r: seq<Entry>)
    ensures |r| == |t| + 1
  {
    if t == [] then [x]
    else if t[0].1 >= x.1 then
      [t[0]] + InsertByCount(x, t[1..])
    else [x] + t
  }

  /** The array sorted with the comparator `(a, b) => b[1] - a[1]`, as a
      stable sort does it: by descending count, equal counts in their
      original order. */
  function SortByCountDesc(s: seq<Entry>): (r: seq<Entry>)
    ensures |r| == |s|
  {
    if s == [] then []
    else InsertByCount(s[|s| - 1], SortByCountDesc(s[..|s| - 1]))
  }

  /** What `countItemOccurrences(data, limit)` returns; `None` stands for
      an `undefined` limit. */
  function Ranking(data: seq<Row>, limit: Option<int>): seq<Entry> {
    var sorted := SortByCountDesc(Entries(data));
    if limit.Some? && limit.value >= 0 then
      var cut := if limit.value < |sorted| then limit.value else |sorted|;
      var rest := CountSum(sorted[cut..]);
      if rest > 0 then sorted[..cut] + [("Other", rest)] else sorted[..cut]
    else sorted
  }

  /** The dictionary once the first `n` names were counted. */
  function CountMap(names: seq<string>, n: nat): map<string, nat>
    requires n <= |names|
  {
    if n == 0 then map[]
    else
      var m, name := CountMap(names, n - 1), names[n - 1];
      m[name := (if name in m then m[name] else 0) + 1]
  }

  /** The dictionary holds exactly the names seen so far, each with its
      number of occurrences among them. */
  lemma {:induction false} CountMapMeaning(names: seq<string>, n: nat, x: string)
    requires n <= |names|
    ensures x in CountMap(names, n) <==> x in names[..n]
    ensures x in CountMap(names, n) <==> x in FirstSeen(names, n)
    ensures x in CountMap(names, n) ==> CountMap(names, n)[x] == Count(names[..n], x)
  {
    if n > 0 {
      CountMapMeaning(names, n - 1, x);
      assert names[..n] == names[..n - 1] + [names[n - 1]];
      assert names[..n][..n - 1] == names[..n - 1];
    }
  }

  /** The counting loop; `order` is the dictionary's key order. */
  method CountNames(data: seq<Row>) returns (counts: map<string, nat>, order: seq<string>)
    ensures order == FirstSeen(Names(data), |data|)
    ensures counts == CountMap(Names(data), |data|)
  {
    ghost var names := Names(data);
    counts, order := map[], [];
    for i := 0 to |data|
      invariant order == FirstSeen(names, i)
      invariant counts == CountMap(names, i)
    {
      var name := data[i].name;
      CountMapMeaning(names, i, name);
      if name !in counts {
        order := order + [name];
      }
      counts := counts[name := (if name in counts then counts[name] else 0) + 1];
    }
  }

  /** `Object.entries` of the filled dictionary. */
  method DictionaryEntries(data: seq<Row>) returns (entries: seq<Entry>)
    ensures entries == Entries(data)
  {
    var counts, order := CountNames(data);
    ghost var names := Names(data);
    FirstSeenIsDistinct(names, |data|);
    assert names[..|data|] == names;
    forall n | n in order ensures n in counts && counts[n] == Count(names, n) {
      CountMapMeaning(names, |data|, n);
    }
    entries := PairsOf(order, counts);
    PairsOfCounts(order, counts, names);
  }

  method CountItemOccurrences(data: seq<Row>, limit: Option<int>) returns (r: seq<Entry>)
    ensures r == Ranking(data, limit)
    ensures CountSum(r) == |data|
  {
    var entries := DictionaryEntries(data);
    var sorted := SortByCountDesc(entries);
    if limit.Some? && limit.value >= 0 {
      var cut := if limit.value < |sorted| then limit.value else |sorted|;
      var rest := CountSum(sorted[cut..]);
      if rest > 0 {
        r := sorted[..cut] + [("Other", rest)];
      } else {
        r := sorted[..cut];
      }
    } else {
      r := sorted;
    }
    RankingTotal(data, limit);
  }

  /** `Object.entries` read from the dictionary, key by key. */
  function PairsOf(order: seq<string>, counts: map<string, nat>): seq<Entry>
    requires forall n :: n in order ==> n in counts
  {
    if order == [] then [] else [(order[0], counts[order[0]])] + PairsOf(order[1..], counts)
  }

  lemma {:induction false} PairsOfCounts(order: seq<string>, counts: map<string, nat>, s: seq<string>)
    requires forall n :: n in order ==> n in counts && counts[n] == Count(s, n)
    ensures PairsOf(order, counts) == Pairs(order, s)
  {
    if order != [] {
      PairsOfCounts(order[1..], counts, s);
    }
  }

  // Facts about the entries before sorting.

  lemma {:induction false} PairsMembership(d: seq<string>, s: seq<string>, e: Entry)
    ensures e in Pairs(d, s) <==> e.0 in d && e.1 == Count(s, e.0)
  {
    if d != [] {
      PairsMembership(d[1..], s, e);
      assert d == [d[0]] + d[1..];
    }
  }

  lemma {:induction false} PairsNames(d: seq<string>, s: seq<string>)
    ensures EntryNames(Pairs(d, s)) == d
  {
    if d != [] {
      PairsNames(d[1..], s);
      assert d == [d[0]] + d[1..];
    }
  }

  lemma {:induction false} PairsTally(d: seq<string>, s: seq<string>)
    ensures CountSum(Pairs(d, s)) == Tally(d, s)
  {
    if d != [] {
      PairsTally(d[1..], s);
    }
  }

  lemma {:induction false} EntryNamesAt(es: seq<Entry>, i: nat)
    requires i < |es|
    ensures |EntryNames(es)| == |es| && EntryNames(es)[i] == es[i].0
  {
    if i > 0 {
      EntryNamesAt(es[1..], i - 1);
    } else if |es| > 1 {
      EntryNamesAt(es[1..], 0);
    }
  }

  /** The counts of the entries add up to the number of rows. */
  lemma EntriesTotal(data: seq<Row>)
    ensures CountSum(Entries(data)) == |data|
  {
    PairsTally(Distinct(Names(data)), Names(data));
    TallyOfDistinct(Names(data));
  }

  /** The entries are exactly the pairs of a name of the rows with its
      number of occurrences, one per name, and their counts add up to the
      number of rows. */
  lemma EntriesMeaning(data: seq<Row>)
    ensures forall e :: e in Entries(data) <==> e.0 in Names(data) && e.1 == NameCount(data, e.0)
    ensures NamesDistinct(Entries(data))
    ensures EntryNames(Entries(data)) == Distinct(Names(data))
    ensures CountSum(Entries(data)) == |data|
  {
    var d, s := Distinct(Names(data)), Names(data);
    forall e ensures e in Entries(data) <==> e.0 in s && e.1 == NameCount(data, e.0) {
      PairsMembership(d, s, e);
    }
    PairsNames(d, s);
    var es := Entries(data);
    forall i, j | 0 <= i < j < |es| ensures es[i].0 != es[j].0 {
      EntryNamesAt(es, i);
      EntryNamesAt(es, j);
    }
    EntriesTotal(data);
  }

  // Facts about the sort.

  lemma {:induction false} InsertPermutation(x: Entry, t: seq<Entry>)
    ensures multiset(InsertByCount(x, t)) == multiset(t) + multiset{x}
  {
    if t != [] && t[0].1 >= x.1 {
      InsertPermutation(x, t[1..]);
      assert t == [t[0]] + t[1..];
    }
  }

  /** The sort only reorders its input. */
  lemma {:induction false} SortPermutation(s: seq<Entry>)
    ensures multiset(SortByCountDesc(s)) == multiset(s)
  {
    if s != [] {
      var p := s[..|s| - 1];
      SortPermutation(p);
      InsertPermutation(s[|s| - 1], SortByCountDesc(p));
      assert s == p + [s[|s| - 1]];
    }
  }

  /** Insertion keeps the elements and adds `x`. */
  lemma {:induction false} InsertMembers(x: Entry, t: seq<Entry>)
    ensures forall e :: e in InsertByCount(x, t) <==> e == x || e in t
  {
    if t != [] && t[0].1 >= x.1 {
      InsertMembers(x, t[1..]);
      assert t == [t[0]] + t[1..];
    }
  }

  lemma {:induction false} InsertSorted(x: Entry, t: seq<Entry>)
    requires ByCountDesc(t)
    ensures ByCountDesc(InsertByCount(x, t))
  {
    if t != [] && t[0].1 >= x.1 {
      var r' := InsertByCount(x, t[1..]);
      InsertSorted(x, t[1..]);
      InsertMembers(x, t[1..]);
      var r := [t[0]] + r';
      assert forall e :: e in r' ==> e.1 <= t[0].1;
      assert forall j :: 0 < j < |r| ==> r[j] == r'[j - 1];
    }
  }

  lemma {:induction false} WithCountAppend(a: seq<Entry>, b: seq<Entry>, c: nat)
    ensures WithCount(a + b, c) == WithCount(a, c) + WithCount(b, c)
  {
    if a != [] {
      assert (a + b)[1..] == a[1..] + b;
      WithCountAppend(a[1..], b, c);
    } else {
      assert a + b == b;
    }
  }

  lemma WithCountCons(e: Entry, s: seq<Entry>, c: nat)
    ensures WithCount([e] + s, c) == (if e.1 == c then [e] else []) + WithCount(s, c)
  {
    assert ([e] + s)[1..] == s;
  }

  lemma {:induction false} WithCountNone(t: seq<Entry>, c: nat)
    requires forall i :: 0 <= i < |t| ==> t[i].1 != c
    ensures WithCount(t, c) == []
  {
    if t != [] {
      WithCountNone(t[1..], c);
    }
  }

  /** Inserting `x` into a sorted sequence puts it behind every entry of
      equal count. */
  lemma {:induction false} InsertStable(x: Entry, t: seq<Entry>, c: nat)
    requires ByCountDesc(t)
    ensures WithCount(InsertByCount(x, t), c) == WithCount(t, c) + (if x.1 == c then [x] else [])
  {
    if t == [] {
      WithCountCons(x, [], c);
    } else if t[0].1 >= x.1 {
      InsertStable(x, t[1..], c);
      WithCountCons(t[0], InsertByCount(x, t[1..]), c);
    } else {
      WithCountNone(t, x.1);
      WithCountCons(x, t, c);
    }
  }

  /** The sort leaves the result ordered by descending count. */
  lemma {:induction false} SortSorted(s: seq<Entry>)
    ensures ByCountDesc(SortByCountDesc(s))
  {
    if s != [] {
      SortSorted(s[..|s| - 1]);
      InsertSorted(s[|s| - 1], SortByCountDesc(s[..|s| - 1]));
    }
  }

  /** The sort is stable: for every count, the entries with that count
      come out in the order they went in. */
  lemma {:induction false} SortStable(s: seq<Entry>, c: nat)
    ensures WithCount(SortByCountDesc(s), c) == WithCount(s, c)
  {
    if s != [] {
      var p, x := s[..|s| - 1], s[|s| - 1];
      SortStable(p, c);
      SortSorted(p);
      InsertStable(x, SortByCountDesc(p), c);
      assert s == p + [x];
      WithCountAppend(p, [x], c);
      assert WithCount([x], c) == (if x.1 == c then [x] else []) + WithCount([], c);
    }
  }

  lemma {:induction false} InsertNamesDistinct(x: Entry, t: seq<Entry>)
    requires NamesDistinct(t)
    requires forall e :: e in t ==> e.0 != x.0
    ensures NamesDistinct(InsertByCount(x, t))
  {
    if t != [] && t[0].1 >= x.1 {
      var r' := InsertByCount(x, t[1..]);
      InsertNamesDistinct(x, t[1..]);
      InsertMembers(x, t[1..]);
      var r := [t[0]] + r';
      assert forall e :: e in t[1..] ==> e.0 != t[0].0;
      assert forall e :: e in r' ==> e.0 != t[0].0;
      assert forall j :: 0 < j < |r| ==> r[j] == r'[j - 1];
    }
  }

  /** Sorting entries whose names are all different keeps them different. */
  lemma {:induction false} SortNamesDistinct(s: seq<Entry>)
    requires NamesDistinct(s)
    ensures NamesDistinct(SortByCountDesc(s))
  {
    if s != [] {
      var p, x := s[..|s| - 1], s[|s| - 1];
      SortNamesDistinct(p);
      var t := SortByCountDesc(p);
      SortPermutation(p);
      forall e | e in t ensures e.0 != x.0 {
        assert e in multiset(p);
        var i :| 0 <= i < |p| && p[i] == e;
        assert s[i] == e;
      }
      InsertNamesDistinct(x, t);
    }
  }

  lemma {:induction false} CountSumAppend(a: seq<Entry>, b: seq<Entry>)
    ensures CountSum(a + b) == CountSum(a) + CountSum(b)
  {
    if a != [] {
      assert (a + b)[1..] == a[1..] + b;
      CountSumAppend(a[1..], b);
    } else {
      assert a + b == b;
    }
  }

  lemma {:induction false} CountSumPositive(es: seq<Entry>)
    requires forall i :: 0 <= i < |es| ==> es[i].1 > 0
    ensures CountSum(es) > 0 <==> es != []
  {
    if es != [] {
      CountSumPositive(es[1..]);
    }
  }

  /** Without a limit (or with a negative one) the result is every name
      once, each with its number of rows, by descending count, entries of
      equal count in first-seen order. */
  lemma RankingUnlimited(data: seq<Row>, limit: Option<int>)
    requires limit.None? || limit.value < 0
    ensures var r := Ranking(data, limit);
      && |r| == |Distinct(Names(data))|
      && (forall e :: e in r <==> e.0 in Names(data) && e.1 == NameCount(data, e.0))
      && NamesDistinct(r)
      && ByCountDesc(r)
      && (forall c :: WithCount(r, c) == WithCount(Entries(data), c))
  {
    var es, r := Entries(data), Ranking(data, limit);
    EntriesMeaning(data);
    PairsNames(Distinct(Names(data)), Names(data));
    if es != [] {
      EntryNamesAt(es, 0);
    }
    SortSorted(es);
    SortNamesDistinct(es);
    SortPermutation(es);
    forall c ensures WithCount(r, c) == WithCount(es, c) {
      SortStable(es, c);
    }
    forall e ensures e in r <==> e in es {
      assert e in r <==> e in multiset(r);
    }
  }

  lemma {:induction false} InsertCountSum(x: Entry, t: seq<Entry>)
    ensures CountSum(InsertByCount(x, t)) == CountSum(t) + x.1
  {
    if t != [] && t[0].1 >= x.1 {
      InsertCountSum(x, t[1..]);
      assert ([t[0]] + InsertByCount(x, t[1..]))[1..] == InsertByCount(x, t[1..]);
    } else if t != [] {
      assert ([x] + t)[1..] == t;
    }
  }

  /** Sorting does not change the total count. */
  lemma {:induction false} SortCountSum(s: seq<Entry>)
    ensures CountSum(SortByCountDesc(s)) == CountSum(s)
  {
    if s != [] {
      var p, x := s[..|s| - 1], s[|s| - 1];
      SortCountSum(p);
      InsertCountSum(x, SortByCountDesc(p));
      assert s == p + [x];
      CountSumAppend(p, [x]);
      assert CountSum([x]) == x.1 + CountSum([]);
    }
  }

  /** With a limit `k >= 0` the result starts with the first `k` sorted
      entries; one `("Other", rest)` entry follows exactly when entries
      were cut off, `rest` being the sum of their counts. */
  lemma RankingLimited(data: seq<Row>, k: int)
    requires k >= 0
    ensures var sorted, r := SortByCountDesc(Entries(data)), Ranking(data, Some(k));
      var cut := if k < |sorted| then k else |sorted|;
      && r[..cut] == sorted[..cut]
      && (|r| == cut + 1 <==> k < |sorted|)
      && (|r| == cut || |r| == cut + 1)
      && (k < |sorted| ==> r[cut] == ("Other", CountSum(sorted[k..])))
      && |r| <= k + 1
  {
    var sorted := SortByCountDesc(Entries(data));
    SortedPositive(data);
    var cut := if k < |sorted| then k else |sorted|;
    assert forall i :: 0 <= i < |sorted[cut..]| ==> sorted[cut..][i] == sorted[cut + i];
    CountSumPositive(sorted[cut..]);
  }

  /** Every sorted entry counts at least one row. */
  lemma SortedPositive(data: seq<Row>)
    ensures var sorted := SortByCountDesc(Entries(data));
      forall i :: 0 <= i < |sorted| ==> sorted[i].1 > 0
  {
    var es, sorted := Entries(data), SortByCountDesc(Entries(data));
    EntriesMeaning(data);
    SortPermutation(es);
    forall i | 0 <= i < |sorted| ensures sorted[i].1 > 0 {
      assert sorted[i] in multiset(sorted);
      assert sorted[i] in es;
    }
  }

  /** Cutting the sorted entries and adding the `"Other"` entry keeps the
      total count. */
  lemma CutTotal(sorted: seq<Entry>, cut: nat)
    requires cut <= |sorted|
    ensures var rest := CountSum(sorted[cut..]);
      CountSum(sorted[..cut] + [("Other", rest)]) == CountSum(sorted)
      && (rest == 0 ==> CountSum(sorted[..cut]) == CountSum(sorted))
  {
    assert sorted == sorted[..cut] + sorted[cut..];
    CountSumAppend(sorted[..cut], sorted[cut..]);
    CountSumAppend(sorted[..cut], [("Other", CountSum(sorted[cut..]))]);
  }

  /** The counts of the result always add up to the number of rows. */
  lemma RankingTotal(data: seq<Row>, limit: Option<int>)
    ensures CountSum(Ranking(data, limit)) == |data|
  {
    var es, sorted := Entries(data), SortByCountDesc(Entries(data));
    EntriesTotal(data);
    SortCountSum(es);
    if limit.Some? && limit.value >= 0 {
      CutTotal(sorted, if limit.value < |sorted| then limit.value else |sorted|);
    }
  }
}
