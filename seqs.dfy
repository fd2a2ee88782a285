/** Generic facts about sequences used throughout the analyzer: counting,
    first-seen de-duplication (the key order of a JavaScript `Map` or plain
    object), sums, and monotone sequences. Functions that mirror a loop over a
    prefix of the rows are defined from the END of the sequence, so that one
    more loop iteration is one more unfolding. */
module Seqs {

  /** Number of occurrences of `x` in `s`. */
  function Count<T(==)>(s: seq<T>, x: T): (n: nat)
    ensures n <= |s|
    ensures n == 0 <==> x !in s
  {
    if s == [] then 0
    else Count(s[..|s| - 1], x) + (if s[|s| - 1] == x then 1 else 0)
  }

  lemma {:induction false} CountAppend<T>(a: seq<T>, b: seq<T>, x: T)
    ensures Count(a + b, x) == Count(a, x) + Count(b, x)
    decreases |b|
  {
    if b != [] {
      var b' := b[..|b| - 1];
      assert (a + b)[..|a + b| - 1] == a + b';
      CountAppend(a, b', x);
    } else {
      assert a + b == a;
    }
  }

  predicate AllDifferent<T(==)>(s: seq<T>) {
    forall i, j :: 0 <= i < j < |s| ==> s[i] != s[j]
  }

  /** In a sequence without repetitions every value occurs at most once. */
  lemma {:induction false} CountAllDifferent<T>(d: seq<T>, x: T)
    requires AllDifferent(d)
    ensures Count(d, x) == if x in d then 1 else 0
  {
    if d != [] {
      var d' := d[..|d| - 1];
      assert AllDifferent(d');
      CountAllDifferent(d', x);
      if d[|d| - 1] == x {
        assert x !in d' by {
          forall j | 0 <= j < |d'| ensures d'[j] != x {
            assert d[j] != d[|d| - 1];
          }
        }
      }
    }
  }

  /** The elements of `s` in order of first appearance, each once: the key
      order of a JavaScript `Map` (or object) filled from `s`. */
  function Distinct<T(==,!new)>(s: seq<T>): (d: seq<T>)
    ensures |d| <= |s|
    ensures forall x :: x in d <==> x in s
    ensures AllDifferent(d)
    ensures |s| > 0 ==> |d| > 0 && d[0] == s[0]
  {
    if s == [] then []
    else
      var p := Distinct(s[..|s| - 1]);
      if s[|s| - 1] in p then p else p + [s[|s| - 1]]
  }

  /** The last element of `Distinct(s)` is the one that appeared new last:
      from its first occurrence on, every element repeats an earlier one. */
  lemma DistinctLastIsNewest<T(!new)>(s: seq<T>)
    requires |s| > 0
    ensures var d := Distinct(s);
      forall j :: 0 <= j < |s| && d[|d| - 1] in s[..j] ==> s[j] in s[..j]
  {
    forall j | 0 <= j < |s| {
      DistinctLastAt(s, j);
    }
  }

  lemma {:induction false} DistinctLastAt<T(!new)>(s: seq<T>, j: nat)
    requires j < |s|
    ensures var d := Distinct(s); d[|d| - 1] in s[..j] ==> s[j] in s[..j]
  {
    var p, x := s[..|s| - 1], s[|s| - 1];
    var d := Distinct(s);
    if x in p {
      assert d == Distinct(p);
      if j < |s| - 1 {
        DistinctLastAt(p, j);
        assert s[..j] == p[..j];
      } else {
        assert s[..j] == p;
      }
    } else {
      assert d[|d| - 1] == x;
      assert s[..j] == p[..j];
    }
  }

  /** The keys of a map (or object) in insertion order once the first `n`
      elements of `s` were added as keys. */
  function FirstSeen<T(==)>(s: seq<T>, n: nat): seq<T>
    requires n <= |s|
  {
    if n == 0 then []
    else
      var order := FirstSeen(s, n - 1);
      if s[n - 1] in order then order else order + [s[n - 1]]
  }

  /** The insertion order is the first-seen order of the prefix. */
  lemma {:induction false} FirstSeenIsDistinct<T(!new)>(s: seq<T>, n: nat)
    requires n <= |s|
    ensures FirstSeen(s, n) == Distinct(s[..n])
  {
    if n > 0 {
      FirstSeenIsDistinct(s, n - 1);
      assert s[..n][..n - 1] == s[..n - 1];
    }
  }

  predicate NonIncreasing(s: seq<int>) {
    forall i, j :: 0 <= i < j < |s| ==> s[j] <= s[i]
  }

  predicate NonDecreasing(s: seq<int>) {
    forall i, j :: 0 <= i < j < |s| ==> s[i] <= s[j]
  }

  /** For a monotone sequence (either direction) the value first seen last
      is the last value of the sequence. */
  lemma {:induction false} DistinctLastOfMonotone(s: seq<int>)
    requires |s| > 0
    requires NonIncreasing(s) || NonDecreasing(s)
    ensures Distinct(s)[|Distinct(s)| - 1] == s[|s| - 1]
  {
    if |s| > 1 {
      var p := s[..|s| - 1];
      assert NonIncreasing(p) || NonDecreasing(p);
      DistinctLastOfMonotone(p);
      var x := s[|s| - 1];
      if x in Distinct(p) {
        var j :| 0 <= j < |p| && p[j] == x;
        var y := s[|p| - 1];
        if j < |p| - 1 {
          if NonIncreasing(s) {
            assert x <= y <= s[j];
          } else {
            assert s[j] <= y <= x;
          }
        }
        assert p[|p| - 1] == x;
      }
    }
  }

  function Elements<T>(s: seq<T>): set<T> {
    set x | x in s
  }

  /** The number of different values in `s` is the length of `Distinct(s)`. */
  lemma {:induction false} ElementsCardinality<T(!new)>(s: seq<T>)
    ensures |Elements(s)| == |Distinct(s)|
  {
    if s != [] {
      var p := s[..|s| - 1];
      var x := s[|s| - 1];
      ElementsCardinality(p);
      assert s == p + [x];
      assert Elements(s) == Elements(p) + {x};
      if x in Distinct(p) {
        assert Elements(s) == Elements(p);
      } else {
        assert x !in Elements(p);
      }
    }
  }

  /** Sum of a sequence of integers. */
  function Sum(s: seq<int>): int {
    if s == [] then 0 else Sum(s[..|s| - 1]) + s[|s| - 1]
  }

  /** Sum over the values of `d` of their number of occurrences in `s`. */
  function Tally<T(==)>(d: seq<T>, s: seq<T>): nat {
    if d == [] then 0 else Count(s, d[0]) + Tally(d[1..], s)
  }

  lemma {:induction false} TallyAppend<T>(a: seq<T>, b: seq<T>, s: seq<T>)
    ensures Tally(a + b, s) == Tally(a, s) + Tally(b, s)
  {
    if a != [] {
      assert (a + b)[1..] == a[1..] + b;
      TallyAppend(a[1..], b, s);
    } else {
      assert a + b == b;
    }
  }

  /** Appending `x` to `s` adds one to the tally of every occurrence of `x` in `d`. */
  lemma {:induction false} TallySnoc<T>(d: seq<T>, s: seq<T>, x: T)
    ensures Tally(d, s + [x]) == Tally(d, s) + Count(d, x)
  {
    if d != [] {
      TallySnoc(d[1..], s, x);
      assert (s + [x])[..|s + [x]| - 1] == s;
      assert d == [d[0]] + d[1..];
      CountAppend([d[0]], d[1..], x);
      assert [d[0]][..0] == [];
    }
  }

  /** Counting every distinct value of `s` accounts for every element of `s` once. */
  lemma {:induction false} TallyOfDistinct<T(!new)>(s: seq<T>)
    ensures Tally(Distinct(s), s) == |s|
  {
    if s != [] {
      var p := s[..|s| - 1];
      var x := s[|s| - 1];
      assert s == p + [x];
      TallyOfDistinct(p);
      var d := Distinct(p);
      TallySnoc(d, p, x);
      CountAllDifferent(d, x);
      if x !in d {
        TallyAppend(d, [x], s);
        assert [x][1..] == [];
        assert (p + [x])[..|p|] == p;
      }
    }
  }
}
