/**
  The median that pandas' Series.median() computes, in exact real arithmetic: missing cells
  are skipped, the remaining numbers are sorted, and the middle one (or the mean of the two
  middle ones) is taken.
  */
module Statistics {
  import opened Tables

  /** The numbers of a column, in column order, skipping missing (and non-numeric) cells. */
  function NumValues(col: seq<Cell>): (r: seq<real>)
    ensures forall x :: x in r <==> Num(x) in col
  {
    if col == [] then []
    else if col[0].Num? then [col[0].value] + NumValues(col[1..])
    else NumValues(col[1..])
  }

  predicate Sorted(s: seq<real>)
  {
    forall i, j :: 0 <= i < j < |s| ==> s[i] <= s[j]
  }

  /** x inserted into s before the first element not below it. */
  function InsertSorted(x: real, s: seq<real>): seq<real>
  {
    if s == [] then [x]
    else if x <= s[0] then [x] + s
    else [s[0]] + InsertSorted(x, s[1..])
  }

  lemma SortedCons(x: real, s: seq<real>)
    requires Sorted(s) && (s != [] ==> x <= s[0])
    ensures Sorted([x] + s)
  {
    var r := [x] + s;
    forall i, j | 0 <= i < j < |r| ensures r[i] <= r[j] {
      if i == 0 {
        assert r[j] == s[j - 1];
        if j > 1 { assert s[0] <= s[j - 1]; }
      } else {
        assert r[i] == s[i - 1] && r[j] == s[j - 1];
      }
    }
  }

  lemma SortedTail(s: seq<real>)
    requires Sorted(s) && s != []
    ensures Sorted(s[1..])
  {
    forall i, j | 0 <= i < j < |s[1..]| ensures s[1..][i] <= s[1..][j] {
      assert s[1..][i] == s[i + 1] && s[1..][j] == s[j + 1];
    }
  }

  /** Inserting into a sorted list keeps it sorted; the head is x or the old head. */
  lemma {:induction false} InsertSortedSorted(x: real, s: seq<real>)
    requires Sorted(s)
    ensures var r := InsertSorted(x, s);
      Sorted(r) && r != [] && (r[0] == x || (s != [] && r[0] == s[0]))
  {
    if s == [] {
    } else if x <= s[0] {
      SortedCons(x, s);
    } else {
      SortedTail(s);
      InsertSortedSorted(x, s[1..]);
      var rest := InsertSorted(x, s[1..]);
      assert s[0] <= rest[0] by { if rest[0] != x { assert rest[0] == s[1]; } }
      SortedCons(s[0], rest);
    }
  }

  /** Inserting adds exactly one occurrence of x. */
  lemma {:induction false} InsertSortedMultiset(x: real, s: seq<real>)
    ensures multiset(InsertSorted(x, s)) == multiset(s) + multiset{x}
  {
    if s != [] && x > s[0] {
      InsertSortedMultiset(x, s[1..]);
      assert s == [s[0]] + s[1..];
    }
  }

  /** The values in ascending order (insertion sort). */
  function Sort(s: seq<real>): seq<real>
  {
    if s == [] then [] else InsertSorted(s[|s| - 1], Sort(s[..|s| - 1]))
  }

  /** Sort returns an ascending permutation of its input. */
  lemma {:induction false} SortSpec(s: seq<real>)
    ensures Sorted(Sort(s)) && multiset(Sort(s)) == multiset(s) && |Sort(s)| == |s|
  {
    if s != [] {
      var init, last := s[..|s| - 1], s[|s| - 1];
      assert s == init + [last];
      assert multiset(s) == multiset(init) + multiset{last};
      SortSpec(init);
      InsertSortedSorted(last, Sort(init));
      InsertSortedMultiset(last, Sort(init));
      SortLength(s);
    }
  }

  lemma {:induction false} SortLength(s: seq<real>)
    ensures |Sort(s)| == |s|
  {
    if s != [] {
      SortLength(s[..|s| - 1]);
      InsertLength(s[|s| - 1], Sort(s[..|s| - 1]));
    }
  }

  lemma {:induction false} InsertLength(x: real, s: seq<real>)
    ensures |InsertSorted(x, s)| == |s| + 1
  {
    if s != [] && x > s[0] {
      InsertLength(x, s[1..]);
    }
  }

  /** Series.median() over the values s. */
  function Median(s: seq<real>): real
    requires |s| > 0
  {
    SortLength(s);
    var t := Sort(s);
    var n := |t|;
    if n % 2 == 1 then t[n / 2] else (t[n / 2 - 1] + t[n / 2]) / 2.0
  }

  /** The median of the column's numbers; None when it has none (pandas returns NaN). */
  function ColumnMedian(col: seq<Cell>): Option<real>
  {
    var v := NumValues(col);
    if v == [] then None else Some(Median(v))
  }

  lemma MultisetHead(a: seq<real>)
    requires a != []
    ensures multiset(a[1..]) == multiset(a) - multiset{a[0]}
  {
    assert a == [a[0]] + a[1..];
  }

  /** The head of a sorted list is at most every element. */
  lemma SortedHeadLeast(a: seq<real>, x: real)
    requires Sorted(a) && x in multiset(a)
    ensures a != [] && a[0] <= x
  {
    var i :| 0 <= i < |a| && a[i] == x;
    assert i == 0 || a[0] <= a[i];
  }

  /** Two ascending lists with the same elements, counted with multiplicity, are equal. */
  lemma {:induction false} SortedUnique(a: seq<real>, b: seq<real>)
    requires Sorted(a) && Sorted(b) && multiset(a) == multiset(b)
    ensures a == b
  {
    if a == [] {
      assert |b| == |multiset(b)| == 0;
    } else {
      assert a[0] in multiset(a);
      SortedHeadLeast(b, a[0]);
      assert b[0] in multiset(b);
      SortedHeadLeast(a, b[0]);
      assert a[0] == b[0];
      MultisetHead(a);
      MultisetHead(b);
      assert multiset(a[1..]) == multiset(b[1..]);
      SortedTail(a);
      SortedTail(b);
      SortedUnique(a[1..], b[1..]);
      assert a == [a[0]] + a[1..] && b == [b[0]] + b[1..];
    }
  }

  /** The median depends on the multiset of values only, not on their order. */
  lemma MedianOrderIndependent(s: seq<real>, t: seq<real>)
    requires |s| > 0 && multiset(s) == multiset(t)
    ensures |t| > 0 && Median(s) == Median(t)
  {
    assert |s| == |multiset(s)| == |multiset(t)| == |t|;
    SortSpec(s);
    SortSpec(t);
    SortedUnique(Sort(s), Sort(t));
  }

  /** At least half of the values lie at or below the median and at least half at or above. */
  lemma MedianSplits(s: seq<real>)
    requires |s| > 0
    ensures var t, m := Sort(s), Median(s);
      |t| == |s| &&
      (forall i :: 0 <= i < (|s| + 1) / 2 ==> t[i] <= m) &&
      (forall i :: |s| / 2 <= i < |s| ==> m <= t[i])
  {
    var t := Sort(s);
    SortSpec(s);
    var n, m := |t|, Median(s);
    if n % 2 == 1 {
      assert m == t[n / 2];
      forall i | 0 <= i < n ensures (i < (n + 1) / 2 ==> t[i] <= m) && (n / 2 <= i ==> m <= t[i]) {
        if i < n / 2 { assert t[i] <= t[n / 2]; }
        if n / 2 < i { assert t[n / 2] <= t[i]; }
      }
    } else {
      var lo, hi := t[n / 2 - 1], t[n / 2];
      assert lo <= hi;
      assert m == (lo + hi) / 2.0;
      assert lo <= m <= hi;
      forall i | 0 <= i < n ensures (i < (n + 1) / 2 ==> t[i] <= m) && (n / 2 <= i ==> m <= t[i]) {
        if i < n / 2 - 1 { assert t[i] <= lo; }
        if n / 2 < i { assert hi <= t[i]; }
      }
    }
  }

  /** The median lies between the smallest and the largest value. */
  lemma MedianWithinRange(s: seq<real>)
    requires |s| > 0
    ensures exists i :: 0 <= i < |s| && s[i] <= Median(s)
    ensures exists j :: 0 <= j < |s| && Median(s) <= s[j]
  {
    var t := Sort(s);
    SortSpec(s);
    MedianSplits(s);
    assert t[0] in multiset(s) && t[|t| - 1] in multiset(s);
    assert t[0] in s && t[|t| - 1] in s;
  }
}
