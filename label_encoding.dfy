/**
  scikit-learn's LabelEncoder as the two pipelines use it: fitting keeps the sorted list of
  distinct values (`classes_`), transforming replaces a value by its index in that list,
  and decoding (`inverse_transform`) reads the list back.
  */
module LabelEncoding {

  /** Python's string order: lexicographic by code point, a proper prefix first. */
  predicate Less(a: string, b: string)
    decreases |a|
  {
    if |a| == 0 then |b| > 0
    else |b| > 0 && (a[0] < b[0] || (a[0] == b[0] && Less(a[1..], b[1..])))
  }

  lemma {:induction false} LessIrreflexive(a: string)
    ensures !Less(a, a)
    decreases |a|
  {
    if |a| > 0 {
      LessIrreflexive(a[1..]);
    }
  }

  lemma {:induction false} LessTransitive(a: string, b: string, c: string)
    requires Less(a, b) && Less(b, c)
    ensures Less(a, c)
    decreases |a|
  {
    if |a| > 0 && a[0] == b[0] && b[0] == c[0] {
      LessTransitive(a[1..], b[1..], c[1..]);
    }
  }

  lemma {:induction false} LessTotal(a: string, b: string)
    requires a != b
    ensures Less(a, b) || Less(b, a)
    decreases |a|
  {
    if |a| > 0 && |b| > 0 && a[0] == b[0] {
      assert a == [a[0]] + a[1..] && b == [b[0]] + b[1..];
      LessTotal(a[1..], b[1..]);
    }
  }

  lemma {:induction false} LessAsymmetric(a: string, b: string)
    requires Less(a, b)
    ensures !Less(b, a)
  {
    if Less(b, a) {
      LessTransitive(a, b, a);
      LessIrreflexive(a);
    }
  }

  /** Ascending without repeats: the shape of `classes_`. */
  predicate StrictlySorted(s: seq<string>)
  {
    forall i, j :: 0 <= i < j < |s| ==> Less(s[i], s[j])
  }

  lemma StrictlySortedDistinct(s: seq<string>, i: nat, j: nat)
    requires StrictlySorted(s) && i < |s| && j < |s| && s[i] == s[j]
    ensures i == j
  {
    if i < j { LessIrreflexive(s[i]); }
    if j < i { LessIrreflexive(s[j]); }
  }

  lemma StrictlySortedCons(x: string, s: seq<string>)
    requires StrictlySorted(s) && (s != [] ==> Less(x, s[0]))
    ensures StrictlySorted([x] + s)
  {
    var r := [x] + s;
    forall i, j | 0 <= i < j < |r| ensures Less(r[i], r[j]) {
      if i == 0 {
        assert r[j] == s[j - 1];
        if j > 1 { LessTransitive(x, s[0], s[j - 1]); }
      } else {
        assert r[i] == s[i - 1] && r[j] == s[j - 1];
      }
    }
  }

  /** Adds x to a sorted class list before the first class above it, unless it is there. */
  function InsertClass(v: seq<string>, x: string): seq<string>
  {
    if v == [] then [x]
    else if x == v[0] then v
    else if Less(x, v[0]) then [x] + v
    else [v[0]] + InsertClass(v[1..], x)
  }

  lemma {:induction false} InsertClassSpec(v: seq<string>, x: string)
    requires StrictlySorted(v)
    ensures var r := InsertClass(v, x);
      && StrictlySorted(r)
      && (forall y :: y in r <==> y in v || y == x)
      && r != [] && (r[0] == x || (v != [] && r[0] == v[0]))
  {
    if v == [] {
    } else if x == v[0] {
    } else if Less(x, v[0]) {
      StrictlySortedCons(x, v);
    } else {
      assert v == [v[0]] + v[1..];
      assert StrictlySorted(v[1..]) by {
        forall i, j | 0 <= i < j < |v[1..]| ensures Less(v[1..][i], v[1..][j]) {
          assert v[1..][i] == v[i + 1] && v[1..][j] == v[j + 1];
        }
      }
      InsertClassSpec(v[1..], x);
      var rest := InsertClass(v[1..], x);
      assert Less(v[0], rest[0]) by {
        if rest[0] == x { LessTotal(x, v[0]); } else { assert rest[0] == v[1]; }
      }
      StrictlySortedCons(v[0], rest);
    }
  }

  /** np.unique: the distinct values, ascending. */
  function Unique(values: seq<string>): seq<string>
  {
    if values == [] then []
    else InsertClass(Unique(values[..|values| - 1]), values[|values| - 1])
  }

  lemma {:induction false} UniqueSpec(values: seq<string>)
    ensures StrictlySorted(Unique(values))
    ensures forall y :: y in Unique(values) <==> y in values
  {
    if values != [] {
      var init, last := values[..|values| - 1], values[|values| - 1];
      assert values == init + [last];
      UniqueSpec(init);
      InsertClassSpec(Unique(init), last);
    }
  }

  datatype LabelEncoder = LabelEncoder(classes: seq<string>)

  /** LabelEncoder().fit(values). */
  function Fit(values: seq<string>): LabelEncoder
  {
    LabelEncoder(Unique(values))
  }

  /** `classes_` after fitting: the values that occur, each once, in ascending order. */
  lemma FitSpec(values: seq<string>)
    ensures StrictlySorted(Fit(values).classes)
    ensures forall y :: y in Fit(values).classes <==> y in values
    ensures |values| > 0 ==> |Fit(values).classes| > 0
  {
    UniqueSpec(values);
    assert |values| > 0 ==> values[0] in values;
  }

  /** The position of x in the class list (`np.searchsorted` on `classes_`); the length of
      the list when x is not a class, a case `transform` never reaches after a fit on x. */
  function IndexOf(classes: seq<string>, x: string): nat
  {
    if classes == [] then 0
    else if classes[0] == x then 0
    else 1 + IndexOf(classes[1..], x)
  }

  lemma {:induction false} IndexOfSpec(classes: seq<string>, x: string)
    ensures x in classes ==>
      IndexOf(classes, x) < |classes| && classes[IndexOf(classes, x)] == x &&
      forall j :: 0 <= j < IndexOf(classes, x) ==> classes[j] != x
    ensures x !in classes ==> IndexOf(classes, x) == |classes|
  {
    if classes != [] && classes[0] != x {
      IndexOfSpec(classes[1..], x);
      assert classes == [classes[0]] + classes[1..];
    }
  }

  /** le.transform(xs): each value replaced by its code. */
  function Transform(le: LabelEncoder, xs: seq<string>): (codes: seq<nat>)
    ensures |codes| == |xs|
  {
    seq(|xs|, i requires 0 <= i < |xs| => IndexOf(le.classes, xs[i]))
  }

  /** Every value that is a class gets the code that points back at it. */
  lemma TransformSpec(le: LabelEncoder, xs: seq<string>)
    requires forall i :: 0 <= i < |xs| ==> xs[i] in le.classes
    ensures forall i :: 0 <= i < |xs| ==>
      Transform(le, xs)[i] < |le.classes| && le.classes[Transform(le, xs)[i]] == xs[i]
  {
    forall i | 0 <= i < |xs| ensures Transform(le, xs)[i] < |le.classes| && le.classes[Transform(le, xs)[i]] == xs[i] {
      IndexOfSpec(le.classes, xs[i]);
    }
  }

  /** le.inverse_transform on one code: reading `classes_` back is the inverse of IndexOf. */
  function Decode(le: LabelEncoder, k: nat): (x: string)
    requires StrictlySorted(le.classes) && k < |le.classes|
    ensures x in le.classes && IndexOf(le.classes, x) == k
  {
    var x := le.classes[k];
    IndexOfSpec(le.classes, x);
    StrictlySortedDistinct(le.classes, IndexOf(le.classes, x), k);
    x
  }

  /** Two sorted, repeat-free lists with the same elements are the same list. */
  lemma {:induction false} SortedClassesUnique(a: seq<string>, b: seq<string>)
    requires StrictlySorted(a) && StrictlySorted(b)
    requires forall y :: y in a <==> y in b
    ensures a == b
  {
    assert a != [] ==> a[0] in b;
    assert b != [] ==> b[0] in a;
    if a != [] && b != [] {
      assert a[0] in b && b[0] in a;
      assert a[0] == b[0] by {
        if a[0] != b[0] {
          var i :| 0 <= i < |b| && b[i] == a[0];
          var j :| 0 <= j < |a| && a[j] == b[0];
          assert Less(b[0], a[0]) && Less(a[0], b[0]);
          LessAsymmetric(a[0], b[0]);
        }
      }
      forall y ensures y in a[1..] <==> y in b[1..] {
        if y in a[1..] {
          var i :| 0 <= i < |a[1..]| && a[1..][i] == y;
          assert Less(a[0], a[i + 1]);
          LessIrreflexive(y);
          assert y in b && y != b[0];
          assert b == [b[0]] + b[1..];
        }
        if y in b[1..] {
          var i :| 0 <= i < |b[1..]| && b[1..][i] == y;
          assert Less(b[0], b[i + 1]);
          LessIrreflexive(y);
          assert y in a && y != a[0];
          assert a == [a[0]] + a[1..];
        }
      }
      SortedClassesUnique(a[1..], b[1..]);
    }
  }

  /** The fitted classes depend only on which values occur, not on their order or count:
      fitting on test ++ train, or on a permuted table, gives the same encoder. */
  lemma FitDependsOnlyOnValueSet(v: seq<string>, w: seq<string>)
    requires forall y :: y in v <==> y in w
    ensures Fit(v) == Fit(w)
  {
    FitSpec(v);
    FitSpec(w);
    SortedClassesUnique(Fit(v).classes, Fit(w).classes);
  }

  /** Distinct values get distinct codes, and equal codes mean equal values. */
  lemma IndexOfInjective(le: LabelEncoder, x: string, y: string)
    requires StrictlySorted(le.classes) && x in le.classes && y in le.classes
    ensures IndexOf(le.classes, x) == IndexOf(le.classes, y) <==> x == y
  {
    IndexOfSpec(le.classes, x);
    IndexOfSpec(le.classes, y);
  }
}
