/**
  How the two halves fit together: the artifacts the transformer persists are ones the
  prediction pipeline can load, a value seen at fit time gets the same code at inference,
  and a training row sent through `predict` comes back as the features the fit produced for
  it, unless the median loop filled one of its cells.
  */
module Consistency {
  import opened Tables
  import opened Statistics
  import opened LabelEncoding
  import opened DataTransformation
  import opened Prediction

  lemma PrefixDistinct(cols: seq<string>, n: nat)
    requires Distinct(cols) && n <= |cols|
    ensures Distinct(cols[..n])
  {
    forall i, j | 0 <= i < j < n ensures cols[..n][i] != cols[..n][j] {
      assert cols[..n][i] == cols[i] && cols[..n][j] == cols[j];
    }
  }

  /** The encoder map and `train_columns` written at lines 57-64 meet what the pipeline's
      constructor needs. */
  lemma ArtifactsLoadable(train: Table, test: Table, kinds: map<string, Kind>)
    requires Inputs(train, test, kinds) && Transformation(train, test, kinds).Ok?
    ensures var out := Transformation(train, test, kinds).value;
      Fitted(out.encoders) && Distinct(out.trainColumns)
  {
    var out := Transformation(train, test, kinds).value;
    forall c | c in out.encoders ensures StrictlySorted(out.encoders[c].classes) && |out.encoders[c].classes| > 0 {
      Vocabulary(train, test, kinds, c);
    }
    TransformationShape(train, test, kinds);
    TrainColumnsAllButLast(train, test, kinds);
    if |out.train.columns| > 0 {
      assert out.trainColumns == out.train.columns[..|out.train.columns| - 1];
      PrefixDistinct(out.train.columns, |out.train.columns| - 1);
    }
  }

  /** Filling a cell with "missing" cell by cell, as inference does, gives the cell that the
      column-wide fill at fit time gives. */
  lemma FilledCell(col: seq<Cell>, i: nat)
    requires i < |col|
    ensures SentinelFilled(col)[i] == if col[i].Missing? then Str(Sentinel) else col[i]
  {
  }

  /** One fit-time code equals the inference-time code of the same cell. */
  lemma SameCodeCell(le: LabelEncoder, col: seq<Cell>, i: nat)
    requires |le.classes| > 0 && i < |col|
    requires SentinelFilled(col)[i].Str? && SentinelFilled(col)[i].text in le.classes
    ensures |EncodeColumn(le, col)| == |col| && EncodeColumn(le, col)[i] == EncodeCell(le, col[i])
  {
    FilledCell(col, i);
    assert Texts(SentinelFilled(col))[i] == SentinelFilled(col)[i].text;
  }

  /** When every filled cell of a column is a class, inference encodes each cell of the
      column to the code the fit-time transform writes for it. */
  lemma SameCodesInColumn(le: LabelEncoder, col: seq<Cell>)
    requires |le.classes| > 0
    requires forall i :: 0 <= i < |col| ==> SentinelFilled(col)[i].Str? && SentinelFilled(col)[i].text in le.classes
    ensures |EncodeColumn(le, col)| == |col|
    ensures forall i :: 0 <= i < |col| ==> EncodeCell(le, col[i]) == EncodeColumn(le, col)[i]
  {
    forall i | 0 <= i < |col| ensures EncodeCell(le, col[i]) == EncodeColumn(le, col)[i] {
      SameCodeCell(le, col, i);
    }
  }

  /** Each filled cell of either column is a class of the encoder fitted on both. */
  lemma FilledColumnsInVocabulary(a: seq<Cell>, b: seq<Cell>)
    requires !HasNumber(a) && !HasNumber(b)
    ensures var le := Fit(Texts(SentinelFilled(a) + SentinelFilled(b)));
      && (forall i :: 0 <= i < |a| ==> SentinelFilled(a)[i].Str? && SentinelFilled(a)[i].text in le.classes)
      && (forall i :: 0 <= i < |b| ==> SentinelFilled(b)[i].Str? && SentinelFilled(b)[i].text in le.classes)
  {
    var f := SentinelFilled(a) + SentinelFilled(b);
    ColumnVocabulary(a, b);
    forall i | 0 <= i < |a| ensures SentinelFilled(a)[i] == f[i] {
    }
    forall i | 0 <= i < |b| ensures SentinelFilled(b)[i] == f[|a| + i] {
    }
  }

  /** Line 37 against lines 51-53: every training or test value of an encoded column is
      encoded at inference to the code the transformer wrote for it. */
  lemma SameCodeAsFit(train: Table, test: Table, kinds: map<string, Kind>, c: string)
    requires Inputs(train, test, kinds) && Transformation(train, test, kinds).Ok?
    requires c in Transformation(train, test, kinds).value.encoders
    ensures var out := Transformation(train, test, kinds).value;
      var le := out.encoders[c];
      && c in train.data && c in test.data && c in out.train.data && c in out.test.data
      && |le.classes| > 0
      && |out.train.data[c]| == |train.data[c]| && |out.test.data[c]| == |test.data[c]|
      && (forall i :: 0 <= i < |train.data[c]| ==> EncodeCell(le, train.data[c][i]) == out.train.data[c][i])
      && (forall i :: 0 <= i < |test.data[c]| ==> EncodeCell(le, test.data[c][i]) == out.test.data[c][i])
  {
    EncoderOf(train, test, kinds, c);
    Vocabulary(train, test, kinds, c);
    var le := Transformation(train, test, kinds).value.encoders[c];
    FilledColumnsInVocabulary(train.data[c], test.data[c]);
    SameCodesInColumn(le, train.data[c]);
    SameCodesInColumn(le, test.data[c]);
  }

  /** The median loop wrote into no feature cell of training row i. */
  ghost predicate NothingFilled(train: Table, kinds: map<string, Kind>, cols: seq<string>, i: nat)
  {
    forall c :: c in cols && c in train.data && c in kinds && kinds[c] == Numeric && i < |train.data[c]| ==>
      !(train.data[c][i].Missing? && ColumnMedian(train.data[c]).Some?)
  }

  /** The feature columns are cleaned training columns. */
  lemma FeatureColumns(train: Table, test: Table, kinds: map<string, Kind>, c: string)
    requires Inputs(train, test, kinds) && Transformation(train, test, kinds).Ok?
    requires c in Transformation(train, test, kinds).value.trainColumns
    ensures var out := Transformation(train, test, kinds).value;
      c in train.data && !IsUnnamed(c) && c in kinds && c in out.train.data
  {
    var out := Transformation(train, test, kinds).value;
    TransformationShape(train, test, kinds);
    TrainColumnsAllButLast(train, test, kinds);
    assert c in out.train.columns by {
      var j :| 0 <= j < |out.trainColumns| && out.trainColumns[j] == c;
      assert out.train.columns[j] == c;
    }
  }

  /** One feature cell of training row i: inference repeats the fit exactly when the median
      loop did not fill that cell. */
  lemma RoundTripCell(train: Table, test: Table, kinds: map<string, Kind>, i: nat, c: string)
    requires Inputs(train, test, kinds) && Transformation(train, test, kinds).Ok? && i < train.rows
    requires c in Transformation(train, test, kinds).value.trainColumns
    ensures var out := Transformation(train, test, kinds).value;
      && c in train.data && c in kinds && c in out.train.data && Fitted(out.encoders)
      && |AlignedColumn(out.encoders, RowOf(train, i), c)| == 1 && |out.train.data[c]| == train.rows
      && (AlignedColumn(out.encoders, RowOf(train, i), c)[0] == out.train.data[c][i] <==>
            !(kinds[c] == Numeric && train.data[c][i].Missing? && ColumnMedian(train.data[c]).Some?))
  {
    var out := Transformation(train, test, kinds).value;
    ArtifactsLoadable(train, test, kinds);
    FeatureColumns(train, test, kinds, c);
    TransformationShape(train, test, kinds);
    var row := RowOf(train, i);
    var cell := train.data[c][i];
    assert InputColumn(row, c) == [cell];
    EncoderKeys(train, test, kinds);
    if c in out.encoders {
      SameCodeAsFit(train, test, kinds, c);
      EncodeKnownCell(out.encoders[c], [cell], 0);
    } else {
      TransformationOk(train, test, kinds);
      var tr := DropUnnamed(train);
      if kinds[c] == Numeric {
        MedianFilledCell(train.data[c], train.data[c], i);
      }
      assert out.train.data[c] == NumericStep(tr, kinds, c, train.data[c]);
    }
  }

  /** Every feature column of the aligned one-row input holds the cell of row i of t. */
  ghost predicate RowAgrees(enc: map<string, LabelEncoder>, cols: seq<string>, row: Table, t: Table, i: nat)
    requires Fitted(enc)
  {
    forall c :: c in cols ==>
      c in t.data && i < |t.data[c]| && |AlignedColumn(enc, row, c)| == 1 && AlignedColumn(enc, row, c)[0] == t.data[c][i]
  }

  /** A one-row table whose columns are the first columns of t holds row i of t restricted
      to those columns exactly when it agrees with t on each of them. */
  lemma RowPrefixMatches(a: Table, t: Table, i: nat)
    requires Valid(a) && a.rows == 1 && Valid(t) && i < t.rows
    requires |a.columns| <= |t.columns| && t.columns[..|a.columns|] == a.columns
    ensures |Values(t)[i]| >= |a.columns|
    ensures Values(a) == [Values(t)[i][..|a.columns|]] <==>
      forall c :: c in a.columns ==> a.data[c][0] == t.data[c][i]
  {
    var n := |a.columns|;
    var lhs, fit := Values(a), Values(t)[i];
    assert forall j :: 0 <= j < n ==> t.columns[j] == a.columns[j] by {
      forall j | 0 <= j < n ensures t.columns[j] == a.columns[j] {
        assert t.columns[..n][j] == t.columns[j];
      }
    }
    if forall c :: c in a.columns ==> a.data[c][0] == t.data[c][i] {
      forall j | 0 <= j < n ensures lhs[0][j] == fit[..n][j] {
        assert a.columns[j] in a.columns;
      }
      assert lhs[0] == fit[..n];
    } else {
      var c :| c in a.columns && a.data[c][0] != t.data[c][i];
      var j :| 0 <= j < n && a.columns[j] == c;
      assert lhs[0][j] != fit[..n][j];
    }
  }

  /** A one-row input aligned to cols gives row i of t restricted to its first |cols|
      columns exactly when the two agree column by column. */
  lemma AlignedRowMatches(enc: map<string, LabelEncoder>, cols: seq<string>, row: Table, t: Table, i: nat)
    requires Fitted(enc) && Distinct(cols) && Valid(row) && row.rows == 1
    requires Valid(t) && i < t.rows && |cols| <= |t.columns| && t.columns[..|cols|] == cols
    ensures Valid(Aligned(enc, cols, row)) && |Values(t)[i]| >= |cols|
    ensures Values(Aligned(enc, cols, row)) == [Values(t)[i][..|cols|]] <==> RowAgrees(enc, cols, row, t, i)
  {
    var a := Aligned(enc, cols, row);
    AlignedValid(enc, cols, row);
    RowPrefixMatches(a, t, i);
    assert forall c :: c in cols ==> a.data[c] == AlignedColumn(enc, row, c);
  }

  /** Sent through `predict`, training row i agrees with the fitted row on every feature
      column exactly when the median loop filled none of its feature cells. */
  lemma RowAgreesIffNothingFilled(train: Table, test: Table, kinds: map<string, Kind>, i: nat)
    requires Inputs(train, test, kinds) && Transformation(train, test, kinds).Ok? && i < train.rows
    ensures var out := Transformation(train, test, kinds).value;
      && Fitted(out.encoders)
      && (RowAgrees(out.encoders, out.trainColumns, RowOf(train, i), out.train, i) <==>
            NothingFilled(train, kinds, out.trainColumns, i))
  {
    var out := Transformation(train, test, kinds).value;
    var cols, row := out.trainColumns, RowOf(train, i);
    ArtifactsLoadable(train, test, kinds);
    forall c | c in cols ensures
      && c in train.data && c in kinds && c in out.train.data && |out.train.data[c]| == train.rows
      && |AlignedColumn(out.encoders, row, c)| == 1
      && (AlignedColumn(out.encoders, row, c)[0] == out.train.data[c][i] <==>
            !(kinds[c] == Numeric && train.data[c][i].Missing? && ColumnMedian(train.data[c]).Some?))
    {
      RoundTripCell(train, test, kinds, i, c);
    }
  }

  /** The round trip: training row i, sent through `predict` with the persisted encoders
      and `train_columns`, is aligned to the features the fit produced for that row, minus
      the last column, exactly when the median loop filled none of its feature cells. */
  lemma TrainRowRoundTrip(train: Table, test: Table, kinds: map<string, Kind>, i: nat)
    requires Inputs(train, test, kinds) && Transformation(train, test, kinds).Ok? && i < train.rows
    ensures var out := Transformation(train, test, kinds).value;
      && Fitted(out.encoders) && Distinct(out.trainColumns) && Valid(out.train)
      && var aligned := Aligned(out.encoders, out.trainColumns, RowOf(train, i));
      && Valid(aligned) && |Values(out.train)[i]| >= |out.trainColumns|
      && (Values(aligned) == [Values(out.train)[i][..|out.trainColumns|]] <==>
            NothingFilled(train, kinds, out.trainColumns, i))
  {
    var out := Transformation(train, test, kinds).value;
    ArtifactsLoadable(train, test, kinds);
    TransformationShape(train, test, kinds);
    TrainColumnsAllButLast(train, test, kinds);
    assert out.train.columns[..|out.trainColumns|] == out.trainColumns;
    AlignedRowMatches(out.encoders, out.trainColumns, RowOf(train, i), out.train, i);
    RowAgreesIffNothingFilled(train, test, kinds, i);
  }
}
