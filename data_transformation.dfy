/**
  The fit-time transformer, `DataTransformation.initiate_data_transformation`: it cleans a
  training and a test frame, fills missing numbers with the training median, fits one label
  encoder per categorical column on train and test together, encodes both frames and records
  the feature-column order. Reading the CSV files and writing the artifacts are not modelled;
  the method returns the two frames, the encoder map and the feature columns it would persist.
  */
module DataTransformation {
  import opened Tables
  import opened Statistics
  import opened LabelEncoding

  /** The dtype group that `select_dtypes` puts a training column in. */
  datatype Kind = Numeric | Object | Other

  datatype FitError =
    | MissingColumn(name: string)  // KeyError: `test_df[col]` for a column the test frame lacks
    | MixedTypes(name: string)     // TypeError from `le.fit`: strings mixed with numbers

  /** What the transformer returns or persists: both frames, the encoder map, `train_columns`. */
  datatype FitOutput = FitOutput(
    train: Table,
    test: Table,
    encoders: map<string, LabelEncoder>,
    trainColumns: seq<string>)

  /** What `pd.read_csv` and `select_dtypes` guarantee: two well-formed frames, a dtype for
      every training column, and object columns that hold only strings and missing cells. */
  ghost predicate Inputs(train: Table, test: Table, kinds: map<string, Kind>)
  {
    && Valid(train) && Valid(test)
    && (forall c :: c in train.data ==> c in kinds)
    && (forall c :: c in train.data && c in kinds && kinds[c] == Object ==> !HasNumber(train.data[c]))
  }

  // ---------------------------------------------------------------------------------------
  // What the transformer does to one column
  // ---------------------------------------------------------------------------------------

  /** The column after `fillna("missing")`. */
  function SentinelFilled(col: seq<Cell>): seq<Cell>
  {
    FillMissing(col, Str(Sentinel))
  }

  /** The label a cell of a filled categorical column stands for. Only strings reach the
      encoder: a number among them makes the fit raise first, and no missing cell is left. */
  function Label(cell: Cell): string
  {
    match cell
    case Str(s) => s
    case _ => Sentinel
  }

  /** The labels of a column, cell by cell. */
  function Texts(cells: seq<Cell>): (r: seq<string>)
    ensures |r| == |cells|
  {
    seq(|cells|, i requires 0 <= i < |cells| => Label(cells[i]))
  }

  /** Lines 35-37 for one column: fill with the training median when the training column
      has any number (pandas' median of no numbers is NaN, and filling with NaN changes nothing). */
  function MedianFilled(col: seq<Cell>, trainCol: seq<Cell>): seq<Cell>
  {
    match ColumnMedian(trainCol)
    case None => col
    case Some(m) => FillMissing(col, Num(m))
  }

  /** What the median loop does to column c of either frame. */
  function NumericStep(tr: Table, kinds: map<string, Kind>, c: string, col: seq<Cell>): seq<Cell>
  {
    if c in tr.data && c in kinds && kinds[c] == Numeric then MedianFilled(col, tr.data[c]) else col
  }

  /** Column c gets an encoder: an object column not entirely missing in the training frame. */
  predicate Encoded(tr: Table, kinds: map<string, Kind>, c: string)
  {
    c in tr.data && c in kinds && kinds[c] == Object && !AllMissing(tr.data[c])
  }

  /** The median loop fails on c: the test frame has no such column. */
  predicate NumericGap(tr: Table, te: Table, kinds: map<string, Kind>, c: string)
  {
    c in tr.data && c in kinds && kinds[c] == Numeric && c !in te.data
  }

  /** The encoding loop fails on c: no test column, or numbers among the test strings. */
  predicate EncodeFails(tr: Table, te: Table, kinds: map<string, Kind>, c: string)
  {
    Encoded(tr, kinds, c) && (c !in te.data || HasNumber(te.data[c]))
  }

  /** `le.fit(pd.concat([train_df[col], test_df[col]]))` after both are filled. */
  function ColumnEncoder(tr: Table, te: Table, c: string): LabelEncoder
    requires c in tr.data && c in te.data
  {
    Fit(Texts(SentinelFilled(tr.data[c]) + SentinelFilled(te.data[c])))
  }

  /** `le.transform` of a filled column: the code of each label. */
  function EncodeColumn(le: LabelEncoder, col: seq<Cell>): seq<Cell>
  {
    CodeCells(Transform(le, Texts(SentinelFilled(col))))
  }

  /** The transformer's effect on column c of either frame (col is that frame's column c). */
  function TransformedColumn(tr: Table, te: Table, kinds: map<string, Kind>, c: string, col: seq<Cell>): seq<Cell>
  {
    if Encoded(tr, kinds, c) && c in te.data then EncodeColumn(ColumnEncoder(tr, te, c), col)
    else NumericStep(tr, kinds, c, col)
  }

  /** Frame t (the cleaned training or test frame) with every column transformed. */
  function TransformedTable(t: Table, tr: Table, te: Table, kinds: map<string, Kind>): Table
  {
    Table(t.columns, map c | c in t.data :: TransformedColumn(tr, te, kinds, c, t.data[c]), t.rows)
  }

  /** The `label_encoders` dictionary. */
  function Encoders(tr: Table, te: Table, kinds: map<string, Kind>): map<string, LabelEncoder>
  {
    map c | c in tr.data && Encoded(tr, kinds, c) && c in te.data :: ColumnEncoder(tr, te, c)
  }

  /** `columns[:-1]`: every label but the last (none of an empty list). */
  function AllButLast(cols: seq<string>): (r: seq<string>)
    ensures |cols| > 0 ==> r + [cols[|cols| - 1]] == cols
    ensures |cols| == 0 ==> r == []
  {
    if |cols| == 0 then [] else cols[..|cols| - 1]
  }

  /** The position of the first true flag. */
  function FirstTrue(flags: seq<bool>): (r: Option<nat>)
    ensures r.Some? ==> r.value < |flags| && flags[r.value] && forall j :: 0 <= j < r.value ==> !flags[j]
    ensures r.None? ==> forall j :: 0 <= j < |flags| ==> !flags[j]
  {
    if flags == [] then None
    else if flags[0] then Some(0)
    else match FirstTrue(flags[1..])
      case None => None
      case Some(k) => Some(k + 1)
  }

  /** Which training columns make the median loop raise. */
  function GapFlags(tr: Table, te: Table, kinds: map<string, Kind>): seq<bool>
  {
    seq(|tr.columns|, j requires 0 <= j < |tr.columns| => NumericGap(tr, te, kinds, tr.columns[j]))
  }

  /** Which training columns make the encoding loop raise. */
  function FailFlags(tr: Table, te: Table, kinds: map<string, Kind>): seq<bool>
  {
    seq(|tr.columns|, j requires 0 <= j < |tr.columns| => EncodeFails(tr, te, kinds, tr.columns[j]))
  }

  /** The whole transformation, column by column; an exception in either loop becomes Err,
      naming the first column that raises. */
  function Transformation(train: Table, test: Table, kinds: map<string, Kind>): Result<FitOutput, FitError>
  {
    var tr, te := DropUnnamed(train), DropUnnamed(test);
    match FirstTrue(GapFlags(tr, te, kinds))
    case Some(i) => Err(MissingColumn(tr.columns[i]))
    case None =>
      match FirstTrue(FailFlags(tr, te, kinds))
      case Some(i) =>
        Err(if tr.columns[i] in te.data then MixedTypes(tr.columns[i]) else MissingColumn(tr.columns[i]))
      case None =>
        Ok(FitOutput(
          TransformedTable(tr, tr, te, kinds),
          TransformedTable(te, tr, te, kinds),
          Encoders(tr, te, kinds),
          AllButLast(tr.columns)))
  }

  lemma FirstTrueAt(flags: seq<bool>, i: nat)
    requires i < |flags| && flags[i] && forall j :: 0 <= j < i ==> !flags[j]
    ensures FirstTrue(flags) == Some(i)
  {
  }

  /** In a repeat-free list, the label at i is not among the ones before it. */
  lemma NextColumn(cols: seq<string>, i: nat)
    requires Distinct(cols) && i < |cols|
    ensures cols[..i + 1] == cols[..i] + [cols[i]] && cols[i] !in cols[..i]
  {
    assert cols[..i + 1] == cols[..i] + [cols[i]];
  }

  lemma ConcatHasNumber(a: seq<Cell>, b: seq<Cell>)
    ensures HasNumber(a + b) <==> HasNumber(a) || HasNumber(b)
  {
    if HasNumber(a) {
      var i :| 0 <= i < |a| && a[i].Num?;
      assert (a + b)[i] == a[i];
    }
    if HasNumber(b) {
      var i :| 0 <= i < |b| && b[i].Num?;
      assert (a + b)[|a| + i] == b[i];
    }
    if HasNumber(a + b) {
      var i :| 0 <= i < |a + b| && (a + b)[i].Num?;
      if i < |a| { assert a[i] == (a + b)[i]; } else { assert b[i - |a|] == (a + b)[i]; }
    }
  }

  lemma FilledKeepsNumbers(col: seq<Cell>)
    ensures HasNumber(SentinelFilled(col)) <==> HasNumber(col)
  {
    var f := SentinelFilled(col);
    if HasNumber(col) {
      var i :| 0 <= i < |col| && col[i].Num?;
      assert f[i] == col[i];
    }
    if HasNumber(f) {
      var i :| 0 <= i < |f| && f[i].Num?;
      assert f[i] == col[i];
    }
  }

  // ---------------------------------------------------------------------------------------
  // The median loop, lines 34-37
  // ---------------------------------------------------------------------------------------

  /** Frame t after the median loop. */
  function NumericTable(t: Table, tr: Table, kinds: map<string, Kind>): Table
  {
    Table(t.columns, map c | c in t.data :: NumericStep(tr, kinds, c, t.data[c]), t.rows)
  }

  /** Frame t part-way through the median loop: the columns in done are filled. */
  function NumericUpTo(t: Table, tr: Table, kinds: map<string, Kind>, done: seq<string>): Table
  {
    Table(t.columns, map c | c in t.data :: if c in done then NumericStep(tr, kinds, c, t.data[c]) else t.data[c], t.rows)
  }

  lemma NumericUpToNone(t: Table, tr: Table, kinds: map<string, Kind>)
    ensures NumericUpTo(t, tr, kinds, []) == t
  {
    assert NumericUpTo(t, tr, kinds, []).data == t.data;
  }

  lemma NumericUpToStep(t: Table, tr: Table, kinds: map<string, Kind>, done: seq<string>, col: string)
    requires col !in done && col in t.data
    ensures NumericUpTo(t, tr, kinds, done).data[col] == t.data[col]
    ensures NumericUpTo(t, tr, kinds, done + [col]) ==
      var p := NumericUpTo(t, tr, kinds, done);
      p.(data := p.data[col := NumericStep(tr, kinds, col, t.data[col])])
  {
    var p := NumericUpTo(t, tr, kinds, done);
    var q := NumericUpTo(t, tr, kinds, done + [col]);
    assert q.data == p.data[col := NumericStep(tr, kinds, col, t.data[col])];
  }

  lemma NumericUpToSkip(t: Table, tr: Table, kinds: map<string, Kind>, done: seq<string>, col: string)
    requires col !in t.data
    ensures NumericUpTo(t, tr, kinds, done + [col]) == NumericUpTo(t, tr, kinds, done)
  {
    assert NumericUpTo(t, tr, kinds, done + [col]).data == NumericUpTo(t, tr, kinds, done).data;
  }

  lemma NumericUpToAll(t: Table, tr: Table, kinds: map<string, Kind>)
    requires forall c :: c in tr.data <==> c in tr.columns
    ensures NumericUpTo(t, tr, kinds, tr.columns) == NumericTable(t, tr, kinds)
  {
    assert NumericUpTo(t, tr, kinds, tr.columns).data == NumericTable(t, tr, kinds).data;
  }

  /** The frames one pass of the median loop leaves are the next partial frames. */
  lemma NumericLoopStep(tr: Table, te: Table, kinds: map<string, Kind>, done: seq<string>, col: string,
                        trainDf: Table, testDf: Table, trainDf0: Table, testDf0: Table)
    requires col !in done && col in tr.data && col in kinds
    requires trainDf0 == NumericUpTo(tr, tr, kinds, done) && testDf0 == NumericUpTo(te, tr, kinds, done)
    requires kinds[col] == Numeric ==> col in te.data
    requires var m := ColumnMedian(tr.data[col]);
      if kinds[col] == Numeric && m.Some? then
        trainDf == trainDf0.(data := trainDf0.data[col := FillMissing(trainDf0.data[col], Num(m.value))]) &&
        testDf == testDf0.(data := testDf0.data[col := FillMissing(testDf0.data[col], Num(m.value))])
      else trainDf == trainDf0 && testDf == testDf0
    ensures trainDf == NumericUpTo(tr, tr, kinds, done + [col])
    ensures testDf == NumericUpTo(te, tr, kinds, done + [col])
  {
    NumericUpToStep(tr, tr, kinds, done, col);
    if col in te.data {
      NumericUpToStep(te, tr, kinds, done, col);
    } else {
      NumericUpToSkip(te, tr, kinds, done, col);
    }
    if !(kinds[col] == Numeric && ColumnMedian(tr.data[col]).Some?) {
      assert trainDf0.data[col := trainDf0.data[col]] == trainDf0.data;
      if col in te.data {
        assert testDf0.data[col := testDf0.data[col]] == testDf0.data;
      }
    }
  }

  /** One pass of the median loop (lines 35-37) on column col: Err when the test frame lacks
      a numeric column, otherwise both frames with col filled by the training median. */
  method FillNumericColumn(tr: Table, te: Table, kinds: map<string, Kind>, ghost done: seq<string>, col: string,
                           trainDf: Table, testDf: Table)
    returns (r: Result<(Table, Table), FitError>)
    requires col !in done && col in tr.data && col in kinds
    requires trainDf == NumericUpTo(tr, tr, kinds, done) && testDf == NumericUpTo(te, tr, kinds, done)
    ensures r.Err? <==> NumericGap(tr, te, kinds, col)
    ensures r.Err? ==> r.error == MissingColumn(col)
    ensures r.Ok? ==> r.value == (NumericUpTo(tr, tr, kinds, done + [col]), NumericUpTo(te, tr, kinds, done + [col]))
  {
    var trainOut, testOut := trainDf, testDf;
    if kinds[col] == Numeric {
      if col !in testDf.data {
        return Err(MissingColumn(col));
      }
      NumericUpToStep(tr, tr, kinds, done, col);
      var median := ColumnMedian(trainDf.data[col]);
      if median.Some? {
        trainOut := trainDf.(data := trainDf.data[col := FillMissing(trainDf.data[col], Num(median.value))]);
        testOut := testDf.(data := testDf.data[col := FillMissing(testDf.data[col], Num(median.value))]);
      }
    }
    NumericLoopStep(tr, te, kinds, done, col, trainOut, testOut, trainDf, testDf);
    r := Ok((trainOut, testOut));
  }

  /** Lines 34-37: the median loop over the numeric training columns, in column order. */
  method FillNumericColumns(tr: Table, te: Table, kinds: map<string, Kind>)
    returns (r: Result<(Table, Table), FitError>)
    requires Distinct(tr.columns) && (forall c :: c in tr.data <==> c in tr.columns)
    requires forall c :: c in tr.data ==> c in kinds
    ensures FirstTrue(GapFlags(tr, te, kinds)).Some? ==>
      r == Err(MissingColumn(tr.columns[FirstTrue(GapFlags(tr, te, kinds)).value]))
    ensures FirstTrue(GapFlags(tr, te, kinds)).None? ==>
      r == Ok((NumericTable(tr, tr, kinds), NumericTable(te, tr, kinds)))
  {
    var trainDf, testDf := tr, te;
    var cols := tr.columns;
    ghost var gaps := GapFlags(tr, te, kinds);
    NumericUpToNone(tr, tr, kinds);
    NumericUpToNone(te, tr, kinds);
    assert cols[..0] == [];
    var i := 0;
    while i < |cols|
      invariant 0 <= i <= |cols|
      invariant forall j :: 0 <= j < i ==> !gaps[j]
      invariant trainDf == NumericUpTo(tr, tr, kinds, cols[..i])
      invariant testDf == NumericUpTo(te, tr, kinds, cols[..i])
    {
      var col := cols[i];
      NextColumn(cols, i);
      var step := FillNumericColumn(tr, te, kinds, cols[..i], col, trainDf, testDf);
      if step.Err? {
        FirstTrueAt(gaps, i);
        return Err(step.error);
      }
      trainDf, testDf := step.value.0, step.value.1;
      i := i + 1;
    }
    assert FirstTrue(gaps).None?;
    assert cols[..|cols|] == cols;
    NumericUpToAll(tr, tr, kinds);
    NumericUpToAll(te, tr, kinds);
    r := Ok((trainDf, testDf));
  }

  // ---------------------------------------------------------------------------------------
  // The encoding loop, lines 40-54
  // ---------------------------------------------------------------------------------------

  /** Frame t part-way through the encoding loop: the columns in done are transformed, the
      others are as the median loop left them. */
  function EncodedUpTo(t: Table, tr: Table, te: Table, kinds: map<string, Kind>, done: seq<string>): Table
  {
    Table(t.columns, map c | c in t.data ::
      if c in done then TransformedColumn(tr, te, kinds, c, t.data[c]) else NumericStep(tr, kinds, c, t.data[c]),
      t.rows)
  }

  /** The encoders fitted for the columns in done. */
  function EncodersUpTo(tr: Table, te: Table, kinds: map<string, Kind>, done: seq<string>): map<string, LabelEncoder>
  {
    map c | c in done && c in tr.data && Encoded(tr, kinds, c) && c in te.data :: ColumnEncoder(tr, te, c)
  }

  lemma EncodedUpToNone(t: Table, tr: Table, te: Table, kinds: map<string, Kind>)
    ensures EncodedUpTo(t, tr, te, kinds, []) == NumericTable(t, tr, kinds)
    ensures EncodersUpTo(tr, te, kinds, []) == map[]
  {
    assert EncodedUpTo(t, tr, te, kinds, []).data == NumericTable(t, tr, kinds).data;
  }

  lemma EncodedUpToStep(t: Table, tr: Table, te: Table, kinds: map<string, Kind>, done: seq<string>, col: string)
    requires col !in done && col in t.data
    ensures EncodedUpTo(t, tr, te, kinds, done).data[col] == NumericStep(tr, kinds, col, t.data[col])
    ensures EncodedUpTo(t, tr, te, kinds, done + [col]) ==
      var p := EncodedUpTo(t, tr, te, kinds, done);
      p.(data := p.data[col := TransformedColumn(tr, te, kinds, col, t.data[col])])
  {
    var p := EncodedUpTo(t, tr, te, kinds, done);
    var q := EncodedUpTo(t, tr, te, kinds, done + [col]);
    assert q.data == p.data[col := TransformedColumn(tr, te, kinds, col, t.data[col])];
  }

  lemma EncodedUpToSkip(t: Table, tr: Table, te: Table, kinds: map<string, Kind>, done: seq<string>, col: string)
    requires col !in t.data
    ensures EncodedUpTo(t, tr, te, kinds, done + [col]) == EncodedUpTo(t, tr, te, kinds, done)
  {
    assert EncodedUpTo(t, tr, te, kinds, done + [col]).data == EncodedUpTo(t, tr, te, kinds, done).data;
  }

  lemma EncodersUpToStep(tr: Table, te: Table, kinds: map<string, Kind>, done: seq<string>, col: string)
    ensures EncodersUpTo(tr, te, kinds, done + [col]) ==
      if col in tr.data && Encoded(tr, kinds, col) && col in te.data
      then EncodersUpTo(tr, te, kinds, done)[col := ColumnEncoder(tr, te, col)]
      else EncodersUpTo(tr, te, kinds, done)
  {
  }

  lemma EncodedUpToAll(t: Table, tr: Table, te: Table, kinds: map<string, Kind>)
    requires forall c :: c in tr.data <==> c in tr.columns
    ensures EncodedUpTo(t, tr, te, kinds, tr.columns) == TransformedTable(t, tr, te, kinds)
    ensures EncodersUpTo(tr, te, kinds, tr.columns) == Encoders(tr, te, kinds)
  {
    assert EncodedUpTo(t, tr, te, kinds, tr.columns).data == TransformedTable(t, tr, te, kinds).data;
  }

  /** A column the encoding loop passes over leaves the frames and the encoders as they are. */
  lemma SkippedColumn(tr: Table, te: Table, kinds: map<string, Kind>, done: seq<string>, col: string)
    requires col !in done && col in tr.data && !Encoded(tr, kinds, col)
    ensures EncodedUpTo(tr, tr, te, kinds, done + [col]) == EncodedUpTo(tr, tr, te, kinds, done)
    ensures EncodedUpTo(te, tr, te, kinds, done + [col]) == EncodedUpTo(te, tr, te, kinds, done)
    ensures EncodersUpTo(tr, te, kinds, done + [col]) == EncodersUpTo(tr, te, kinds, done)
  {
    EncodedUpToStep(tr, tr, te, kinds, done, col);
    var p := EncodedUpTo(tr, tr, te, kinds, done);
    assert p.data[col := p.data[col]] == p.data;
    if col in te.data {
      EncodedUpToStep(te, tr, te, kinds, done, col);
      var q := EncodedUpTo(te, tr, te, kinds, done);
      assert q.data[col := q.data[col]] == q.data;
    } else {
      EncodedUpToSkip(te, tr, te, kinds, done, col);
    }
    EncodersUpToStep(tr, te, kinds, done, col);
  }

  /** The frames and encoder map one encoding pass produces are the next partial ones. */
  lemma EncodedColumn(tr: Table, te: Table, kinds: map<string, Kind>, done: seq<string>, col: string,
                      trainDf: Table, testDf: Table, encoders: map<string, LabelEncoder>)
    requires col !in done && col in tr.data && col in te.data && Encoded(tr, kinds, col)
    requires
      var p, q := EncodedUpTo(tr, tr, te, kinds, done), EncodedUpTo(te, tr, te, kinds, done);
      var le := ColumnEncoder(tr, te, col);
      && trainDf == p.(data := p.data[col := EncodeColumn(le, tr.data[col])])
      && testDf == q.(data := q.data[col := EncodeColumn(le, te.data[col])])
      && encoders == EncodersUpTo(tr, te, kinds, done)[col := le]
    ensures trainDf == EncodedUpTo(tr, tr, te, kinds, done + [col])
    ensures testDf == EncodedUpTo(te, tr, te, kinds, done + [col])
    ensures encoders == EncodersUpTo(tr, te, kinds, done + [col])
  {
    EncodedUpToStep(tr, tr, te, kinds, done, col);
    EncodedUpToStep(te, tr, te, kinds, done, col);
    EncodersUpToStep(tr, te, kinds, done, col);
  }

  /** One pass of the encoding loop (lines 41-54) on column col. */
  method EncodeObjectColumn(tr: Table, te: Table, kinds: map<string, Kind>, ghost done: seq<string>, col: string,
                            trainDf: Table, testDf: Table, encoders: map<string, LabelEncoder>)
    returns (r: Result<(Table, Table, map<string, LabelEncoder>), FitError>)
    requires col !in done && col in tr.data && col in kinds
    requires kinds[col] == Object ==> !HasNumber(tr.data[col])
    requires trainDf == EncodedUpTo(tr, tr, te, kinds, done) && testDf == EncodedUpTo(te, tr, te, kinds, done)
    requires encoders == EncodersUpTo(tr, te, kinds, done)
    ensures r.Err? <==> EncodeFails(tr, te, kinds, col)
    ensures r.Err? ==> r.error == if col in te.data then MixedTypes(col) else MissingColumn(col)
    ensures r.Ok? ==>
      r.value == (EncodedUpTo(tr, tr, te, kinds, done + [col]), EncodedUpTo(te, tr, te, kinds, done + [col]),
                  EncodersUpTo(tr, te, kinds, done + [col]))
  {
    EncodedUpToStep(tr, tr, te, kinds, done, col);
    if kinds[col] != Object || AllMissing(trainDf.data[col]) {
      SkippedColumn(tr, te, kinds, done, col);
      return Ok((trainDf, testDf, encoders));
    }
    assert trainDf.data[col] == tr.data[col];
    var trainCol := SentinelFilled(trainDf.data[col]);
    if col !in testDf.data {
      return Err(MissingColumn(col));
    }
    EncodedUpToStep(te, tr, te, kinds, done, col);
    assert testDf.data[col] == te.data[col];
    var testCol := SentinelFilled(testDf.data[col]);
    ConcatHasNumber(trainCol, testCol);
    FilledKeepsNumbers(tr.data[col]);
    FilledKeepsNumbers(te.data[col]);
    if HasNumber(trainCol + testCol) {
      return Err(MixedTypes(col));
    }
    var le := Fit(Texts(trainCol + testCol));
    assert le == ColumnEncoder(tr, te, col);
    var trainOut := trainDf.(data := trainDf.data[col := CodeCells(Transform(le, Texts(trainCol)))]);
    var testOut := testDf.(data := testDf.data[col := CodeCells(Transform(le, Texts(testCol)))]);
    EncodedColumn(tr, te, kinds, done, col, trainOut, testOut, encoders[col := le]);
    r := Ok((trainOut, testOut, encoders[col := le]));
  }

  /** Lines 40-54: the encoding loop over the object training columns, run on the frames
      the median loop left behind. */
  method EncodeObjectColumns(tr: Table, te: Table, kinds: map<string, Kind>, train0: Table, test0: Table)
    returns (r: Result<(Table, Table, map<string, LabelEncoder>), FitError>)
    requires Distinct(tr.columns) && (forall c :: c in tr.data <==> c in tr.columns)
    requires forall c :: c in tr.data ==> c in kinds
    requires forall c :: c in tr.data && c in kinds && kinds[c] == Object ==> !HasNumber(tr.data[c])
    requires train0 == NumericTable(tr, tr, kinds) && test0 == NumericTable(te, tr, kinds)
    ensures FirstTrue(FailFlags(tr, te, kinds)).Some? ==>
      var c := tr.columns[FirstTrue(FailFlags(tr, te, kinds)).value];
      r == Err(if c in te.data then MixedTypes(c) else MissingColumn(c))
    ensures FirstTrue(FailFlags(tr, te, kinds)).None? ==>
      r == Ok((TransformedTable(tr, tr, te, kinds), TransformedTable(te, tr, te, kinds), Encoders(tr, te, kinds)))
  {
    var trainDf, testDf := train0, test0;
    var encoders: map<string, LabelEncoder> := map[];
    var cols := tr.columns;
    ghost var fails := FailFlags(tr, te, kinds);
    EncodedUpToNone(tr, tr, te, kinds);
    EncodedUpToNone(te, tr, te, kinds);
    assert cols[..0] == [];
    var i := 0;
    while i < |cols|
      invariant 0 <= i <= |cols|
      invariant forall j :: 0 <= j < i ==> !fails[j]
      invariant trainDf == EncodedUpTo(tr, tr, te, kinds, cols[..i])
      invariant testDf == EncodedUpTo(te, tr, te, kinds, cols[..i])
      invariant encoders == EncodersUpTo(tr, te, kinds, cols[..i])
    {
      var col := cols[i];
      NextColumn(cols, i);
      var step := EncodeObjectColumn(tr, te, kinds, cols[..i], col, trainDf, testDf, encoders);
      if step.Err? {
        FirstTrueAt(fails, i);
        return Err(step.error);
      }
      trainDf, testDf, encoders := step.value.0, step.value.1, step.value.2;
      i := i + 1;
    }
    assert FirstTrue(fails).None?;
    assert cols[..|cols|] == cols;
    EncodedUpToAll(tr, tr, te, kinds);
    EncodedUpToAll(te, tr, te, kinds);
    r := Ok((trainDf, testDf, encoders));
  }

  /** `initiate_data_transformation` (lines 29-54 and 63), file I/O left out. */
  method InitiateDataTransformation(train: Table, test: Table, kinds: map<string, Kind>)
    returns (r: Result<FitOutput, FitError>)
    requires Inputs(train, test, kinds)
    ensures r == Transformation(train, test, kinds)
  {
    var trainDf := DropUnnamed(train);
    var testDf := DropUnnamed(test);
    var filled := FillNumericColumns(trainDf, testDf, kinds);
    if filled.Err? {
      return Err(filled.error);
    }
    var encoded := EncodeObjectColumns(trainDf, testDf, kinds, filled.value.0, filled.value.1);
    if encoded.Err? {
      return Err(encoded.error);
    }
    var (trainOut, testOut, encoders) := encoded.value;
    var trainColumns := AllButLast(trainOut.columns);
    r := Ok(FitOutput(trainOut, testOut, encoders, trainColumns));
  }

  // ---------------------------------------------------------------------------------------
  // What the transformation promises
  // ---------------------------------------------------------------------------------------

  /** On success the outputs are the transformed frames, and no training column made either
      loop raise. */
  lemma TransformationOk(train: Table, test: Table, kinds: map<string, Kind>)
    requires Inputs(train, test, kinds) && Transformation(train, test, kinds).Ok?
    ensures var tr, te := DropUnnamed(train), DropUnnamed(test);
      && Transformation(train, test, kinds).value == FitOutput(
           TransformedTable(tr, tr, te, kinds), TransformedTable(te, tr, te, kinds),
           Encoders(tr, te, kinds), AllButLast(tr.columns))
      && (forall c :: c in tr.data ==> !NumericGap(tr, te, kinds, c) && !EncodeFails(tr, te, kinds, c))
  {
    var tr, te := DropUnnamed(train), DropUnnamed(test);
    var gaps, fails := GapFlags(tr, te, kinds), FailFlags(tr, te, kinds);
    assert FirstTrue(gaps).None? && FirstTrue(fails).None?;
    forall c | c in tr.data ensures !NumericGap(tr, te, kinds, c) && !EncodeFails(tr, te, kinds, c) {
      var j :| 0 <= j < |tr.columns| && tr.columns[j] == c;
      assert !gaps[j] && !fails[j];
    }
  }

  /** The transformation raises exactly when some cleaned training column makes one of the
      two loops raise. */
  lemma TransformationFails(train: Table, test: Table, kinds: map<string, Kind>)
    requires Inputs(train, test, kinds)
    ensures var tr, te := DropUnnamed(train), DropUnnamed(test);
      Transformation(train, test, kinds).Err? <==>
      exists c :: c in tr.data && (NumericGap(tr, te, kinds, c) || EncodeFails(tr, te, kinds, c))
  {
    var tr, te := DropUnnamed(train), DropUnnamed(test);
    if Transformation(train, test, kinds).Ok? {
      TransformationOk(train, test, kinds);
    } else {
      var gaps, fails := GapFlags(tr, te, kinds), FailFlags(tr, te, kinds);
      if FirstTrue(gaps).Some? {
        var k := FirstTrue(gaps).value;
        assert gaps[k] && tr.columns[k] in tr.data;
      } else {
        var k := FirstTrue(fails).value;
        assert fails[k] && tr.columns[k] in tr.data;
      }
    }
  }

  /** Frame t keeps its labels, its keys and its length when every column is transformed. */
  lemma TransformedTableValid(t: Table, tr: Table, te: Table, kinds: map<string, Kind>)
    requires Valid(t)
    ensures var r := TransformedTable(t, tr, te, kinds);
      Valid(r) && r.columns == t.columns && r.rows == t.rows && (forall c :: c in r.data <==> c in t.data)
  {
    var r := TransformedTable(t, tr, te, kinds);
    forall c | c in r.data ensures |r.data[c]| == r.rows {
      assert |TransformedColumn(tr, te, kinds, c, t.data[c])| == |t.data[c]|;
    }
  }

  /** Lines 30-31 and 34-54: no 'Unnamed' label survives, the other labels keep their order,
      and the fill and encode steps change cells only, never the labels or the length. */
  lemma TransformationShape(train: Table, test: Table, kinds: map<string, Kind>)
    requires Inputs(train, test, kinds) && Transformation(train, test, kinds).Ok?
    ensures var out := Transformation(train, test, kinds).value;
      && out.train.columns == KeepNamed(train.columns) && out.test.columns == KeepNamed(test.columns)
      && IsSubsequence(out.train.columns, train.columns) && IsSubsequence(out.test.columns, test.columns)
      && (forall c :: c in out.train.columns ==> !IsUnnamed(c))
      && (forall c :: c in out.test.columns ==> !IsUnnamed(c))
      && out.train.rows == train.rows && out.test.rows == test.rows
      && Valid(out.train) && Valid(out.test)
  {
    TransformationOk(train, test, kinds);
    var tr, te := DropUnnamed(train), DropUnnamed(test);
    TransformedTableValid(tr, tr, te, kinds);
    TransformedTableValid(te, tr, te, kinds);
    KeepNamedInOrder(train.columns);
    KeepNamedInOrder(test.columns);
  }

  /** Line 63: `train_columns` is the cleaned training labels without the last one. */
  lemma TrainColumnsAllButLast(train: Table, test: Table, kinds: map<string, Kind>)
    requires Inputs(train, test, kinds) && Transformation(train, test, kinds).Ok?
    ensures var out := Transformation(train, test, kinds).value;
      && (|out.train.columns| > 0 ==>
            |out.trainColumns| == |out.train.columns| - 1 &&
            out.trainColumns + [out.train.columns[|out.train.columns| - 1]] == out.train.columns)
      && (|out.train.columns| == 0 ==> out.trainColumns == [])
  {
    TransformationOk(train, test, kinds);
  }

  /** One cell of a median-filled column. */
  lemma MedianFilledCell(col: seq<Cell>, trainCol: seq<Cell>, i: nat)
    requires i < |col|
    ensures |MedianFilled(col, trainCol)| == |col|
    ensures var m := ColumnMedian(trainCol);
      MedianFilled(col, trainCol)[i] == if col[i].Missing? && m.Some? then Num(m.value) else col[i]
  {
  }

  /** Lines 34-37: in both frames a missing cell of a numeric column becomes the median of
      the training column (left missing when that column has no number at all), and every
      other cell is kept. */
  lemma MedianFill(train: Table, test: Table, kinds: map<string, Kind>, c: string)
    requires Inputs(train, test, kinds) && Transformation(train, test, kinds).Ok?
    requires c in train.data && !IsUnnamed(c) && kinds[c] == Numeric
    ensures var out, m := Transformation(train, test, kinds).value, ColumnMedian(train.data[c]);
      && c in test.data && c in out.train.data && c in out.test.data
      && |out.train.data[c]| == |train.data[c]| && |out.test.data[c]| == |test.data[c]|
      && (forall i :: 0 <= i < |train.data[c]| ==>
            out.train.data[c][i] == if train.data[c][i].Missing? && m.Some? then Num(m.value) else train.data[c][i])
      && (forall i :: 0 <= i < |test.data[c]| ==>
            out.test.data[c][i] == if test.data[c][i].Missing? && m.Some? then Num(m.value) else test.data[c][i])
  {
    TransformationOk(train, test, kinds);
    var tr, te := DropUnnamed(train), DropUnnamed(test);
    assert !NumericGap(tr, te, kinds, c);
    forall i | 0 <= i < |train.data[c]| {
      MedianFilledCell(train.data[c], train.data[c], i);
    }
    forall i | 0 <= i < |test.data[c]| {
      MedianFilledCell(test.data[c], train.data[c], i);
    }
  }

  /** The test frame never influences the training frame's numeric columns. */
  lemma MedianIgnoresTest(train: Table, test1: Table, test2: Table, kinds: map<string, Kind>, c: string)
    requires Inputs(train, test1, kinds) && Transformation(train, test1, kinds).Ok?
    requires Inputs(train, test2, kinds) && Transformation(train, test2, kinds).Ok?
    requires c in train.data && !IsUnnamed(c) && kinds[c] == Numeric
    ensures Transformation(train, test1, kinds).value.train.data[c] == Transformation(train, test2, kinds).value.train.data[c]
  {
    MedianFill(train, test1, kinds, c);
    MedianFill(train, test2, kinds, c);
  }

  /** Lines 43-44, 41 and 54: a column gets an encoder exactly when it is an object column
      with some non-missing training cell (the target column included). */
  lemma EncoderKeys(train: Table, test: Table, kinds: map<string, Kind>)
    requires Inputs(train, test, kinds) && Transformation(train, test, kinds).Ok?
    ensures var out := Transformation(train, test, kinds).value;
      forall c :: c in out.encoders <==>
        c in train.data && !IsUnnamed(c) && kinds[c] == Object && !AllMissing(train.data[c])
  {
    TransformationOk(train, test, kinds);
  }

  /** Lines 43-44 and the median loop: the columns that neither loop encodes or fills keep
      their cells, in the training and in the test frame. */
  lemma UntouchedColumns(train: Table, test: Table, kinds: map<string, Kind>, c: string)
    requires Inputs(train, test, kinds) && Transformation(train, test, kinds).Ok?
    requires !IsUnnamed(c)
    requires c in train.data ==> kinds[c] == Other || (kinds[c] == Object && AllMissing(train.data[c]))
    ensures var out := Transformation(train, test, kinds).value;
      && (c in train.data ==> c in out.train.data && out.train.data[c] == train.data[c] && c !in out.encoders)
      && (c in test.data ==> c in out.test.data && out.test.data[c] == test.data[c])
  {
    TransformationOk(train, test, kinds);
  }

  /** A filled column without numbers holds strings only, and its labels are those strings. */
  lemma LabelsOfFilled(a: seq<Cell>, b: seq<Cell>)
    requires !HasNumber(a) && !HasNumber(b)
    ensures var f := SentinelFilled(a) + SentinelFilled(b);
      && (forall i :: 0 <= i < |f| ==> f[i].Str? && f[i] == Str(Texts(f)[i]))
      && (forall y :: y in Texts(f) <==> Str(y) in f)
  {
    var f := SentinelFilled(a) + SentinelFilled(b);
    FilledKeepsNumbers(a);
    FilledKeepsNumbers(b);
    ConcatHasNumber(SentinelFilled(a), SentinelFilled(b));
    forall i | 0 <= i < |f| ensures f[i].Str? && f[i] == Str(Texts(f)[i]) {
      assert !f[i].Num?;
      if i < |a| { assert f[i] == SentinelFilled(a)[i]; } else { assert f[i] == SentinelFilled(b)[i - |a|]; }
    }
    forall y ensures y in Texts(f) <==> Str(y) in f {
      if y in Texts(f) {
        var i :| 0 <= i < |f| && Texts(f)[i] == y;
        assert f[i] == Str(y);
      }
      if Str(y) in f {
        var i :| 0 <= i < |f| && f[i] == Str(y);
        assert Texts(f)[i] == y;
      }
    }
  }

  /** The encoder of column c on success: fitted on the filled training and test cells. */
  lemma EncoderOf(train: Table, test: Table, kinds: map<string, Kind>, c: string)
    requires Inputs(train, test, kinds) && Transformation(train, test, kinds).Ok?
    requires c in Transformation(train, test, kinds).value.encoders
    ensures var out := Transformation(train, test, kinds).value;
      && c in train.data && c in test.data && !IsUnnamed(c) && Encoded(DropUnnamed(train), kinds, c)
      && !HasNumber(train.data[c]) && !HasNumber(test.data[c])
      && out.encoders[c] == Fit(Texts(SentinelFilled(train.data[c]) + SentinelFilled(test.data[c])))
      && out.train.data[c] == EncodeColumn(out.encoders[c], train.data[c])
      && out.test.data[c] == EncodeColumn(out.encoders[c], test.data[c])
  {
    TransformationOk(train, test, kinds);
    var tr, te := DropUnnamed(train), DropUnnamed(test);
    assert !EncodeFails(tr, te, kinds, c);
  }

  /** The vocabulary fitted on two filled columns without numbers: sorted, repeat-free,
      holding exactly their strings, and non-empty when one of them has a present cell. */
  lemma ColumnVocabulary(a: seq<Cell>, b: seq<Cell>)
    requires !HasNumber(a) && !HasNumber(b)
    ensures var f := SentinelFilled(a) + SentinelFilled(b);
      var le := Fit(Texts(f));
      && StrictlySorted(le.classes)
      && (!AllMissing(a) ==> |le.classes| > 0)
      && (forall y :: y in le.classes <==> Str(y) in SentinelFilled(a) || Str(y) in SentinelFilled(b))
      && (forall i :: 0 <= i < |f| ==> f[i].Str? && f[i].text in le.classes)
  {
    var f := SentinelFilled(a) + SentinelFilled(b);
    LabelsOfFilled(a, b);
    FitSpec(Texts(f));
    if !AllMissing(a) {
      var i :| 0 <= i < |a| && !a[i].Missing?;
      assert f[i] == SentinelFilled(a)[i];
    }
    forall i | 0 <= i < |f| ensures f[i].text in Fit(Texts(f)).classes {
      assert f[i] == Str(Texts(f)[i]);
    }
  }

  /** The codes written into two filled columns by the encoder fitted on both: in range,
      decoding to the filled value, and equal exactly when the filled values are equal. */
  lemma ColumnCodes(a: seq<Cell>, b: seq<Cell>)
    requires !HasNumber(a) && !HasNumber(b)
    ensures var f := SentinelFilled(a) + SentinelFilled(b);
      var le := Fit(Texts(f));
      var cells := EncodeColumn(le, a) + EncodeColumn(le, b);
      && StrictlySorted(le.classes)
      && |cells| == |f|
      && (forall i :: 0 <= i < |cells| ==> HoldsCode(le, cells[i], f[i]))
      && (forall i, j :: 0 <= i < |cells| && 0 <= j < |cells| ==> (cells[i] == cells[j] <==> f[i] == f[j]))
  {
    var f := SentinelFilled(a) + SentinelFilled(b);
    var le := Fit(Texts(f));
    ColumnVocabulary(a, b);
    CodesOfKnownLabels(le, f);
    EncodeConcat(le, a, b);
  }

  /** Lines 48-51: the vocabulary of an encoded column is the sorted set of distinct values
      of the column in train and test together, after missing cells became "missing". */
  lemma Vocabulary(train: Table, test: Table, kinds: map<string, Kind>, c: string)
    requires Inputs(train, test, kinds) && Transformation(train, test, kinds).Ok?
    requires c in Transformation(train, test, kinds).value.encoders
    ensures var le := Transformation(train, test, kinds).value.encoders[c];
      && c in train.data && c in test.data
      && StrictlySorted(le.classes) && |le.classes| > 0
      && forall y :: y in le.classes <==> Str(y) in SentinelFilled(train.data[c]) || Str(y) in SentinelFilled(test.data[c])
  {
    EncoderOf(train, test, kinds, c);
    ColumnVocabulary(train.data[c], test.data[c]);
  }

  /** The cell holds the code of a class of le, and decoding that code gives back the
      filled cell. */
  ghost predicate HoldsCode(le: LabelEncoder, cell: Cell, filled: Cell)
    requires StrictlySorted(le.classes)
  {
    exists k: nat :: k < |le.classes| && cell == Code(k) && filled == Str(Decode(le, k))
  }

  /** Codes of a column of known labels: each is in range and decodes to its label, and two
      cells get the same code exactly when they hold the same label. */
  lemma CodesOfKnownLabels(le: LabelEncoder, f: seq<Cell>)
    requires StrictlySorted(le.classes)
    requires forall i :: 0 <= i < |f| ==> f[i].Str? && f[i].text in le.classes
    ensures var cells := CodeCells(Transform(le, Texts(f)));
      && |cells| == |f|
      && (forall i :: 0 <= i < |cells| ==> HoldsCode(le, cells[i], f[i]))
      && (forall i, j :: 0 <= i < |cells| && 0 <= j < |cells| ==> (cells[i] == cells[j] <==> f[i] == f[j]))
  {
    var cells := CodeCells(Transform(le, Texts(f)));
    forall i | 0 <= i < |cells| ensures HoldsCode(le, cells[i], f[i]) {
      var k := IndexOf(le.classes, f[i].text);
      IndexOfSpec(le.classes, f[i].text);
      assert cells[i] == Code(k) && f[i] == Str(Decode(le, k));
    }
    forall i, j | 0 <= i < |cells| && 0 <= j < |cells| ensures cells[i] == cells[j] <==> f[i] == f[j] {
      IndexOfInjective(le, f[i].text, f[j].text);
      assert cells[i] == Code(IndexOf(le.classes, f[i].text));
      assert cells[j] == Code(IndexOf(le.classes, f[j].text));
    }
  }

  /** Encoding two filled columns one after the other is encoding their concatenation. */
  lemma EncodeConcat(le: LabelEncoder, a: seq<Cell>, b: seq<Cell>)
    ensures EncodeColumn(le, a) + EncodeColumn(le, b) == CodeCells(Transform(le, Texts(SentinelFilled(a) + SentinelFilled(b))))
  {
    var f := SentinelFilled(a) + SentinelFilled(b);
    var cells := CodeCells(Transform(le, Texts(f)));
    forall i | 0 <= i < |cells| ensures (EncodeColumn(le, a) + EncodeColumn(le, b))[i] == cells[i] {
      if i < |a| {
        assert f[i] == SentinelFilled(a)[i];
      } else {
        assert f[i] == SentinelFilled(b)[i - |a|];
      }
    }
  }

  /** Lines 51-53: every encoded cell of train and test is a code below the vocabulary size
      that decodes to the filled original value (so no test value is unseen). */
  lemma EncodedCodes(train: Table, test: Table, kinds: map<string, Kind>, c: string)
    requires Inputs(train, test, kinds) && Transformation(train, test, kinds).Ok?
    requires c in Transformation(train, test, kinds).value.encoders
    ensures var out := Transformation(train, test, kinds).value;
      var le := out.encoders[c];
      && c in train.data && c in test.data && c in out.train.data && c in out.test.data
      && StrictlySorted(le.classes)
      && var cells, f := out.train.data[c] + out.test.data[c], SentinelFilled(train.data[c]) + SentinelFilled(test.data[c]);
      && |cells| == |f|
      && (forall i :: 0 <= i < |cells| ==> HoldsCode(le, cells[i], f[i]))
  {
    EncoderOf(train, test, kinds, c);
    ColumnCodes(train.data[c], test.data[c]);
  }

  /** Lines 51-53: two encoded cells, in either frame, hold the same code exactly when they
      held the same value after filling. */
  lemma EncodedInjective(train: Table, test: Table, kinds: map<string, Kind>, c: string)
    requires Inputs(train, test, kinds) && Transformation(train, test, kinds).Ok?
    requires c in Transformation(train, test, kinds).value.encoders
    ensures var out := Transformation(train, test, kinds).value;
      && c in train.data && c in test.data && c in out.train.data && c in out.test.data
      && var cells, f := out.train.data[c] + out.test.data[c], SentinelFilled(train.data[c]) + SentinelFilled(test.data[c]);
      && |cells| == |f|
      && (forall i, j :: 0 <= i < |cells| && 0 <= j < |cells| ==> (cells[i] == cells[j] <==> f[i] == f[j]))
  {
    EncoderOf(train, test, kinds, c);
    ColumnCodes(train.data[c], test.data[c]);
  }
}
