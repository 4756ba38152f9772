/**
  The inference-time aligner, `PredictionPipeline.predict` with `_apply_label_encoders`: it
  takes an arbitrary frame, strips 'Unnamed' columns, adds every absent training column as
  a column of zeros, keeps exactly the training columns in their order, and encodes every
  column that has a label encoder, mapping values the encoder has not seen to its first class.
  Loading the artifacts and the classifier call are not modelled; `Predict` returns the
  matrix that would be handed to the classifier.
  */
module Prediction {
  import opened Tables
  import opened LabelEncoding

  /** What a loaded preprocessor must be for line 36 to succeed: fitted encoders, each with
      a sorted, repeat-free and non-empty class list. */
  predicate Fitted(enc: map<string, LabelEncoder>)
  {
    forall c :: c in enc ==> StrictlySorted(enc[c].classes) && |enc[c].classes| > 0
  }

  /** The cell `df[col] = 0` broadcasts into an absent column. */
  const Zero: Cell := Num(0.0)

  /** Line 36's lambda on a filled cell: a class stays itself, anything else (another string,
      a number) becomes `classes_[0]`. */
  function KnownLabel(le: LabelEncoder, cell: Cell): string
    requires |le.classes| > 0
  {
    if cell.Str? && cell.text in le.classes then cell.text else le.classes[0]
  }

  /** Line 36 over a whole column. */
  function KnownLabels(le: LabelEncoder, col: seq<Cell>): (r: seq<string>)
    requires |le.classes| > 0
    ensures |r| == |col|
  {
    seq(|col|, i requires 0 <= i < |col| => KnownLabel(le, col[i]))
  }

  /** Lines 34-37 on one column: fill, map to a known class, transform. */
  function EncodeKnown(le: LabelEncoder, col: seq<Cell>): seq<Cell>
    requires |le.classes| > 0
  {
    CodeCells(Transform(le, KnownLabels(le, FillMissing(col, Str(Sentinel)))))
  }

  /** The code line 34-37 writes for one input cell. */
  function EncodeCell(le: LabelEncoder, cell: Cell): Cell
    requires |le.classes| > 0
  {
    Code(IndexOf(le.classes, KnownLabel(le, if cell.Missing? then Str(Sentinel) else cell)))
  }

  /** The frame after `_apply_label_encoders`: each column with an encoder is encoded, the
      others are kept, and encoders without a column are ignored. */
  function ApplyEncoders(enc: map<string, LabelEncoder>, t: Table): Table
    requires Fitted(enc)
  {
    Table(t.columns, map c | c in t.data :: if c in enc then EncodeKnown(enc[c], t.data[c]) else t.data[c], t.rows)
  }

  /** The frame part-way through `_apply_label_encoders`: encoders still pending not applied. */
  function ApplyEncodersExcept(enc: map<string, LabelEncoder>, t: Table, pending: set<string>): Table
    requires Fitted(enc)
  {
    Table(t.columns, map c | c in t.data ::
      if c in enc && c !in pending then EncodeKnown(enc[c], t.data[c]) else t.data[c], t.rows)
  }

  /** The columns of the frame after lines 50-52: every column it had, and a column of zeros
      for each training column it lacked. */
  function WithDefaults(t: Table, cols: seq<string>): map<string, seq<Cell>>
  {
    map c | c in t.data.Keys + (set x | x in cols) :: if c in t.data then t.data[c] else Repeat(Zero, t.rows)
  }

  /** Line 55, `df[train_columns]`: exactly the listed columns, in the listed order. */
  function Project(t: Table, cols: seq<string>): (r: Table)
    requires forall c :: c in cols ==> c in t.data
    ensures r.columns == cols && r.rows == t.rows
  {
    Table(cols, map c | c in cols :: t.data[c], t.rows)
  }

  /** Column c of the input as it reaches the encoders: the input's own column when it has
      one under a name that is not 'Unnamed', otherwise zeros. */
  function InputColumn(input: Table, c: string): seq<Cell>
  {
    if c in input.data && !IsUnnamed(c) then input.data[c] else Repeat(Zero, input.rows)
  }

  /** Column c of the output, stated directly. */
  function AlignedColumn(enc: map<string, LabelEncoder>, input: Table, c: string): seq<Cell>
    requires Fitted(enc)
  {
    if c in enc then EncodeKnown(enc[c], InputColumn(input, c)) else InputColumn(input, c)
  }

  /** The frame whose values `predict` hands to the classifier, defined column by column
      rather than step by step. */
  function Aligned(enc: map<string, LabelEncoder>, cols: seq<string>, input: Table): (r: Table)
    requires Fitted(enc)
    ensures r.columns == cols && r.rows == input.rows && (forall c :: c in r.data <==> c in cols)
  {
    Table(cols, map c | c in cols :: AlignedColumn(enc, input, c), input.rows)
  }

  lemma EncodeKnownLength(le: LabelEncoder, col: seq<Cell>)
    requires |le.classes| > 0
    ensures |EncodeKnown(le, col)| == |col|
  {
  }

  /** The aligned frame is well formed whenever the training columns do not repeat. */
  lemma AlignedValid(enc: map<string, LabelEncoder>, cols: seq<string>, input: Table)
    requires Fitted(enc) && Distinct(cols) && Valid(input)
    ensures Valid(Aligned(enc, cols, input))
  {
    var r := Aligned(enc, cols, input);
    forall c | c in r.data ensures |r.data[c]| == r.rows {
      if c in enc { EncodeKnownLength(enc[c], InputColumn(input, c)); }
    }
  }

  /** An encoded column, cell by cell. */
  lemma EncodeKnownCell(le: LabelEncoder, col: seq<Cell>, i: nat)
    requires |le.classes| > 0 && i < |col|
    ensures |EncodeKnown(le, col)| == |col| && EncodeKnown(le, col)[i] == EncodeCell(le, col[i])
  {
  }

  /** Lines 34-37 on one cell. After "missing" fills a missing cell, a class of the encoder
      gets its own code, which decodes back to it. Anything else gets code 0: an unseen
      string, a number such as the 0 of an added column, or "missing" when it is not a class. */
  lemma EncodeCellSpec(le: LabelEncoder, cell: Cell)
    requires StrictlySorted(le.classes) && |le.classes| > 0
    ensures var f := if cell.Missing? then Str(Sentinel) else cell;
      && (f.Str? && f.text in le.classes ==>
            exists k: nat :: k < |le.classes| && EncodeCell(le, cell) == Code(k) && Decode(le, k) == f.text)
      && (!(f.Str? && f.text in le.classes) ==> EncodeCell(le, cell) == Code(0))
  {
    var f := if cell.Missing? then Str(Sentinel) else cell;
    if f.Str? && f.text in le.classes {
      var k := IndexOf(le.classes, f.text);
      IndexOfSpec(le.classes, f.text);
      assert EncodeCell(le, cell) == Code(k) && Decode(le, k) == f.text;
    }
  }

  /** Lines 34-37: every cell of an encoded column is a code below the number of classes. */
  lemma EncodeCellInRange(le: LabelEncoder, cell: Cell)
    requires StrictlySorted(le.classes) && |le.classes| > 0
    ensures exists k: nat :: k < |le.classes| && EncodeCell(le, cell) == Code(k)
  {
    var x := KnownLabel(le, if cell.Missing? then Str(Sentinel) else cell);
    IndexOfSpec(le.classes, x);
    assert EncodeCell(le, cell) == Code(IndexOf(le.classes, x));
  }

  /** Line 55: the output has exactly the training columns, in their order, and the length
      of the input. */
  lemma AlignedShape(enc: map<string, LabelEncoder>, cols: seq<string>, input: Table)
    requires Fitted(enc) && Distinct(cols) && Valid(input)
    ensures var r := Aligned(enc, cols, input);
      && r.columns == cols && r.rows == input.rows && Valid(r)
      && |Values(r)| == input.rows && (forall i :: 0 <= i < |Values(r)| ==> |Values(r)[i]| == |cols|)
  {
    AlignedValid(enc, cols, input);
  }

  /** Line 47: a column named 'Unnamed…' never reaches the output: aligning the input is
      aligning the input with such columns already stripped. */
  lemma AlignedIgnoresUnnamed(enc: map<string, LabelEncoder>, cols: seq<string>, input: Table)
    requires Fitted(enc)
    ensures Aligned(enc, cols, input) == Aligned(enc, cols, DropUnnamed(input))
  {
    forall c | c in cols ensures InputColumn(input, c) == InputColumn(DropUnnamed(input), c) {
    }
    assert Aligned(enc, cols, input).data == Aligned(enc, cols, DropUnnamed(input)).data;
  }

  /** Line 55: reordering the input's columns, or adding columns that are not training
      columns, changes nothing in the output matrix. */
  lemma AlignedIgnoresOrderAndExtras(enc: map<string, LabelEncoder>, cols: seq<string>, a: Table, b: Table)
    requires Fitted(enc) && Distinct(cols) && Valid(a) && Valid(b) && a.rows == b.rows
    requires forall c :: c in cols ==> (c in a.data <==> c in b.data)
    requires forall c :: c in cols && c in a.data ==> a.data[c] == b.data[c]
    ensures Aligned(enc, cols, a) == Aligned(enc, cols, b)
    ensures Values(Aligned(enc, cols, a)) == Values(Aligned(enc, cols, b))
  {
    AlignedValid(enc, cols, a);
    AlignedValid(enc, cols, b);
    forall c | c in cols ensures InputColumn(a, c) == InputColumn(b, c) {
    }
    assert Aligned(enc, cols, a).data == Aligned(enc, cols, b).data;
  }

  /** Lines 50-52: a training column the input lacks (or has only under an 'Unnamed' name)
      is all zeros, and all code 0 when it has an encoder. */
  lemma AbsentColumns(enc: map<string, LabelEncoder>, cols: seq<string>, input: Table, c: string)
    requires Fitted(enc) && c in cols && (c !in input.data || IsUnnamed(c))
    ensures var col := Aligned(enc, cols, input).data[c];
      && |col| == input.rows
      && (c !in enc ==> col == Repeat(Zero, input.rows))
      && (c in enc ==> forall i :: 0 <= i < |col| ==> col[i] == Code(0))
  {
    if c in enc {
      var le := enc[c];
      EncodeKnownLength(le, Repeat(Zero, input.rows));
      forall i | 0 <= i < input.rows ensures EncodeKnown(le, Repeat(Zero, input.rows))[i] == Code(0) {
        EncodeKnownCell(le, Repeat(Zero, input.rows), i);
        EncodeCellSpec(le, Zero);
      }
    }
  }

  /** Lines 31-32: a training column without an encoder passes through unchanged, and an
      encoder whose column is not a training column (the target's) plays no part. */
  lemma PassThrough(enc: map<string, LabelEncoder>, cols: seq<string>, input: Table, c: string)
    requires Fitted(enc) && c in cols && c !in enc && c in input.data && !IsUnnamed(c)
    ensures Aligned(enc, cols, input).data[c] == input.data[c]
  {
  }

  lemma EncodersOutsideColumnsIgnored(enc: map<string, LabelEncoder>, cols: seq<string>, input: Table)
    requires Fitted(enc)
    ensures var kept := map c | c in enc && c in cols :: enc[c];
      Fitted(kept) && Aligned(enc, cols, input) == Aligned(kept, cols, input)
  {
    var kept := map c | c in enc && c in cols :: enc[c];
    assert Aligned(enc, cols, input).data == Aligned(kept, cols, input).data;
  }

  /** Lines 34-37 in the output: each cell of a training column with an encoder is the code
      of its input value mapped to a class (so always in range), and code 0 for an unseen one. */
  lemma AlignedEncodedCells(enc: map<string, LabelEncoder>, cols: seq<string>, input: Table, c: string, i: nat)
    requires Fitted(enc) && Valid(input) && c in cols && c in enc && i < input.rows
    ensures var col, le := Aligned(enc, cols, input).data[c], enc[c];
      var cell := InputColumn(input, c)[i];
      var f := if cell.Missing? then Str(Sentinel) else cell;
      && |col| == input.rows
      && (exists k: nat :: k < |le.classes| && col[i] == Code(k))
      && (f.Str? && f.text in le.classes ==>
            exists k: nat :: k < |le.classes| && col[i] == Code(k) && Decode(le, k) == f.text)
      && (!(f.Str? && f.text in le.classes) ==> col[i] == Code(0))
  {
    var le := enc[c];
    var inCol := InputColumn(input, c);
    assert |inCol| == input.rows;
    EncodeKnownCell(le, inCol, i);
    EncodeCellSpec(le, inCol[i]);
    EncodeCellInRange(le, inCol[i]);
  }

  lemma ApplyEncodersExceptAll(enc: map<string, LabelEncoder>, t: Table)
    requires Fitted(enc)
    ensures ApplyEncodersExcept(enc, t, enc.Keys) == t
  {
    assert ApplyEncodersExcept(enc, t, enc.Keys).data == t.data;
  }

  lemma ApplyEncodersExceptNone(enc: map<string, LabelEncoder>, t: Table)
    requires Fitted(enc)
    ensures ApplyEncodersExcept(enc, t, {}) == ApplyEncoders(enc, t)
  {
    assert ApplyEncodersExcept(enc, t, {}).data == ApplyEncoders(enc, t).data;
  }

  /** Applying the encoder of one more column changes that column alone. */
  lemma ApplyEncodersStep(enc: map<string, LabelEncoder>, t: Table, pending: set<string>, col: string)
    requires Fitted(enc) && col in pending && col in enc
    ensures var p := ApplyEncodersExcept(enc, t, pending);
      && (col in t.data ==> p.data[col] == t.data[col])
      && ApplyEncodersExcept(enc, t, pending - {col}) ==
           if col in t.data then p.(data := p.data[col := EncodeKnown(enc[col], t.data[col])]) else p
  {
    var p := ApplyEncodersExcept(enc, t, pending);
    var q := ApplyEncodersExcept(enc, t, pending - {col});
    if col in t.data {
      assert q.data == p.data[col := EncodeKnown(enc[col], t.data[col])];
    } else {
      assert q.data == p.data;
    }
  }

  /** `df[col] = v` for a new label appends a well-formed column at the end. */
  lemma AppendColumn(t: Table, col: string, v: seq<Cell>, n: nat)
    requires Valid(t) && col !in t.data && |v| == t.rows && n <= |t.columns|
    ensures var r := Table(t.columns + [col], t.data[col := v], t.rows);
      Valid(r) && r.columns[..n] == t.columns[..n]
  {
    var r := Table(t.columns + [col], t.data[col := v], t.rows);
    assert r.columns[..n] == t.columns[..n];
    forall i, j | 0 <= i < j < |r.columns| ensures r.columns[i] != r.columns[j] {
      if j == |t.columns| {
        assert r.columns[i] == t.columns[i] && t.columns[i] in t.columns;
      }
    }
  }

  /** Dropping, adding zero columns, projecting and encoding give the aligned frame. */
  lemma StagesAligned(enc: map<string, LabelEncoder>, cols: seq<string>, input: Table, filled: Table)
    requires Fitted(enc)
    requires filled.rows == input.rows && filled.data == WithDefaults(DropUnnamed(input), cols)
    ensures forall c :: c in cols ==> c in filled.data
    ensures ApplyEncoders(enc, Project(filled, cols)) == Aligned(enc, cols, input)
  {
    var projected := Project(filled, cols);
    forall c | c in cols ensures projected.data[c] == InputColumn(input, c) {
    }
    assert ApplyEncoders(enc, projected).data == Aligned(enc, cols, input).data;
  }

  class PredictionPipeline {
    /** The loaded `preprocessor.pkl`: one encoder per encoded training column. */
    const preprocessor: map<string, LabelEncoder>
    /** The loaded `train_columns.pkl`. */
    const trainColumns: seq<string>

    ghost predicate Valid()
    {
      Fitted(preprocessor) && Distinct(trainColumns)
    }

    /** Lines 10-19, with the loaded artifacts passed in. */
    constructor(preprocessor: map<string, LabelEncoder>, trainColumns: seq<string>)
      requires Fitted(preprocessor) && Distinct(trainColumns)
      ensures this.preprocessor == preprocessor && this.trainColumns == trainColumns
      ensures Valid()
    {
      this.preprocessor := preprocessor;
      this.trainColumns := trainColumns;
    }

    /** Lines 28-37 and 42, the dict branch: each encoder whose column the frame has fills,
        maps unseen values to the first class and encodes that column; the order in which
        the encoders are visited does not matter. */
    method ApplyLabelEncoders(df: Table) returns (r: Table)
      requires Valid() && Tables.Valid(df)
      ensures r == ApplyEncoders(preprocessor, df)
    {
      r := df;
      var pending := preprocessor.Keys;
      ApplyEncodersExceptAll(preprocessor, df);
      while pending != {}
        invariant pending <= preprocessor.Keys
        invariant r == ApplyEncodersExcept(preprocessor, df, pending)
        decreases |pending|
      {
        var col :| col in pending;
        var le := preprocessor[col];
        ApplyEncodersStep(preprocessor, df, pending, col);
        if col in r.columns {
          var filled := FillMissing(r.data[col], Str(Sentinel));
          var known := KnownLabels(le, filled);
          r := r.(data := r.data[col := CodeCells(Transform(le, known))]);
        }
        pending := pending - {col};
      }
      ApplyEncodersExceptNone(preprocessor, df);
    }

    /** Lines 50-52: every training column the frame lacks is appended as a column of zeros,
        in an order the model leaves open (the set's iteration order). */
    method AddMissingColumns(df: Table) returns (r: Table)
      requires Valid() && Tables.Valid(df)
      ensures Tables.Valid(r) && r.rows == df.rows
      ensures r.data == WithDefaults(df, trainColumns)
      ensures |r.columns| >= |df.columns| && r.columns[..|df.columns|] == df.columns
    {
      var missing := set c | c in trainColumns && c !in df.columns;
      ghost var all := missing;
      r := df;
      while missing != {}
        invariant missing <= all
        invariant Tables.Valid(r) && r.rows == df.rows
        invariant |r.columns| >= |df.columns| && r.columns[..|df.columns|] == df.columns
        invariant forall c :: c in r.data <==> c in df.data || (c in all && c !in missing)
        invariant forall c :: c in r.data ==> r.data[c] == if c in df.data then df.data[c] else Repeat(Zero, df.rows)
        decreases |missing|
      {
        var col :| col in missing;
        AppendColumn(r, col, Repeat(Zero, r.rows), |df.columns|);
        r := Table(r.columns + [col], r.data[col := Repeat(Zero, r.rows)], r.rows);
        missing := missing - {col};
      }
      assert r.data == WithDefaults(df, trainColumns);
    }

    /** Lines 44-64: the matrix `predict` hands to the classifier is the aligned frame's. */
    method Predict(input: Table) returns (x: Matrix)
      requires Valid() && Tables.Valid(input)
      ensures Tables.Valid(Aligned(preprocessor, trainColumns, input))
      ensures x == Values(Aligned(preprocessor, trainColumns, input))
    {
      var df := input;
      df := DropUnnamed(df);
      df := AddMissingColumns(df);
      StagesAligned(preprocessor, trainColumns, input, df);
      df := Project(df, trainColumns);
      df := ApplyLabelEncoders(df);
      AlignedValid(preprocessor, trainColumns, input);
      x := Values(df);
    }
  }
}
