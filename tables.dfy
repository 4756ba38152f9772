/**
  A value model of the pandas DataFrames that both pipelines work on: an ordered list of
  distinct column names, each naming a column of cells, all of the same length.
  */
module Tables {

  /** One cell: a number, a string, or pandas' missing value (NaN / None). */
  datatype Cell = Num(value: real) | Str(text: string) | Missing

  datatype Option<T> = None | Some(value: T)

  datatype Result<T, E> = Ok(value: T) | Err(error: E)

  /** The integer code that a label encoder writes into a cell. */
  function Code(k: nat): Cell
  {
    Num(k as real)
  }

  /** The string written into missing categorical cells before encoding. */
  const Sentinel: string := "missing"

  datatype Table = Table(columns: seq<string>, data: map<string, seq<Cell>>, rows: nat)

  type Matrix = seq<seq<Cell>>

  predicate Distinct(s: seq<string>)
  {
    forall i, j :: 0 <= i < j < |s| ==> s[i] != s[j]
  }

  /** A well-formed frame: unique column labels, one column per label, a common length. */
  ghost predicate Valid(t: Table)
  {
    && Distinct(t.columns)
    && (forall c :: c in t.data <==> c in t.columns)
    && (forall c :: c in t.data ==> |t.data[c]| == t.rows)
  }

  /** The regular expression '^Unnamed': the label starts with "Unnamed". */
  predicate IsUnnamed(name: string)
  {
    |name| >= 7 && name[..7] == "Unnamed"
  }

  /** The column labels that survive the 'Unnamed' drop. */
  function KeepNamed(cols: seq<string>): (r: seq<string>)
    ensures forall c :: c in r <==> c in cols && !IsUnnamed(c)
  {
    if cols == [] then []
    else if IsUnnamed(cols[0]) then KeepNamed(cols[1..])
    else [cols[0]] + KeepNamed(cols[1..])
  }

  /** a occurs in b in the same relative order (not necessarily contiguously). */
  predicate IsSubsequence(a: seq<string>, b: seq<string>)
    decreases |b|
  {
    if a == [] then true
    else if b == [] then false
    else if a[0] == b[0] then IsSubsequence(a[1..], b[1..])
    else IsSubsequence(a, b[1..])
  }

  lemma {:induction false} KeepNamedInOrder(cols: seq<string>)
    ensures IsSubsequence(KeepNamed(cols), cols)
  {
    if cols != [] {
      KeepNamedInOrder(cols[1..]);
      var rest := KeepNamed(cols[1..]);
      if IsUnnamed(cols[0]) {
        if rest != [] {
          assert rest[0] in rest;
          assert rest[0] != cols[0];
        }
      } else {
        assert KeepNamed(cols) == [cols[0]] + rest;
        assert ([cols[0]] + rest)[1..] == rest;
      }
    }
  }

  lemma {:induction false} KeepNamedDistinct(cols: seq<string>)
    ensures Distinct(cols) ==> Distinct(KeepNamed(cols))
  {
    if cols != [] && Distinct(cols) {
      assert Distinct(cols[1..]) by {
        forall i, j | 0 <= i < j < |cols[1..]| ensures cols[1..][i] != cols[1..][j] {
          assert cols[1..][i] == cols[i + 1] && cols[1..][j] == cols[j + 1];
        }
      }
      KeepNamedDistinct(cols[1..]);
      if !IsUnnamed(cols[0]) {
        var rest := KeepNamed(cols[1..]);
        assert cols[0] !in cols[1..] by {
          forall k | 0 <= k < |cols[1..]| ensures cols[1..][k] != cols[0] {
            assert cols[1..][k] == cols[k + 1];
          }
        }
        assert cols[0] !in rest;
        var r := [cols[0]] + rest;
        forall i, j | 0 <= i < j < |r| ensures r[i] != r[j] {
          if i == 0 {
            assert r[j] == rest[j - 1] && rest[j - 1] in rest;
          } else {
            assert r[i] == rest[i - 1] && r[j] == rest[j - 1];
          }
        }
      }
    }
  }

  /** df.loc[:, ~df.columns.str.contains('^Unnamed')] */
  function DropUnnamed(t: Table): (r: Table)
    ensures r.rows == t.rows
    ensures r.columns == KeepNamed(t.columns)
    ensures forall c :: c in r.data <==> c in t.data && !IsUnnamed(c)
    ensures forall c :: c in r.data ==> r.data[c] == t.data[c]
    ensures forall c :: c in r.columns ==> !IsUnnamed(c)
    ensures Valid(t) ==> Valid(r)
  {
    KeepNamedDistinct(t.columns);
    Table(KeepNamed(t.columns), map c | c in t.data && !IsUnnamed(c) :: t.data[c], t.rows)
  }

  /** Series.fillna(v): every missing cell becomes v, every other cell is kept. */
  function FillMissing(col: seq<Cell>, v: Cell): seq<Cell>
  {
    seq(|col|, i requires 0 <= i < |col| => if col[i].Missing? then v else col[i])
  }

  /** A column of n copies of v, as `df[col] = v` broadcasts a scalar. */
  function Repeat(v: Cell, n: nat): seq<Cell>
  {
    seq(n, _ => v)
  }

  /** Series.isnull().all(); true of an empty column, as in pandas. */
  predicate AllMissing(col: seq<Cell>)
  {
    forall i :: 0 <= i < |col| ==> col[i].Missing?
  }

  /** The column holds at least one number. */
  predicate HasNumber(col: seq<Cell>)
  {
    exists i :: 0 <= i < |col| && col[i].Num?
  }

  /** A column of integer codes. */
  function CodeCells(codes: seq<nat>): seq<Cell>
  {
    seq(|codes|, i requires 0 <= i < |codes| => Code(codes[i]))
  }

  /** DataFrame.values: the cells row by row, columns in frame order. */
  function Values(t: Table): (m: Matrix)
    requires Valid(t)
    ensures |m| == t.rows
    ensures forall i :: 0 <= i < |m| ==> |m[i]| == |t.columns|
  {
    seq(t.rows, i requires 0 <= i < t.rows =>
      seq(|t.columns|, j requires 0 <= j < |t.columns| => t.data[t.columns[j]][i]))
  }

  /** Row i of t, as a one-row frame with the same column labels. */
  function RowOf(t: Table, i: nat): (r: Table)
    requires Valid(t) && i < t.rows
    ensures Valid(r) && r.columns == t.columns && r.rows == 1
  {
    Table(t.columns, map c | c in t.data :: [t.data[c][i]], 1)
  }
}
