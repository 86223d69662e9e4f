/**
 * The tabular data the importer moves around: an uploaded CSV after parsing, and the
 * per-stage dataset files.  A table is a header plus rows aligned with it, so a header
 * may hold the same name twice, as a pandas frame may after a rename.  CSV syntax and
 * encodings are not modelled.
 */
module Tables {
  import opened Strings

  /** One cell: missing (None or NaN), text, or an integer. */
  datatype Value = Missing | Str(s: string) | Num(n: int)

  datatype Frame = Frame(columns: seq<string>, rows: seq<seq<Value>>)

  predicate Rectangular(f: Frame) {
    forall r :: r in f.rows ==> |r| == |f.columns|
  }

  type Table = f: Frame | Rectangular(f) witness Frame([], [])

  /** A stage file on disk: missing, zero bytes long, or a written CSV. */
  datatype StoreFile = Absent | ZeroBytes | Written(table: Table)

  /** `count_rows` (lsr_app.py:290-293): a missing or empty file counts as 0 rows. */
  function RowCount(f: StoreFile): (n: nat)
    ensures !f.Written? ==> n == 0
    ensures f.Written? ==> n == |f.table.rows|
  {
    match f
    case Written(t) => |t.rows|
    case _ => 0
  }

  /** Position of the first column called `name`, or |cols| when there is none. */
  function ColumnIndex(cols: seq<string>, name: string): (i: nat)
    ensures i <= |cols|
    ensures i < |cols| ==> cols[i] == name
  {
    if cols == [] then 0
    else if cols[0] == name then 0
    else 1 + ColumnIndex(cols[1..], name)
  }

  /** The position found is the first occurrence, and it is |cols| exactly when `name` is absent. */
  lemma {:induction false} ColumnIndexFirst(cols: seq<string>, name: string)
    ensures ColumnIndex(cols, name) < |cols| <==> name in cols
    ensures forall j :: 0 <= j < ColumnIndex(cols, name) ==> cols[j] != name
    decreases |cols|
  {
    if cols != [] && cols[0] != name {
      var rest := cols[1..];
      ColumnIndexFirst(rest, name);
      assert name in cols <==> name in rest by {
        assert cols == [cols[0]] + rest;
      }
      forall j | 0 < j < ColumnIndex(cols, name) ensures cols[j] != name {
        assert cols[j] == rest[j - 1];
      }
    }
  }

  /** Rows that each have `n` cells, however they are joined, fit a header of `n` names. */
  lemma RowsFit(a: seq<seq<Value>>, b: seq<seq<Value>>, n: nat)
    requires forall i :: 0 <= i < |a| ==> |a[i]| == n
    requires forall j :: 0 <= j < |b| ==> |b[j]| == n
    ensures forall row :: row in a + b ==> |row| == n
  {
    forall row | row in a + b ensures |row| == n {
      var k :| 0 <= k < |a + b| && (a + b)[k] == row;
      if k >= |a| {
        assert row == b[k - |a|];
      }
    }
  }

  /** No name occurs twice in the header. */
  predicate Distinct(cols: seq<string>) {
    forall i, j :: 0 <= i < j < |cols| ==> cols[i] != cols[j]
  }

  /** In a header without repeats, the position found for the k-th name is k. */
  lemma DistinctColumnIndex(cols: seq<string>, k: nat)
    requires Distinct(cols) && k < |cols|
    ensures ColumnIndex(cols, cols[k]) == k
  {
    ColumnIndexFirst(cols, cols[k]);
    assert cols[k] in cols;
  }

  /** A longer header keeps the position of every name already in its prefix. */
  lemma ColumnIndexPrefix(cols: seq<string>, more: seq<string>, name: string)
    requires name in cols
    ensures ColumnIndex(cols + more, name) == ColumnIndex(cols, name)
  {
    ColumnIndexFirst(cols, name);
    ColumnIndexFirst(cols + more, name);
    var i := ColumnIndex(cols, name);
    var j := ColumnIndex(cols + more, name);
    assert (cols + more)[i] == name;
    assert j <= i;
    assert j < |cols| ==> (cols + more)[j] == cols[j];
  }

  /** `row.get(name)` on row `i`: the value under the first column so named. */
  function Cell(t: Table, i: nat, name: string): Value
    requires i < |t.rows|
  {
    var k := ColumnIndex(t.columns, name);
    assert t.rows[i] in t.rows;
    if k < |t.columns| then t.rows[i][k] else Missing
  }

  /** The cells of one named column, top to bottom. */
  function Column(t: Table, name: string): (c: seq<Value>)
    ensures |c| == |t.rows|
  {
    seq(|t.rows|, i requires 0 <= i < |t.rows| => Cell(t, i, name))
  }

  /** `str(value)`, except that a missing cell reads as the empty string. */
  function CellText(v: Value): string
  {
    match v
    case Missing => ""
    case Str(s) => s
    case Num(n) => IntToDecimal(n)
  }

  function Renamed(c: string, m: map<string, string>): string {
    if c in m then m[c] else c
  }

  /** `df.rename(columns=m)`: every header named in `m` is replaced, rows untouched. */
  function RenameColumns(t: Table, m: map<string, string>): (r: Table)
    ensures r.rows == t.rows && |r.columns| == |t.columns|
    ensures forall i :: 0 <= i < |t.columns| ==> r.columns[i] == Renamed(t.columns[i], m)
  {
    Frame(seq(|t.columns|, i requires 0 <= i < |t.columns| => Renamed(t.columns[i], m)), t.rows)
  }

  function Blanks(n: nat): (r: seq<Value>)
    ensures |r| == n && forall v :: v in r ==> v == Missing
  {
    seq(n, _ => Missing)
  }

  /** `df[name] = None`: a new last column, missing in every row. */
  function AddColumn(t: Table, name: string): (r: Table)
    ensures r.columns == t.columns + [name]
    ensures |r.rows| == |t.rows|
    ensures forall i :: 0 <= i < |t.rows| ==> r.rows[i] == t.rows[i] + [Missing]
  {
    var rows := seq(|t.rows|, i requires 0 <= i < |t.rows| => t.rows[i] + [Missing]);
    assert forall r :: r in rows ==> |r| == |t.columns| + 1 by {
      forall r | r in rows ensures |r| == |t.columns| + 1 {
        var i :| 0 <= i < |rows| && rows[i] == r;
        assert t.rows[i] in t.rows;
      }
    }
    Frame(t.columns + [name], rows)
  }
}
