/** A pandas DataFrame as the models see it: named columns over rows of cells. */
module Frames {

  /** A cell: an integer such as a parcel id, a float, a boolean, or a string such as a class label. */
  datatype Cell = Int(i: int) | Num(x: real) | Bool(b: bool) | Text(s: string)

  /** Column names in order, and one row per index entry mapping each column to its cell. */
  datatype Frame = Frame(columns: seq<string>, rows: seq<map<string, Cell>>)

  predicate DistinctNames(names: seq<string>) {
    forall i, j :: 0 <= i < j < |names| ==> names[i] != names[j]
  }

  /** Every row has exactly the frame's columns. */
  predicate WellFormed(f: Frame) {
    && DistinctNames(f.columns)
    && forall k :: 0 <= k < |f.rows| ==> f.rows[k].Keys == set c | c in f.columns
  }

  /** A column that holds floats in every row (vacuous when the column is absent). */
  predicate NumericColumn(f: Frame, col: string) {
    col in f.columns ==> forall k :: 0 <= k < |f.rows| ==> col in f.rows[k] && f.rows[k][col].Num?
  }

  /** `df.get(col, d)` read at row `k` of a numeric column: the cell when the column exists, else the scalar `d`. */
  function NumOr(f: Frame, k: nat, col: string, d: real): real
    requires k < |f.rows| && NumericColumn(f, col)
  {
    if col in f.columns then f.rows[k][col].x else d
  }

  /** The cells of a numeric column, in row order. */
  function NumColumn(f: Frame, col: string): (xs: seq<real>)
    requires col in f.columns && NumericColumn(f, col)
    ensures |xs| == |f.rows|
  {
    seq(|f.rows|, k requires 0 <= k < |f.rows| => f.rows[k][col].x)
  }

  /** `df[name] = cells` on a copy: the column is appended when new and replaced in place when present. */
  function WithColumn(f: Frame, name: string, cells: seq<Cell>): (g: Frame)
    requires |cells| == |f.rows|
    ensures |g.rows| == |f.rows|
    ensures forall c :: c in g.columns <==> c in f.columns || c == name
    ensures forall k :: 0 <= k < |g.rows| ==> name in g.rows[k] && g.rows[k][name] == cells[k]
    ensures forall k, c :: 0 <= k < |g.rows| && c != name && c in f.rows[k] ==> c in g.rows[k] && g.rows[k][c] == f.rows[k][c]
    ensures WellFormed(f) ==> WellFormed(g)
  {
    var cols := if name in f.columns then f.columns else f.columns + [name];
    Frame(cols, seq(|f.rows|, k requires 0 <= k < |f.rows| => f.rows[k][name := cells[k]]))
  }
}
