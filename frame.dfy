/**
 * A loaded sheet as pandas holds it: named columns and rows of cells, where
 * a cell may carry pandas' missing marker. The script's in-place column
 * assignments act on a DataFrame object; everything else works on values.
 */
module Frame {
  import opened Wrappers

  /** A cell: pandas' missing marker (NaN or None), a number, or any other value in its textual form. */
  datatype Cell = Missing | Num(x: real) | Text(s: string)

  predicate Distinct<T(==)>(s: seq<T>) {
    forall i, j :: 0 <= i < j < |s| ==> s[i] != s[j]
  }

  /** Rows are stored row by row; every row has one cell per column. */
  datatype Table = Table(columns: seq<string>, rows: seq<seq<Cell>>) {
    /** The loaders rename repeated headers, so column names are distinct. */
    predicate WellFormed() {
      Distinct(columns) && forall i :: 0 <= i < |rows| ==> |rows[i]| == |columns|
    }
  }

  /** The position of a column, found by name. */
  function ColumnIndex(columns: seq<string>, name: string): (j: nat)
    requires name in columns
    ensures j < |columns| && columns[j] == name
    ensures forall k :: 0 <= k < j ==> columns[k] != name
  {
    if columns[0] == name then 0 else 1 + ColumnIndex(columns[1..], name)
  }

  /**
   * `pd.to_numeric(cell, errors='coerce')`: numbers stay, the missing marker
   * stays, and text becomes the number `parse` reads from it or, when it
   * reads none, the missing marker.
   */
  function Coerce(c: Cell, parse: string -> Option<real>): (d: Cell)
    ensures !d.Text?
    ensures c.Num? ==> d == c
    ensures c.Missing? ==> d.Missing?
    ensures c.Text? ==> (d.Num? <==> parse(c.s).Some?)
    ensures c.Text? && parse(c.s).Some? ==> d == Num(parse(c.s).value)
  {
    match c
    case Missing => Missing
    case Num(x) => Num(x)
    case Text(s) => (match parse(s) case Some(x) => Num(x) case None => Missing)
  }

  lemma CoerceIdempotent(c: Cell, parse: string -> Option<real>)
    ensures Coerce(Coerce(c, parse), parse) == Coerce(c, parse)
  {
  }

  /** The new table after `df[name] = pd.to_numeric(df[name], errors='coerce')`. */
  function CoerceColumn(t: Table, name: string, parse: string -> Option<real>): (r: Table)
    requires t.WellFormed() && name in t.columns
    ensures r.WellFormed() && r.columns == t.columns && |r.rows| == |t.rows|
    ensures forall i, k :: 0 <= i < |t.rows| && 0 <= k < |t.columns| ==>
      r.rows[i][k] == (if t.columns[k] == name then Coerce(t.rows[i][k], parse) else t.rows[i][k])
  {
    var j := ColumnIndex(t.columns, name);
    Table(t.columns, seq(|t.rows|, i requires 0 <= i < |t.rows| => t.rows[i][j := Coerce(t.rows[i][j], parse)]))
  }

  /** A row with no missing marker in any column. */
  predicate Complete(row: seq<Cell>) {
    forall k :: 0 <= k < |row| ==> !row[k].Missing?
  }

  /** `df.dropna()`: the rows with no missing marker in any column. */
  function DropNa(rows: seq<seq<Cell>>): (r: seq<seq<Cell>>)
    ensures |r| <= |rows|
    ensures forall k :: 0 <= k < |r| ==> Complete(r[k])
  {
    if rows == [] then []
    else
      var last := rows[|rows| - 1];
      DropNa(rows[..|rows| - 1]) + (if Complete(last) then [last] else [])
  }

  /** The positions of the complete rows, in increasing order. */
  function KeptIndices(rows: seq<seq<Cell>>): (idx: seq<nat>)
    ensures forall k :: 0 <= k < |idx| ==> idx[k] < |rows|
    ensures forall k, l :: 0 <= k < l < |idx| ==> idx[k] < idx[l]
    ensures forall i :: 0 <= i < |rows| ==> (i in idx <==> Complete(rows[i]))
  {
    if rows == [] then []
    else
      var n := |rows| - 1;
      var front := KeptIndices(rows[..n]);
      assert forall i :: 0 <= i < n ==> rows[..n][i] == rows[i];
      front + (if Complete(rows[n]) then [n] else [])
  }

  /**
   * `dropna` keeps exactly the complete rows, in their original order, and
   * adds none: its k-th row is the input row at the k-th kept position.
   */
  lemma {:induction false} DropNaKeepsCompleteRows(rows: seq<seq<Cell>>)
    ensures |DropNa(rows)| == |KeptIndices(rows)|
    ensures forall k :: 0 <= k < |DropNa(rows)| ==> DropNa(rows)[k] == rows[KeptIndices(rows)[k]]
  {
    if rows != [] {
      var n := |rows| - 1;
      var init := rows[..n];
      DropNaKeepsCompleteRows(init);
      var tail := if Complete(rows[n]) then [rows[n]] else [];
      var tailIdx := if Complete(rows[n]) then [n] else [];
      assert DropNa(rows) == DropNa(init) + tail;
      assert KeptIndices(rows) == KeptIndices(init) + tailIdx;
      forall k | 0 <= k < |DropNa(rows)|
        ensures DropNa(rows)[k] == rows[KeptIndices(rows)[k]]
      {
        if k < |DropNa(init)| {
          assert DropNa(rows)[k] == DropNa(init)[k];
          assert KeptIndices(rows)[k] == KeptIndices(init)[k];
          assert init[KeptIndices(init)[k]] == rows[KeptIndices(init)[k]];
        }
      }
    }
  }

  /** The object the script names `df`; its column assignments change it in place. */
  class DataFrame {
    var columns: seq<string>
    var rows: seq<seq<Cell>>

    function Value(): Table
      reads this
    {
      Table(columns, rows)
    }

    predicate Valid()
      reads this
    {
      Value().WellFormed()
    }

    constructor (t: Table)
      requires t.WellFormed()
      ensures Valid() && Value() == t
    {
      columns := t.columns;
      rows := t.rows;
    }

    /**
     * `df[name] = pd.to_numeric(df[name], errors='coerce')`. `found` is
     * false exactly where `df[name]` raises KeyError; the frame is then unchanged.
     */
    method AssignNumeric(name: string, parse: string -> Option<real>) returns (found: bool)
      requires Valid()
      modifies this
      ensures Valid()
      ensures found <==> name in old(columns)
      ensures Value() == if found then CoerceColumn(old(Value()), name, parse) else old(Value())
    {
      found := name in columns;
      if found {
        rows := CoerceColumn(Value(), name, parse).rows;
      }
    }
  }
}
