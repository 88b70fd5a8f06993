/**
 * Data cleaning: the six required columns are coerced to numbers one after
 * another, then every row with a missing marker in any column is dropped.
 */
module Sanitizer {
  import opened Wrappers
  import opened Frame
  import opened Schema

  /** The KeyError raised by `df[name]` when the sheet has no such column. */
  datatype SchemaError = MissingColumn(name: string)

  /** The position in `names` of the first name that is not a column, if any. */
  function FirstAbsent(columns: seq<string>, names: seq<string>): (r: Option<nat>)
    ensures r.None? <==> forall n :: n in names ==> n in columns
    ensures r.Some? ==> r.value < |names| && names[r.value] !in columns
    ensures r.Some? ==> forall m :: 0 <= m < r.value ==> names[m] in columns
  {
    if names == [] then None
    else if names[0] !in columns then Some(0)
    else
      match FirstAbsent(columns, names[1..])
      case None => None
      case Some(k) => Some(k + 1)
  }

  /**
   * The table after coercing the columns `names` in order, stopping before
   * the first name that is not a column (where the script raises).
   */
  function CoercePrefix(t: Table, names: seq<string>, parse: string -> Option<real>): (r: Table)
    requires t.WellFormed()
    ensures r.WellFormed() && r.columns == t.columns && |r.rows| == |t.rows|
    decreases |names|
  {
    if names == [] || names[0] !in t.columns then t
    else CoercePrefix(CoerceColumn(t, names[0], parse), names[1..], parse)
  }

  /** What the data-cleaning step guarantees of `df_clean`. */
  predicate Sanitized(c: Table) {
    && c.WellFormed()
    && (forall n :: n in Required ==> n in c.columns)
    && (forall i, k :: 0 <= i < |c.rows| && 0 <= k < |c.columns| && c.columns[k] in Required ==> c.rows[i][k].Num?)
    && (forall i :: 0 <= i < |c.rows| ==> Complete(c.rows[i]))
  }

  /** Row `i` of `t` once its required cells are coerced. */
  function CoercedRow(t: Table, parse: string -> Option<real>, i: nat): (row: seq<Cell>)
    requires t.WellFormed() && i < |t.rows|
  {
    seq(|t.columns|, k requires 0 <= k < |t.columns| =>
      if t.columns[k] in Required then Coerce(t.rows[i][k], parse) else t.rows[i][k])
  }

  function CoercedRows(t: Table, parse: string -> Option<real>): (rows: seq<seq<Cell>>)
    requires t.WellFormed()
  {
    seq(|t.rows|, i requires 0 <= i < |t.rows| => CoercedRow(t, parse, i))
  }

  /** A row survives cleaning: each required cell is a number or text that parses, and no other cell is missing. */
  predicate RowSurvives(t: Table, parse: string -> Option<real>, i: nat)
    requires t.WellFormed() && i < |t.rows|
  {
    forall k :: 0 <= k < |t.columns| ==>
      if t.columns[k] in Required then t.rows[i][k].Num? || (t.rows[i][k].Text? && parse(t.rows[i][k].s).Some?)
      else !t.rows[i][k].Missing?
  }

  /**
   * Lines 33-39 of the script: fails on the first absent required column,
   * and otherwise yields the complete rows of the coerced table.
   */
  function Sanitize(t: Table, parse: string -> Option<real>): (r: Result<Table, SchemaError>)
    requires t.WellFormed()
    ensures r.Failure? <==> exists n :: n in Required && n !in t.columns
    ensures r.Failure? ==> r.error.name in Required && r.error.name !in t.columns
    ensures r.Failure? ==>
      FirstAbsent(t.columns, Required).Some? && r.error.name == Required[FirstAbsent(t.columns, Required).value]
    ensures r.Success? ==> r.value.columns == t.columns && |r.value.rows| <= |t.rows| && Sanitized(r.value)
  {
    match FirstAbsent(t.columns, Required)
    case Some(k) => Failure(MissingColumn(Required[k]))
    case None => Success(Clean(t, parse))
  }

  /** `df.dropna()` applied to the frame once every required column has been coerced. */
  function Clean(t: Table, parse: string -> Option<real>): (c: Table)
    requires t.WellFormed()
    requires forall n :: n in Required ==> n in t.columns
    ensures c.columns == t.columns && |c.rows| <= |t.rows| && Sanitized(c)
  {
    CoercePrefixCells(t, Required, parse);
    var coerced := CoercePrefix(t, Required, parse);
    DropNaKeepsCompleteRows(coerced.rows);
    var c := Table(t.columns, DropNa(coerced.rows));
    SanitizedOutput(coerced, c);
    c
  }

  /** After coercing all of `names`, exactly the cells of those columns have been coerced, once. */
  lemma {:induction false} CoercePrefixCells(t: Table, names: seq<string>, parse: string -> Option<real>)
    requires t.WellFormed()
    requires forall n :: n in names ==> n in t.columns
    ensures var r := CoercePrefix(t, names, parse);
      forall i, k :: 0 <= i < |t.rows| && 0 <= k < |t.columns| ==>
        r.rows[i][k] == if t.columns[k] in names then Coerce(t.rows[i][k], parse) else t.rows[i][k]
    decreases |names|
  {
    if names != [] {
      var t1 := CoerceColumn(t, names[0], parse);
      CoercePrefixCells(t1, names[1..], parse);
      forall i, k | 0 <= i < |t.rows| && 0 <= k < |t.columns|
        ensures CoercePrefix(t, names, parse).rows[i][k]
          == if t.columns[k] in names then Coerce(t.rows[i][k], parse) else t.rows[i][k]
      {
        CoerceIdempotent(t.rows[i][k], parse);
        assert t.columns[k] in names <==> t.columns[k] == names[0] || t.columns[k] in names[1..];
      }
    }
  }

  /** The assignments stop at the first absent name: the names after it are never reached. */
  lemma {:induction false} CoercePrefixStopsAtAbsent(t: Table, names: seq<string>, parse: string -> Option<real>, k: nat)
    requires t.WellFormed() && FirstAbsent(t.columns, names) == Some(k)
    ensures CoercePrefix(t, names, parse) == CoercePrefix(t, names[..k], parse)
    decreases |names|
  {
    if k > 0 {
      var t1 := CoerceColumn(t, names[0], parse);
      assert FirstAbsent(t1.columns, names[1..]) == Some(k - 1);
      CoercePrefixStopsAtAbsent(t1, names[1..], parse, k - 1);
      assert names[..k][0] == names[0] && names[..k][1..] == names[1..][..k - 1];
    }
  }

  /**
   * The frame left behind when an assignment raises: the columns before the
   * first absent one are coerced, and every other cell is as it was.
   */
  lemma FailedCoercionCells(t: Table, parse: string -> Option<real>, k: nat)
    requires t.WellFormed() && FirstAbsent(t.columns, Required) == Some(k)
    ensures var r := CoercePrefix(t, Required, parse);
      forall i, j :: 0 <= i < |t.rows| && 0 <= j < |t.columns| ==>
        r.rows[i][j] == if t.columns[j] in Required[..k] then Coerce(t.rows[i][j], parse) else t.rows[i][j]
  {
    CoercePrefixStopsAtAbsent(t, Required, parse, k);
    CoercePrefixCells(t, Required[..k], parse);
  }

  lemma SanitizedOutput(coerced: Table, c: Table)
    requires coerced.WellFormed() && c.columns == coerced.columns
    requires forall n :: n in Required ==> n in coerced.columns
    requires forall i, k :: 0 <= i < |coerced.rows| && 0 <= k < |coerced.columns| && coerced.columns[k] in Required ==>
      !coerced.rows[i][k].Text?
    requires |c.rows| == |KeptIndices(coerced.rows)|
    requires forall j :: 0 <= j < |c.rows| ==> c.rows[j] == coerced.rows[KeptIndices(coerced.rows)[j]]
    ensures Sanitized(c)
  {
    forall j | 0 <= j < |c.rows|
      ensures |c.rows[j]| == |c.columns| && Complete(c.rows[j])
      ensures forall k :: 0 <= k < |c.columns| && c.columns[k] in Required ==> c.rows[j][k].Num?
    {
      var i := KeptIndices(coerced.rows)[j];
      assert i in KeptIndices(coerced.rows);
    }
  }

  /** Coercing the whole required schema touches exactly the required cells of every row. */
  lemma CoercedRowsAgree(t: Table, parse: string -> Option<real>)
    requires t.WellFormed()
    requires forall n :: n in Required ==> n in t.columns
    ensures CoercePrefix(t, Required, parse).rows == CoercedRows(t, parse)
  {
    forall i | 0 <= i < |t.rows|
      ensures CoercePrefix(t, Required, parse).rows[i] == CoercedRows(t, parse)[i]
    {
      CoercedRowAgrees(t, parse, i);
    }
  }

  lemma CoercedRowAgrees(t: Table, parse: string -> Option<real>, i: nat)
    requires t.WellFormed() && i < |t.rows|
    requires forall n :: n in Required ==> n in t.columns
    ensures CoercePrefix(t, Required, parse).rows[i] == CoercedRow(t, parse, i)
  {
    var r := CoercePrefix(t, Required, parse);
    CoercePrefixCells(t, Required, parse);
    var row := CoercedRow(t, parse, i);
    forall k | 0 <= k < |row| ensures r.rows[i][k] == row[k] {
    }
    assert |r.rows[i]| == |row|;
  }

  /**
   * The cleaned table holds exactly the surviving rows, coerced, in their
   * original order; nothing is imputed and no row is added.
   */
  lemma SanitizeKeepsExactlySurvivors(t: Table, parse: string -> Option<real>)
    requires t.WellFormed()
    requires Sanitize(t, parse).Success?
    ensures var c, kept := Sanitize(t, parse).value, KeptIndices(CoercedRows(t, parse));
      && |c.rows| == |kept|
      && (forall j :: 0 <= j < |kept| ==> kept[j] < |t.rows| && c.rows[j] == CoercedRow(t, parse, kept[j]))
      && (forall j, l :: 0 <= j < l < |kept| ==> kept[j] < kept[l])
      && (forall i :: 0 <= i < |t.rows| ==> (i in kept <==> RowSurvives(t, parse, i)))
  {
    var rows := CoercedRows(t, parse);
    CoercedRowsAgree(t, parse);
    DropNaKeepsCompleteRows(rows);
    var kept := KeptIndices(rows);
    forall i | 0 <= i < |t.rows|
      ensures i in kept <==> RowSurvives(t, parse, i)
    {
      assert rows[i] == CoercedRow(t, parse, i);
      if RowSurvives(t, parse, i) {
        forall k | 0 <= k < |rows[i]| ensures !rows[i][k].Missing? {
          assert t.columns[k] in Required ==> t.rows[i][k].Num? || (t.rows[i][k].Text? && parse(t.rows[i][k].s).Some?);
        }
      } else {
        var k :| 0 <= k < |t.columns| && !(
          if t.columns[k] in Required then t.rows[i][k].Num? || (t.rows[i][k].Text? && parse(t.rows[i][k].s).Some?)
          else !t.rows[i][k].Missing?);
        assert rows[i][k].Missing?;
      }
    }
  }

  lemma CoercePrefixStep(t: Table, names: seq<string>, parse: string -> Option<real>)
    requires t.WellFormed() && names != []
    ensures CoercePrefix(t, names, parse)
      == if names[0] in t.columns then CoercePrefix(CoerceColumn(t, names[0], parse), names[1..], parse) else t
  {
  }

  /**
   * The script's own sequence: six in-place coercions of `df`, each of which
   * raises on an absent column, then `df.dropna()` into a new table.
   */
  method SanitizeFrame(df: DataFrame, parse: string -> Option<real>) returns (r: Result<Table, SchemaError>)
    requires df.Valid()
    modifies df
    ensures df.Valid()
    ensures df.Value() == CoercePrefix(old(df.Value()), Required, parse)
    ensures r == Sanitize(old(df.Value()), parse)
  {
    ghost var t0 := df.Value();
    assert Required == [Bedrooms, SquareFeet, Bathrooms, GarageStalls, LotAcres, SoldPrice];
    ghost var before := t0;
    var found: bool;
    found := df.AssignNumeric(Bedrooms, parse);
    CoercePrefixStep(before, Required[0..], parse);
    assert Required[0..][1..] == Required[1..];
    if !found {
      assert FirstAbsent(t0.columns, Required) == Some(0);
      return Failure(MissingColumn(Bedrooms));
    }
    before := df.Value();
    found := df.AssignNumeric(SquareFeet, parse);
    CoercePrefixStep(before, Required[1..], parse);
    assert Required[1..][1..] == Required[2..];
    if !found {
      assert FirstAbsent(t0.columns, Required) == Some(1);
      return Failure(MissingColumn(SquareFeet));
    }
    before := df.Value();
    found := df.AssignNumeric(Bathrooms, parse);
    CoercePrefixStep(before, Required[2..], parse);
    assert Required[2..][1..] == Required[3..];
    if !found {
      assert FirstAbsent(t0.columns, Required) == Some(2);
      return Failure(MissingColumn(Bathrooms));
    }
    before := df.Value();
    found := df.AssignNumeric(GarageStalls, parse);
    CoercePrefixStep(before, Required[3..], parse);
    assert Required[3..][1..] == Required[4..];
    if !found {
      assert FirstAbsent(t0.columns, Required) == Some(3);
      return Failure(MissingColumn(GarageStalls));
    }
    before := df.Value();
    found := df.AssignNumeric(LotAcres, parse);
    CoercePrefixStep(before, Required[4..], parse);
    assert Required[4..][1..] == Required[5..];
    if !found {
      assert FirstAbsent(t0.columns, Required) == Some(4);
      return Failure(MissingColumn(LotAcres));
    }
    before := df.Value();
    found := df.AssignNumeric(SoldPrice, parse);
    CoercePrefixStep(before, Required[5..], parse);
    assert Required[5..][1..] == Required[6..];
    if !found {
      assert FirstAbsent(t0.columns, Required) == Some(5);
      return Failure(MissingColumn(SoldPrice));
    }
    r := Success(Table(df.columns, DropNa(df.rows)));
  }
}
