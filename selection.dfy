/**
 * Feature and target selection over the cleaned table, and the test rows
 * that the (unmodelled) random split picks out of it.
 */
module Selection {
  import opened Frame
  import opened Schema
  import opened Sanitizer

  /** `df_clean[name]` for a required column, read as numbers. */
  function ColumnValues(c: Table, name: string): (v: seq<real>)
    requires Sanitized(c) && name in Required
    ensures |v| == |c.rows|
    ensures forall i :: 0 <= i < |v| ==> c.rows[i][ColumnIndex(c.columns, name)] == Num(v[i])
  {
    var k := ColumnIndex(c.columns, name);
    seq(|c.rows|, i requires 0 <= i < |c.rows| => c.rows[i][k].x)
  }

  /** `X = df_clean[features]`: per cleaned sale, the five feature values in the order of `features`. */
  function FeatureMatrix(c: Table): (x: seq<seq<real>>)
    requires Sanitized(c)
    ensures |x| == |c.rows|
    ensures forall i :: 0 <= i < |x| ==> |x[i]| == |Features|
    ensures forall i, f :: 0 <= i < |x| && 0 <= f < |Features| ==>
      c.rows[i][ColumnIndex(c.columns, Features[f])] == Num(x[i][f])
  {
    NamesDistinct();
    seq(|c.rows|, i requires 0 <= i < |c.rows| =>
      seq(|Features|, f requires 0 <= f < |Features| => c.rows[i][ColumnIndex(c.columns, Features[f])].x))
  }

  /** `y = df_clean['Sold Price']`. */
  function TargetVector(c: Table): (y: seq<real>)
    requires Sanitized(c)
    ensures |y| == |c.rows|
    ensures forall i :: 0 <= i < |y| ==> c.rows[i][ColumnIndex(c.columns, SoldPrice)] == Num(y[i])
  {
    ColumnValues(c, SoldPrice)
  }

  /**
   * The positions the 80/20 split puts in the test partition: distinct
   * rows of the cleaned table, at least one, and at least one left for training.
   */
  predicate IsTestSplit(test: seq<nat>, n: nat) {
    0 < |test| < n && Distinct(test) && forall k :: 0 <= k < |test| ==> test[k] < n
  }

  /** The entries of `v` at the positions `idx`, in that order. */
  function Pick<T>(v: seq<T>, idx: seq<nat>): (r: seq<T>)
    requires forall k :: 0 <= k < |idx| ==> idx[k] < |v|
    ensures |r| == |idx| && forall k :: 0 <= k < |idx| ==> r[k] == v[idx[k]]
  {
    seq(|idx|, k requires 0 <= k < |idx| => v[idx[k]])
  }

  /** The split keeps each test sale's features and price together: both come from the same cleaned row. */
  lemma TestRowsAligned(c: Table, test: seq<nat>, k: nat)
    requires Sanitized(c) && IsTestSplit(test, |c.rows|) && k < |test|
    ensures var xTest, yTest := Pick(FeatureMatrix(c), test), Pick(TargetVector(c), test);
      && c.rows[test[k]][ColumnIndex(c.columns, SoldPrice)] == Num(yTest[k])
      && forall f :: 0 <= f < |Features| ==> c.rows[test[k]][ColumnIndex(c.columns, Features[f])] == Num(xTest[k][f])
  {
  }
}
