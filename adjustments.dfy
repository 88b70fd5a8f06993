/**
 * The adjustment table: the random forest's feature importances turned into
 * a dollar amount and a percentage per feature, using the range and the
 * median of the full cleaned price column.
 */
module Adjustments {
  import opened Frame
  import opened Schema
  import opened Stats

  /** `dict(zip(keys, vals))`: pairs up to the shorter list, a later key overwriting an earlier one. */
  function Dict(keys: seq<string>, vals: seq<real>): (m: map<string, real>)
    ensures forall j :: 0 <= j < |keys| && j < |vals| ==> keys[j] in m
    decreases |keys|
  {
    var n := if |keys| < |vals| then |keys| else |vals|;
    if n == 0 then map[]
    else Dict(keys[..n - 1], vals[..n - 1])[keys[n - 1] := vals[n - 1]]
  }

  /** With distinct keys, every key looks up the value zipped with it. */
  lemma {:induction false} DictLookup(keys: seq<string>, vals: seq<real>, j: nat)
    requires Distinct(keys) && j < |keys| && j < |vals|
    ensures Dict(keys, vals)[keys[j]] == vals[j]
    decreases |keys|
  {
    var n := if |keys| < |vals| then |keys| else |vals|;
    if j < n - 1 {
      DictLookup(keys[..n - 1], vals[..n - 1], j);
      assert keys[j] != keys[n - 1];
    }
  }

  lemma DictLookupAll(keys: seq<string>, vals: seq<real>)
    requires Distinct(keys) && |keys| <= |vals|
    ensures forall j :: 0 <= j < |keys| ==> keys[j] in Dict(keys, vals) && Dict(keys, vals)[keys[j]] == vals[j]
  {
    forall j | 0 <= j < |keys| ensures Dict(keys, vals)[keys[j]] == vals[j] {
      DictLookup(keys, vals, j);
    }
  }

  /** `y.max() - y.min()`: never negative, and zero exactly when every price is the same. */
  function PriceRange(y: seq<real>): (r: real)
    requires |y| > 0
    ensures r >= 0.0
    ensures r == 0.0 <==> forall i :: 0 <= i < |y| ==> y[i] == y[0]
  {
    MaxEqualsMinIffConstant(y);
    Max(y) - Min(y)
  }

  /** One row of the table shown to the appraiser and written to the reports. */
  datatype AdjustmentRow = AdjustmentRow(feature: string, monetary: real, percent: real)

  /** One feature's row: `importance * price_range` dollars, and that amount as a percentage of the median. */
  function Row(feature: string, importance: real, range: real, median: real): (row: AdjustmentRow)
    requires median != 0.0
    ensures row.feature == feature && row.monetary == importance * range
    ensures row.percent == row.monetary / median * 100.0
  {
    var monetary := importance * range;
    AdjustmentRow(feature, monetary, monetary / median * 100.0)
  }

  /** A row per feature, pairing `features[j]` with `importances[j]`. */
  function Rows(features: seq<string>, importances: seq<real>, range: real, median: real): (t: seq<AdjustmentRow>)
    requires |importances| == |features| && median != 0.0
    ensures |t| == |features|
    ensures forall j :: 0 <= j < |t| ==>
      t[j].feature == features[j] && t[j].monetary == importances[j] * range && t[j].percent == t[j].monetary / median * 100.0
  {
    seq(|features|, j requires 0 <= j < |features| => Row(features[j], importances[j], range, median))
  }

  /**
   * The table in the order of `features`: each feature's importance, looked
   * up by name in `dict(zip(features, importances))`, turned into a row
   * against the range and the median of the full price column.
   */
  function AdjustmentTable(importances: seq<real>, y: seq<real>): (t: seq<AdjustmentRow>)
    requires |importances| == |Features| && |y| > 0 && Median(y) != 0.0
    ensures |t| == |Features|
    ensures forall j :: 0 <= j < |t| ==>
      && t[j].feature == Features[j]
      && t[j].monetary == importances[j] * PriceRange(y)
      && t[j].percent == t[j].monetary / Median(y) * 100.0
  {
    NamesDistinct();
    DictLookupAll(Features, importances);
    var byFeature := Dict(Features, importances);
    var looked := seq(|Features|, j requires 0 <= j < |Features| => byFeature[Features[j]]);
    assert looked == importances;
    Rows(Features, looked, PriceRange(y), Median(y))
  }

  function Monetary(t: seq<AdjustmentRow>): (m: seq<real>)
    ensures |m| == |t| && forall j :: 0 <= j < |t| ==> m[j] == t[j].monetary
  {
    seq(|t|, j requires 0 <= j < |t| => t[j].monetary)
  }

  function Percentages(t: seq<AdjustmentRow>): (p: seq<real>)
    ensures |p| == |t| && forall j :: 0 <= j < |t| ==> p[j] == t[j].percent
  {
    seq(|t|, j requires 0 <= j < |t| => t[j].percent)
  }

  lemma TableIsRows(importances: seq<real>, y: seq<real>)
    requires |importances| == |Features| && |y| > 0 && Median(y) != 0.0
    ensures AdjustmentTable(importances, y) == Rows(Features, importances, PriceRange(y), Median(y))
  {
  }

  lemma {:induction false} RowsMonetarySum(features: seq<string>, importances: seq<real>, range: real, median: real)
    requires |importances| == |features| && median != 0.0
    ensures Sum(Monetary(Rows(features, importances, range, median))) == Sum(importances) * range
  {
    assert Monetary(Rows(features, importances, range, median)) == Scale(importances, range);
    SumScale(importances, range);
  }

  lemma {:induction false} RowsPercentageSum(features: seq<string>, importances: seq<real>, range: real, median: real)
    requires |importances| == |features| && median != 0.0
    ensures var t := Rows(features, importances, range, median);
      Sum(Percentages(t)) == Sum(Monetary(t)) / median * 100.0
  {
    var t := Rows(features, importances, range, median);
    var m, p := Monetary(t), Percentages(t);
    var c := 100.0 / median;
    forall j | 0 <= j < |p| ensures p[j] == Scale(m, c)[j] {
      DivideThenScale(m[j], median);
    }
    assert p == Scale(m, c);
    SumScale(m, c);
    DivideThenScale(Sum(m), median);
  }

  lemma DivideThenScale(a: real, d: real)
    requires d != 0.0
    ensures a / d * 100.0 == a * (100.0 / d)
  {
  }

  lemma ScaledWithin(w: real, r: real, x: real)
    requires 0.0 <= w <= 1.0 && r >= 0.0 && x == w * r
    ensures 0.0 <= x <= r
  {
    assert r - w * r == (1.0 - w) * r;
  }

  lemma ScaledOrder(v: real, w: real, r: real, a: real, b: real)
    requires v <= w && r >= 0.0 && a == v * r && b == w * r
    ensures a <= b
  {
    assert w * r - v * r == (w - v) * r;
  }

  /** An importance between 0 and 1 gives a dollar adjustment between 0 and the whole range. */
  lemma {:induction false} RowsMonetaryWithinRange(features: seq<string>, importances: seq<real>, range: real, median: real, j: nat)
    requires |importances| == |features| && median != 0.0 && range >= 0.0
    requires j < |features| && 0.0 <= importances[j] <= 1.0
    ensures 0.0 <= Rows(features, importances, range, median)[j].monetary <= range
  {
    ScaledWithin(importances[j], range, Rows(features, importances, range, median)[j].monetary);
  }

  /** Features are ranked the same way by dollar adjustment as by importance. */
  lemma {:induction false} RowsMonetaryFollowsImportance(features: seq<string>, importances: seq<real>, range: real, median: real, j: nat, k: nat)
    requires |importances| == |features| && median != 0.0 && range >= 0.0
    requires j < |features| && k < |features| && importances[j] <= importances[k]
    ensures Rows(features, importances, range, median)[j].monetary <= Rows(features, importances, range, median)[k].monetary
  {
    var t := Rows(features, importances, range, median);
    ScaledOrder(importances[j], importances[k], range, t[j].monetary, t[k].monetary);
  }

  /** Importances that sum to one share out the whole range among the features. */
  lemma RowsShareOutRange(features: seq<string>, importances: seq<real>, range: real, median: real)
    requires |importances| == |features| && median != 0.0 && Sum(importances) == 1.0
    ensures Sum(Monetary(Rows(features, importances, range, median))) == range
  {
    RowsMonetarySum(features, importances, range, median);
    UnitFactor(Sum(importances), range, Sum(Monetary(Rows(features, importances, range, median))));
  }

  lemma UnitFactor(w: real, r: real, x: real)
    requires x == w * r && w == 1.0
    ensures x == r
  {
  }

  /** When the importances sum to one, the dollar adjustments share out exactly the observed price range. */
  lemma MonetarySumsToPriceRange(importances: seq<real>, y: seq<real>)
    requires |importances| == |Features| && |y| > 0 && Median(y) != 0.0
    requires Sum(importances) == 1.0
    ensures Sum(Monetary(AdjustmentTable(importances, y))) == Max(y) - Min(y)
  {
    TableIsRows(importances, y);
    RowsShareOutRange(Features, importances, PriceRange(y), Median(y));
  }

  /** The percentage column sums to the dollar column's total over the median, times 100. */
  lemma PercentageSum(importances: seq<real>, y: seq<real>)
    requires |importances| == |Features| && |y| > 0 && Median(y) != 0.0
    ensures Sum(Percentages(AdjustmentTable(importances, y)))
      == Sum(Monetary(AdjustmentTable(importances, y))) / Median(y) * 100.0
  {
    TableIsRows(importances, y);
    RowsPercentageSum(Features, importances, PriceRange(y), Median(y));
  }

  /** A sale set in which every price is the same gives a zero dollar and a zero percentage adjustment for every feature. */
  lemma DegenerateTargetGivesZeroAdjustments(importances: seq<real>, y: seq<real>)
    requires |importances| == |Features| && |y| > 0 && Median(y) != 0.0
    requires forall i :: 0 <= i < |y| ==> y[i] == y[0]
    ensures forall j :: 0 <= j < |Features| ==>
      AdjustmentTable(importances, y)[j].monetary == 0.0 && AdjustmentTable(importances, y)[j].percent == 0.0
  {
  }

  lemma MonetaryWithinPriceRange(importances: seq<real>, y: seq<real>, j: nat)
    requires |importances| == |Features| && |y| > 0 && Median(y) != 0.0
    requires j < |Features| && 0.0 <= importances[j] <= 1.0
    ensures 0.0 <= AdjustmentTable(importances, y)[j].monetary <= PriceRange(y)
  {
    TableIsRows(importances, y);
    RowsMonetaryWithinRange(Features, importances, PriceRange(y), Median(y), j);
  }

  lemma MonetaryFollowsImportance(importances: seq<real>, y: seq<real>, j: nat, k: nat)
    requires |importances| == |Features| && |y| > 0 && Median(y) != 0.0
    requires j < |Features| && k < |Features| && importances[j] <= importances[k]
    ensures AdjustmentTable(importances, y)[j].monetary <= AdjustmentTable(importances, y)[k].monetary
  {
    TableIsRows(importances, y);
    RowsMonetaryFollowsImportance(Features, importances, PriceRange(y), Median(y), j, k);
  }
}
