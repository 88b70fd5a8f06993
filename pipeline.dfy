/**
 * The run as one linear sequence: clean, select, split, blend and score,
 * adjust. Model fitting and prediction are outside the model; the three
 * prediction vectors and the forest's importances come in as values.
 */
module Pipeline {
  import opened Wrappers
  import opened Frame
  import opened Schema
  import opened Sanitizer
  import opened Selection
  import opened Stats
  import opened Ensemble
  import opened Adjustments

  datatype PipelineError =
    | MissingRequired(error: SchemaError)
    | InsufficientData

  /** `X` and `y` over the cleaned table. */
  datatype Prepared = Prepared(features: seq<seq<real>>, target: seq<real>)

  /**
   * Lines 33-47: clean the sheet and select the features and the target.
   * An absent required column fails; so does a cleaned table with fewer
   * than two rows, where the 80/20 split (a test part of `ceil(n / 5)`
   * rows) leaves no training row.
   */
  function Prepare(raw: Table, parse: string -> Option<real>): (r: Result<Prepared, PipelineError>)
    requires raw.WellFormed()
    ensures (r.Failure? && r.error.MissingRequired?) <==> exists n :: n in Required && n !in raw.columns
    ensures r.Failure? && r.error.MissingRequired? ==>
      r.error.error.name in Required && r.error.error.name !in raw.columns
    ensures (r.Failure? && r.error.InsufficientData?) <==>
      Sanitize(raw, parse).Success? && |Sanitize(raw, parse).value.rows| < 2
    ensures r.Success? ==>
      && Sanitize(raw, parse).Success?
      && r.value == Prepared(FeatureMatrix(Sanitize(raw, parse).value), TargetVector(Sanitize(raw, parse).value))
      && |r.value.features| == |r.value.target| == |Sanitize(raw, parse).value.rows| >= 2
      && forall i :: 0 <= i < |r.value.features| ==> |r.value.features[i]| == |Features|
  {
    match Sanitize(raw, parse)
    case Failure(e) => Failure(MissingRequired(e))
    case Success(c) =>
      if |c.rows| < 2 then Failure(InsufficientData)
      else Success(Prepared(FeatureMatrix(c), TargetVector(c)))
  }

  /** What the run reports: the blended model's error and the adjustment table. */
  datatype Report = Report(mae: real, adjustments: seq<AdjustmentRow>)

  predicate Predictions(test: seq<nat>, rf: seq<real>, xgb: seq<real>, lr: seq<real>) {
    |rf| == |test| && |xgb| == |test| && |lr| == |test|
  }

  /**
   * Lines 62-86 once the models have predicted the test rows: the blend is
   * scored against the test prices only, while the adjustments use every
   * cleaned price.
   */
  function Appraise(d: Prepared, test: seq<nat>, rf: seq<real>, xgb: seq<real>, lr: seq<real>, importances: seq<real>): (r: Report)
    requires IsTestSplit(test, |d.target|) && Predictions(test, rf, xgb, lr)
    requires |importances| == |Features| && Median(d.target) != 0.0
    ensures r.mae == MeanAbsoluteError(Pick(d.target, test), Blend(rf, xgb, lr))
    ensures r.adjustments == AdjustmentTable(importances, d.target)
    ensures r.mae >= 0.0
    ensures r.mae == 0.0 <==> forall k :: 0 <= k < |test| ==> Blend(rf, xgb, lr)[k] == d.target[test[k]]
    ensures |r.adjustments| == |Features|
    ensures forall j :: 0 <= j < |Features| ==> r.adjustments[j].feature == Features[j]
  {
    var yTest := Pick(d.target, test);
    MaeZeroIffExact(yTest, Blend(rf, xgb, lr));
    Report(MeanAbsoluteError(yTest, Blend(rf, xgb, lr)), AdjustmentTable(importances, d.target))
  }

  /** The adjustment table does not depend on which rows were held out or on what the models predicted. */
  lemma AdjustmentsIgnoreSplitAndPredictions(
    d: Prepared, test1: seq<nat>, rf1: seq<real>, xgb1: seq<real>, lr1: seq<real>,
    test2: seq<nat>, rf2: seq<real>, xgb2: seq<real>, lr2: seq<real>, importances: seq<real>)
    requires IsTestSplit(test1, |d.target|) && Predictions(test1, rf1, xgb1, lr1)
    requires IsTestSplit(test2, |d.target|) && Predictions(test2, rf2, xgb2, lr2)
    requires |importances| == |Features| && Median(d.target) != 0.0
    ensures Appraise(d, test1, rf1, xgb1, lr1, importances).adjustments
      == Appraise(d, test2, rf2, xgb2, lr2, importances).adjustments
  {
  }

  /** The error only reads the prices of the test rows: changing any training price leaves it as it was. */
  lemma MaeReadsOnlyTestPrices(
    d1: Prepared, d2: Prepared, test: seq<nat>, rf: seq<real>, xgb: seq<real>, lr: seq<real>, importances: seq<real>)
    requires IsTestSplit(test, |d1.target|) && |d2.target| == |d1.target| && Predictions(test, rf, xgb, lr)
    requires |importances| == |Features| && Median(d1.target) != 0.0 && Median(d2.target) != 0.0
    requires forall k :: 0 <= k < |test| ==> d1.target[test[k]] == d2.target[test[k]]
    ensures Appraise(d1, test, rf, xgb, lr, importances).mae == Appraise(d2, test, rf, xgb, lr, importances).mae
  {
    assert Pick(d1.target, test) == Pick(d2.target, test);
  }
}
