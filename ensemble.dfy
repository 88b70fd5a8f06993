/**
 * The equal-weight blend of the three regressors' predictions over the test
 * rows, and its mean absolute error against the true test prices. The
 * regressors themselves are opaque: their prediction vectors are inputs.
 */
module Ensemble {
  import opened Stats

  function Abs(x: real): real {
    if x < 0.0 then -x else x
  }

  function Min3(a: real, b: real, c: real): real {
    if a <= b && a <= c then a else if b <= c then b else c
  }

  function Max3(a: real, b: real, c: real): real {
    if a >= b && a >= c then a else if b >= c then b else c
  }

  /**
   * `(rf_pred + xgb_pred + lr_pred) / 3`, element by element. Each entry is
   * the one value from which the three predictions deviate by a total of
   * zero, that is, their mean.
   */
  function Blend(rf: seq<real>, xgb: seq<real>, lr: seq<real>): (r: seq<real>)
    requires |rf| == |xgb| == |lr|
    ensures |r| == |rf|
    ensures forall i :: 0 <= i < |r| ==> (rf[i] - r[i]) + (xgb[i] - r[i]) + (lr[i] - r[i]) == 0.0
  {
    seq(|rf|, i requires 0 <= i < |rf| => (rf[i] + xgb[i] + lr[i]) / 3.0)
  }

  /** Each blended prediction lies between the lowest and the highest of the three models' predictions. */
  lemma BlendWithinPredictions(rf: seq<real>, xgb: seq<real>, lr: seq<real>)
    requires |rf| == |xgb| == |lr|
    ensures forall i :: 0 <= i < |rf| ==>
      Min3(rf[i], xgb[i], lr[i]) <= Blend(rf, xgb, lr)[i] <= Max3(rf[i], xgb[i], lr[i])
  {
  }

  /** Where the three models agree, the blend is their common prediction. */
  lemma BlendOfAgreeingModels(p: seq<real>)
    ensures Blend(p, p, p) == p
  {
  }

  /** The absolute differences between true and predicted prices. */
  function AbsErrors(yTrue: seq<real>, yPred: seq<real>): (e: seq<real>)
    requires |yTrue| == |yPred|
    ensures |e| == |yTrue|
    ensures forall i :: 0 <= i < |e| ==> e[i] >= 0.0 && (e[i] == 0.0 <==> yTrue[i] == yPred[i])
  {
    seq(|yTrue|, i requires 0 <= i < |yTrue| => Abs(yPred[i] - yTrue[i]))
  }

  /** `mean_absolute_error(y_test, final_pred)`: the mean of the absolute differences. */
  function MeanAbsoluteError(yTrue: seq<real>, yPred: seq<real>): (mae: real)
    requires |yTrue| == |yPred| && |yTrue| > 0
    ensures mae >= 0.0
  {
    SumZeroIffAllZero(AbsErrors(yTrue, yPred));
    Sum(AbsErrors(yTrue, yPred)) / (|yTrue| as real)
  }

  /** The error is zero exactly when every prediction equals its true price. */
  lemma MaeZeroIffExact(yTrue: seq<real>, yPred: seq<real>)
    requires |yTrue| == |yPred| && |yTrue| > 0
    ensures MeanAbsoluteError(yTrue, yPred) == 0.0 <==> forall i :: 0 <= i < |yTrue| ==> yPred[i] == yTrue[i]
  {
    var e := AbsErrors(yTrue, yPred);
    SumZeroIffAllZero(e);
  }

  /** The error never exceeds a bound that every single absolute difference stays within. */
  lemma MaeWithinBound(yTrue: seq<real>, yPred: seq<real>, bound: real)
    requires |yTrue| == |yPred| && |yTrue| > 0
    requires forall i :: 0 <= i < |yTrue| ==> Abs(yPred[i] - yTrue[i]) <= bound
    ensures MeanAbsoluteError(yTrue, yPred) <= bound
  {
    var e := AbsErrors(yTrue, yPred);
    var n := |yTrue|;
    var b := seq(n, i requires 0 <= i < n => bound);
    SumMonotone(e, b);
    SumConstant(bound, n);
    assert b == Constant(bound, n);
  }

  function Constant(v: real, n: nat): (s: seq<real>)
    ensures |s| == n && forall i :: 0 <= i < n ==> s[i] == v
  {
    seq(n, i => v)
  }

  lemma {:induction false} SumConstant(v: real, n: nat)
    ensures Sum(Constant(v, n)) == v * (n as real)
  {
    if n > 0 {
      SumConstant(v, n - 1);
      assert Constant(v, n)[1..] == Constant(v, n - 1);
    }
  }

  /**
   * Equal-weight blending never does worse than the average of the three
   * models' own errors.
   */
  lemma BlendErrorAtMostMeanOfErrors(yTrue: seq<real>, rf: seq<real>, xgb: seq<real>, lr: seq<real>)
    requires |yTrue| == |rf| == |xgb| == |lr| && |yTrue| > 0
    ensures MeanAbsoluteError(yTrue, Blend(rf, xgb, lr))
      <= (MeanAbsoluteError(yTrue, rf) + MeanAbsoluteError(yTrue, xgb) + MeanAbsoluteError(yTrue, lr)) / 3.0
  {
    var n := |yTrue|;
    var eb := AbsErrors(yTrue, Blend(rf, xgb, lr));
    var e1, e2, e3 := AbsErrors(yTrue, rf), AbsErrors(yTrue, xgb), AbsErrors(yTrue, lr);
    var m := seq(n, i requires 0 <= i < n => (e1[i] + e2[i] + e3[i]) / 3.0);
    forall i | 0 <= i < n ensures eb[i] <= m[i] {
      TriangleThree(yTrue[i], rf[i], xgb[i], lr[i]);
    }
    SumMonotone(eb, m);
    SumMeanOfThree(e1, e2, e3, m);
    MeanOfThreeDivided(Sum(eb), Sum(e1), Sum(e2), Sum(e3), n as real);
  }

  lemma MeanOfThreeDivided(x: real, a: real, b: real, c: real, n: real)
    requires n > 0.0 && x <= (a + b + c) / 3.0
    ensures x / n <= (a / n + b / n + c / n) / 3.0
  {
    assert (a / n + b / n + c / n) / 3.0 == ((a + b + c) / 3.0) / n;
  }

  lemma TriangleThree(y: real, a: real, b: real, c: real)
    ensures Abs((a + b + c) / 3.0 - y) <= (Abs(a - y) + Abs(b - y) + Abs(c - y)) / 3.0
  {
    assert (a + b + c) / 3.0 - y == ((a - y) + (b - y) + (c - y)) / 3.0;
  }

  lemma {:induction false} SumMeanOfThree(a: seq<real>, b: seq<real>, c: seq<real>, m: seq<real>)
    requires |a| == |b| == |c| == |m|
    requires forall i :: 0 <= i < |m| ==> m[i] == (a[i] + b[i] + c[i]) / 3.0
    ensures Sum(m) == (Sum(a) + Sum(b) + Sum(c)) / 3.0
  {
    if m != [] {
      SumMeanOfThree(a[1..], b[1..], c[1..], m[1..]);
    }
  }
}
