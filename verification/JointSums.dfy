/** The figures of an error summary, read off the truths and the predictions joint by joint and frame by
    frame (scripts/evaluate_smolvla_rtc_open_loop.py:31-38,
    scripts/evaluate_smolvla_open_loop_video.py:420-462). */
module JointSums {
  import opened RealSums
  import opened JointErrors

  /** How far the predictions of one joint are off, over all frames. */
  function Distances(gt: seq<Joints>, pred: seq<Joints>, j: nat): real
    requires |gt| == |pred| && j < 6
  {
    if gt == [] then 0.0
    else (if pred[0][j] >= gt[0][j] then pred[0][j] - gt[0][j] else gt[0][j] - pred[0][j])
         + Distances(gt[1..], pred[1..], j)
  }

  function SquaredDistances(gt: seq<Joints>, pred: seq<Joints>, j: nat): real
    requires |gt| == |pred| && j < 6
  {
    if gt == [] then 0.0
    else (pred[0][j] - gt[0][j]) * (pred[0][j] - gt[0][j]) + SquaredDistances(gt[1..], pred[1..], j)
  }

  lemma {:induction false} SumOfDistances(gt: seq<Joints>, pred: seq<Joints>, j: nat)
    requires |gt| == |pred| && j < 6
    ensures Rect(AbsRows(Errors(gt, pred)), 6)
    ensures Sum(Column(AbsRows(Errors(gt, pred)), j)) == Distances(gt, pred, j)
  {
    var column := Column(AbsRows(Errors(gt, pred)), j);
    if gt == [] {
      assert column == [];
    } else {
      SumOfDistances(gt[1..], pred[1..], j);
      assert column[1..] == Column(AbsRows(Errors(gt[1..], pred[1..])), j);
      assert column[0] == Abs(pred[0][j] - gt[0][j]);
    }
  }

  lemma {:induction false} SumOfSquaredDistances(gt: seq<Joints>, pred: seq<Joints>, j: nat)
    requires |gt| == |pred| && j < 6
    ensures Rect(SquareRows(Errors(gt, pred)), 6)
    ensures Sum(Column(SquareRows(Errors(gt, pred)), j)) == SquaredDistances(gt, pred, j)
  {
    var column := Column(SquareRows(Errors(gt, pred)), j);
    if gt == [] {
      assert column == [];
    } else {
      SumOfSquaredDistances(gt[1..], pred[1..], j);
      assert column[1..] == Column(SquareRows(Errors(gt[1..], pred[1..])), j);
      assert column[0] == Square(pred[0][j] - gt[0][j]);
    }
  }

  /** The figures of one joint, times the number of frames, are its summed distances and squares. */
  lemma JointFigures(gt: seq<Joints>, pred: seq<Joints>, j: nat)
    requires |gt| == |pred| > 0 && j < 6
    ensures |Score(gt, pred).perJoint| == |JointMeanSquares(gt, pred)| == 6
    ensures |gt| as real * Score(gt, pred).perJoint[j] == Distances(gt, pred, j)
    ensures |gt| as real * JointMeanSquares(gt, pred)[j] == SquaredDistances(gt, pred, j)
  {
    hide Mean, Sum, Cells, Errors;
    CellsOf(gt, pred);
    SumOfDistances(gt, pred, j);
    SumOfSquaredDistances(gt, pred, j);
    MeanTimes(Column(AbsRows(Errors(gt, pred)), j), |gt| as real);
    MeanTimes(Column(SquareRows(Errors(gt, pred)), j), |gt| as real);
  }

  lemma SumFrom(xs: seq<real>, k: nat)
    requires k < |xs|
    ensures Sum(xs[k..]) == xs[k] + Sum(xs[k + 1..])
    ensures k == 0 ==> Sum(xs[k..]) == Sum(xs)
    ensures k + 1 == |xs| ==> Sum(xs[k + 1..]) == 0.0
  {
    assert xs[k..][1..] == xs[k + 1..];
    assert xs[0..] == xs;
  }

  lemma SumOfSix(xs: seq<real>)
    requires |xs| == 6
    ensures Sum(xs) == xs[0] + xs[1] + xs[2] + xs[3] + xs[4] + xs[5]
  {
    hide Sum;
    SumFrom(xs, 0);
    SumFrom(xs, 1);
    SumFrom(xs, 2);
    SumFrom(xs, 3);
    SumFrom(xs, 4);
    SumFrom(xs, 5);
  }

  /** A mean over six joints, each of them a mean over n frames. */
  lemma MeanOfSix(n: real, xs: seq<real>, a: real, b: real, c: real, d: real, e: real, f: real)
    requires |xs| == 6
    requires n * xs[0] == a && n * xs[1] == b && n * xs[2] == c && n * xs[3] == d && n * xs[4] == e && n * xs[5] == f
    ensures n * (6.0 * Mean(xs)) == a + b + c + d + e + f
  {
    hide Mean, Sum;
    SumOfSix(xs);
    MeanTimes(xs, 6.0);
    assert n * Sum(xs) == n * xs[0] + n * xs[1] + n * xs[2] + n * xs[3] + n * xs[4] + n * xs[5];
  }

  /** The figures over all six joints, times the number of cells, are all distances and squares. */
  lemma OverallFigures(gt: seq<Joints>, pred: seq<Joints>)
    requires |gt| == |pred| > 0
    ensures |gt| as real * (6.0 * Score(gt, pred).mae)
            == Distances(gt, pred, 0) + Distances(gt, pred, 1) + Distances(gt, pred, 2)
             + Distances(gt, pred, 3) + Distances(gt, pred, 4) + Distances(gt, pred, 5)
    ensures |gt| as real * (6.0 * Score(gt, pred).meanSquare)
            == SquaredDistances(gt, pred, 0) + SquaredDistances(gt, pred, 1) + SquaredDistances(gt, pred, 2)
             + SquaredDistances(gt, pred, 3) + SquaredDistances(gt, pred, 4) + SquaredDistances(gt, pred, 5)
  {
    hide Mean, Score, JointMeanSquares, Distances, SquaredDistances;
    forall j: nat | j < 6
      ensures |gt| as real * Score(gt, pred).perJoint[j] == Distances(gt, pred, j)
      ensures |gt| as real * JointMeanSquares(gt, pred)[j] == SquaredDistances(gt, pred, j)
    {
      JointFigures(gt, pred, j);
    }
    PerJointMean(gt, pred);
    PerJointMeanSquare(gt, pred);
    var n := |gt| as real;
    MeanOfSix(n, Score(gt, pred).perJoint,
              Distances(gt, pred, 0), Distances(gt, pred, 1), Distances(gt, pred, 2),
              Distances(gt, pred, 3), Distances(gt, pred, 4), Distances(gt, pred, 5));
    MeanOfSix(n, JointMeanSquares(gt, pred),
              SquaredDistances(gt, pred, 0), SquaredDistances(gt, pred, 1), SquaredDistances(gt, pred, 2),
              SquaredDistances(gt, pred, 3), SquaredDistances(gt, pred, 4), SquaredDistances(gt, pred, 5));
  }

  lemma {:induction false} NoDistance(gt: seq<Joints>, pred: seq<Joints>, j: nat)
    requires |gt| == |pred| && j < 6
    ensures Distances(gt, pred, j) >= 0.0
    ensures Distances(gt, pred, j) == 0.0 <==> forall i :: 0 <= i < |gt| ==> pred[i][j] == gt[i][j]
  {
    if gt == [] {
    } else {
      NoDistance(gt[1..], pred[1..], j);
      assert forall i :: 0 < i < |gt| ==> pred[i] == pred[1..][i - 1] && gt[i] == gt[1..][i - 1];
      if forall i :: 0 <= i < |gt| ==> pred[i][j] == gt[i][j] {
        assert forall i :: 0 <= i < |gt[1..]| ==> pred[1..][i] == pred[i + 1] && gt[1..][i] == gt[i + 1];
      }
    }
  }

  lemma JointsEqual(a: Joints, b: Joints)
    requires a[0] == b[0] && a[1] == b[1] && a[2] == b[2] && a[3] == b[3] && a[4] == b[4] && a[5] == b[5]
    ensures a == b
  {
  }

  lemma ZeroProduct(n: real, x: real)
    requires n > 0.0
    ensures n * (6.0 * x) == 0.0 <==> x == 0.0
  {
  }

  /** The mean error is zero exactly for a prediction without any error. */
  lemma ZeroExactly(gt: seq<Joints>, pred: seq<Joints>)
    requires |gt| == |pred| > 0
    ensures Score(gt, pred).mae == 0.0 <==> pred == gt
  {
    hide Score, Distances, SquaredDistances;
    OverallFigures(gt, pred);
    ZeroProduct(|gt| as real, Score(gt, pred).mae);
    NoDistance(gt, pred, 0);
    NoDistance(gt, pred, 1);
    NoDistance(gt, pred, 2);
    NoDistance(gt, pred, 3);
    NoDistance(gt, pred, 4);
    NoDistance(gt, pred, 5);
    if Score(gt, pred).mae == 0.0 {
      forall i | 0 <= i < |gt|
        ensures pred[i] == gt[i]
      {
        JointsEqual(pred[i], gt[i]);
      }
    }
  }
}
