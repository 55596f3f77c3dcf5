/** The error summary of an evaluation (scripts/evaluate_smolvla_rtc_open_loop.py:31-38, the same
    figures as scripts/evaluate_smolvla_open_loop_video.py:420-462).  The root of a mean square is not
    taken: a statement about RMSE is one about meanSquare. */
module JointErrors {
  import opened RealSums

  const JOINTS: nat := 6

  type Joints = v: seq<real> | |v| == JOINTS witness [0.0, 0.0, 0.0, 0.0, 0.0, 0.0]

  function Minus(pred: Joints, gt: Joints): Row {
    seq(JOINTS, j requires 0 <= j < JOINTS => pred[j] - gt[j])
  }

  function Errors(gt: seq<Joints>, pred: seq<Joints>): (es: seq<Row>)
    requires |gt| == |pred|
    ensures |es| == |gt| && Rect(es, JOINTS)
  {
    seq(|gt|, i requires 0 <= i < |gt| => Minus(pred[i], gt[i]))
  }

  datatype Scores = Scores(mae: real, meanSquare: real, perJoint: seq<real>)

  function Score(gt: seq<Joints>, pred: seq<Joints>): (s: Scores)
    requires |gt| == |pred| > 0
    ensures |s.perJoint| == JOINTS
  {
    CellsOf(gt, pred);
    var es := Errors(gt, pred);
    Scores(Mean(AbsAll(Cells(es))), Mean(SquareAll(Cells(es))), ColumnMeans(AbsRows(es), JOINTS))
  }

  lemma CellsOf(gt: seq<Joints>, pred: seq<Joints>)
    requires |gt| == |pred|
    ensures |Cells(Errors(gt, pred))| == |gt| * JOINTS
    ensures Rect(AbsRows(Errors(gt, pred)), JOINTS)
  {
    CellCount(Errors(gt, pred), JOINTS);
  }

  /** The mean square of each joint. */
  function JointMeanSquares(gt: seq<Joints>, pred: seq<Joints>): (ms: seq<real>)
    requires |gt| == |pred| > 0
    ensures |ms| == JOINTS
  {
    ColumnMeans(SquareRows(Errors(gt, pred)), JOINTS)
  }

  lemma {:induction false} CellsOfSquares(rows: seq<Row>)
    ensures Cells(SquareRows(rows)) == SquareAll(Cells(rows))
  {
    hide Square;
    if rows == [] {
    } else {
      assert SquareRows(rows)[1..] == SquareRows(rows[1..]);
      CellsOfSquares(rows[1..]);
    }
  }

  lemma {:induction false} CellsOfAbs(rows: seq<Row>)
    ensures Cells(AbsRows(rows)) == AbsAll(Cells(rows))
  {
    if rows == [] {
    } else {
      assert AbsRows(rows)[1..] == AbsRows(rows[1..]);
      CellsOfAbs(rows[1..]);
    }
  }

  /** The mean of the per-joint mean errors is the mean error. */
  lemma PerJointMean(gt: seq<Joints>, pred: seq<Joints>)
    requires |gt| == |pred| > 0
    ensures |Score(gt, pred).perJoint| == JOINTS
    ensures Score(gt, pred).mae == Mean(Score(gt, pred).perJoint)
  {
    hide Mean, Cells, Errors;
    CellsOf(gt, pred);
    CellsOfAbs(Errors(gt, pred));
    MeanByColumns(AbsRows(Errors(gt, pred)), JOINTS);
  }

  /** The mean of the per-joint mean squares is the mean square. */
  lemma PerJointMeanSquare(gt: seq<Joints>, pred: seq<Joints>)
    requires |gt| == |pred| > 0
    ensures Score(gt, pred).meanSquare == Mean(JointMeanSquares(gt, pred))
  {
    hide Mean, Cells, Errors, Square;
    CellsOf(gt, pred);
    CellsOfSquares(Errors(gt, pred));
    MeanByColumns(SquareRows(Errors(gt, pred)), JOINTS);
  }

  lemma SquareOfAbs(xs: seq<real>)
    ensures SquareAll(AbsAll(xs)) == SquareAll(xs)
  {
    assert forall x :: Square(Abs(x)) == Square(x);
  }

  lemma MeanOfSquares(s: real, q: real, n: real)
    requires n > 0.0 && SquareBound(n, s, q)
    ensures (s / n) * (s / n) <= q / n
  {
    var m := s / n;
    assert s == m * n;
    assert (m * m) * (n * n) <= n * q;
    assert n * ((m * m) * n) == (m * m) * (n * n);
    assert (m * m) * n <= q;
    DivideBound(m * m, n, q);
  }

  lemma DivideBound(a: real, n: real, q: real)
    requires n > 0.0 && a * n <= q
    ensures a <= q / n
  {
    assert q / n * n == q;
  }

  lemma DivideAtMost(q: real, n: real, a: real)
    requires n > 0.0 && q <= n * a
    ensures q / n <= a
  {
    assert q / n * n == q;
  }

  /** The square of the mean error is at most the mean square, and that at most the square of any
      bound on the errors. */
  lemma MaeRmseMax(gt: seq<Joints>, pred: seq<Joints>, top: real)
    requires |gt| == |pred| > 0
    requires forall x :: x in Cells(Errors(gt, pred)) ==> Abs(x) <= top
    ensures Score(gt, pred).mae * Score(gt, pred).mae <= Score(gt, pred).meanSquare <= top * top
  {
    hide Sum, Cells, Errors, SquareBound, AbsRows, ColumnMeans;
    CellsOf(gt, pred);
    var xs := Cells(Errors(gt, pred));
    SquareOfSum(AbsAll(xs));
    SquareOfAbs(xs);
    MeanOfSquares(Sum(AbsAll(xs)), Sum(SquareAll(xs)), |xs| as real);
    forall i | 0 <= i < |xs|
      ensures SquareAll(xs)[i] <= top * top
    {
      SquareAtMost(xs[i], top);
    }
    SumBounded(SquareAll(xs), top * top);
    DivideAtMost(Sum(SquareAll(xs)), |xs| as real, top * top);
  }

  /** In every joint, too, the square of the mean error is at most the mean square. */
  lemma JointMaeRmse(gt: seq<Joints>, pred: seq<Joints>, j: nat)
    requires |gt| == |pred| > 0 && j < JOINTS
    ensures Score(gt, pred).perJoint[j] * Score(gt, pred).perJoint[j] <= JointMeanSquares(gt, pred)[j]
  {
    hide Sum, Cells, SquareBound, Square;
    CellsOf(gt, pred);
    var es := Errors(gt, pred);
    var xs := Column(es, j);
    assert Column(AbsRows(es), j) == AbsAll(xs) && Column(SquareRows(es), j) == SquareAll(xs);
    SquareOfSum(AbsAll(xs));
    SquareOfAbs(xs);
    MeanOfSquares(Sum(AbsAll(xs)), Sum(SquareAll(xs)), |xs| as real);
  }

  lemma SquareAtMost(x: real, top: real)
    requires Abs(x) <= top
    ensures Square(x) <= top * top
  {
    assert Square(x) == Abs(x) * Abs(x) <= top * top;
  }

  // ---------------------------------------------------------------- comparing predictions

  /** No cell of "better" is farther from the truth than the same cell of "worse". */
  ghost predicate NeverFarther(gt: seq<Joints>, better: seq<Joints>, worse: seq<Joints>)
    requires |gt| == |better| == |worse|
  {
    forall i, j :: 0 <= i < |gt| && 0 <= j < JOINTS ==> Abs(better[i][j] - gt[i][j]) <= Abs(worse[i][j] - gt[i][j])
  }

  /** xs is in no cell larger than ys. */
  ghost predicate AtMost(xs: seq<real>, ys: seq<real>) {
    |xs| == |ys| && forall i :: 0 <= i < |xs| ==> xs[i] <= ys[i]
  }

  lemma MeanAtMost(xs: seq<real>, ys: seq<real>)
    requires AtMost(xs, ys) && xs != []
    ensures Mean(xs) <= Mean(ys)
  {
    SumAtMost(xs, ys);
    var n := |xs| as real;
    assert Sum(xs) / n * n == Sum(xs);
    DivideBound(Mean(xs), n, Sum(ys));
  }

  lemma {:induction false} CellsAtMost(a: seq<Row>, b: seq<Row>)
    requires |a| == |b| && forall i :: 0 <= i < |a| ==> AtMost(a[i], b[i])
    ensures AtMost(Cells(a), Cells(b))
  {
    if a == [] {
    } else {
      CellsAtMost(a[1..], b[1..]);
    }
  }

  lemma SquaresAtMost(xs: seq<real>, ys: seq<real>)
    requires AtMost(AbsAll(xs), AbsAll(ys))
    ensures AtMost(SquareAll(xs), SquareAll(ys))
  {
    forall i | 0 <= i < |xs|
      ensures SquareAll(xs)[i] <= SquareAll(ys)[i]
    {
      assert AbsAll(xs)[i] <= AbsAll(ys)[i];
      SquareAtMost(xs[i], Abs(ys[i]));
      assert Square(ys[i]) == Abs(ys[i]) * Abs(ys[i]);
    }
  }

  /** Then every figure of the summary is at most that of the other. */
  lemma NeverFartherScoresLess(gt: seq<Joints>, better: seq<Joints>, worse: seq<Joints>)
    requires |gt| == |better| == |worse| > 0 && NeverFarther(gt, better, worse)
    ensures Score(gt, better).mae <= Score(gt, worse).mae
    ensures Score(gt, better).meanSquare <= Score(gt, worse).meanSquare
    ensures AtMost(Score(gt, better).perJoint, Score(gt, worse).perJoint)
    ensures AtMost(JointMeanSquares(gt, better), JointMeanSquares(gt, worse))
  {
    hide Mean, Cells, Square;
    var a, b := Errors(gt, better), Errors(gt, worse);
    forall i | 0 <= i < |gt|
      ensures AtMost(AbsRows(a)[i], AbsRows(b)[i])
    {
    }
    CellsAtMost(AbsRows(a), AbsRows(b));
    CellsOfAbs(a);
    CellsOfAbs(b);
    CellsOf(gt, better);
    CellsOf(gt, worse);
    MeanAtMost(AbsAll(Cells(a)), AbsAll(Cells(b)));
    SquaresAtMost(Cells(a), Cells(b));
    MeanAtMost(SquareAll(Cells(a)), SquareAll(Cells(b)));
    forall j | 0 <= j < JOINTS
      ensures ColumnMeans(AbsRows(a), JOINTS)[j] <= ColumnMeans(AbsRows(b), JOINTS)[j]
    {
      forall i | 0 <= i < |gt|
        ensures Column(AbsRows(a), j)[i] <= Column(AbsRows(b), j)[i]
      {
        assert AtMost(AbsRows(a)[i], AbsRows(b)[i]);
      }
      MeanAtMost(Column(AbsRows(a), j), Column(AbsRows(b), j));
    }
    JointSquaresAtMost(gt, better, worse);
  }

  lemma JointSquaresAtMost(gt: seq<Joints>, better: seq<Joints>, worse: seq<Joints>)
    requires |gt| == |better| == |worse| > 0 && NeverFarther(gt, better, worse)
    ensures AtMost(JointMeanSquares(gt, better), JointMeanSquares(gt, worse))
  {
    hide Mean, Square;
    var a, b := Errors(gt, better), Errors(gt, worse);
    forall j | 0 <= j < JOINTS
      ensures Mean(Column(SquareRows(a), j)) <= Mean(Column(SquareRows(b), j))
    {
      forall i | 0 <= i < |gt|
        ensures AbsAll(Column(a, j))[i] <= AbsAll(Column(b, j))[i]
      {
      }
      SquaresAtMost(Column(a, j), Column(b, j));
      assert Column(SquareRows(a), j) == SquareAll(Column(a, j));
      assert Column(SquareRows(b), j) == SquareAll(Column(b, j));
      MeanAtMost(SquareAll(Column(a, j)), SquareAll(Column(b, j)));
    }
  }

  // ---------------------------------------------------------------- recombining parts

  /** The frames of one episode that enter the summary. */
  datatype Part = Part(gt: seq<Joints>, pred: seq<Joints>)
  {
    predicate Valid() {
      |gt| == |pred| > 0
    }
  }

  function AllGt(parts: seq<Part>): seq<Joints> {
    if parts == [] then [] else parts[0].gt + AllGt(parts[1..])
  }

  function AllPred(parts: seq<Part>): seq<Joints> {
    if parts == [] then [] else parts[0].pred + AllPred(parts[1..])
  }

  lemma {:induction false} AllOfMore(parts: seq<Part>, more: Part)
    ensures AllGt(parts + [more]) == AllGt(parts) + more.gt
    ensures AllPred(parts + [more]) == AllPred(parts) + more.pred
  {
    if parts == [] {
      assert [more][1..] == [];
    } else {
      assert (parts + [more])[1..] == parts[1..] + [more];
      AllOfMore(parts[1..], more);
    }
  }

  datatype Figure = Mae | MeanSquare | JointMae(j: nat) | JointMeanSquare(j: nat)
  {
    predicate Valid() {
      JointMae? || JointMeanSquare? ==> j < JOINTS
    }

    /** The figure as it stands in a summary. */
    function In(s: Scores): real
      requires Valid() && !JointMeanSquare? && |s.perJoint| == JOINTS
    {
      match this
      case Mae => s.mae
      case MeanSquare => s.meanSquare
      case JointMae(j) => s.perJoint[j]
    }

    /** The figure of a prediction. */
    function Of(gt: seq<Joints>, pred: seq<Joints>): real
      requires Valid() && |gt| == |pred| > 0
    {
      if JointMeanSquare? then JointMeanSquares(gt, pred)[j] else In(Score(gt, pred))
    }

    /** What the figure adds up over the frames before it is divided by their number. */
    function Total(gt: seq<Joints>, pred: seq<Joints>): real
      requires Valid() && |gt| == |pred|
    {
      CellsOf(gt, pred);
      var es := Errors(gt, pred);
      match this
      case Mae => Sum(AbsAll(Cells(es))) / JOINTS as real
      case MeanSquare => Sum(SquareAll(Cells(es))) / JOINTS as real
      case JointMae(j) => Sum(Column(AbsRows(es), j))
      case JointMeanSquare(j) => Sum(Column(SquareRows(es), j))
    }
  }

  function Times(n: nat, x: real): real {
    n as real * x
  }

  /** The figure of each part, weighted with its number of frames. */
  function Weighted(parts: seq<Part>, f: Figure): real
    requires f.Valid() && forall i :: 0 <= i < |parts| ==> parts[i].Valid()
  {
    if parts == [] then 0.0
    else
      assert parts[0].Valid();
      Times(|parts[0].gt|, f.Of(parts[0].gt, parts[0].pred)) + Weighted(parts[1..], f)
  }

  lemma TimesMean(total: real, n: real)
    requires n > 0.0
    ensures n * (total / n) == total
  {
  }

  lemma TimesCellMean(total: real, n: real, cells: real)
    requires n > 0.0 && cells == n * JOINTS as real
    ensures cells > 0.0 && n * (total / cells) == total / JOINTS as real
  {
    assert total / cells * cells == total;
    assert n * (total / cells) * JOINTS as real == total;
  }

  lemma FigureIsMean(gt: seq<Joints>, pred: seq<Joints>, f: Figure)
    requires f.Valid() && |gt| == |pred| > 0
    ensures Times(|gt|, f.Of(gt, pred)) == f.Total(gt, pred)
  {
    hide Sum, Cells, Errors;
    CellsOf(gt, pred);
    var es := Errors(gt, pred);
    var n := |gt| as real;
    match f
    case Mae => TimesCellMean(Sum(AbsAll(Cells(es))), n, |Cells(es)| as real);
    case MeanSquare => TimesCellMean(Sum(SquareAll(Cells(es))), n, |Cells(es)| as real);
    case JointMae(j) => TimesMean(Sum(Column(AbsRows(es), j)), n);
    case JointMeanSquare(j) => TimesMean(Sum(Column(SquareRows(es), j)), n);
  }

  lemma ErrorsOfParts(gt: seq<Joints>, pred: seq<Joints>, gt': seq<Joints>, pred': seq<Joints>)
    requires |gt| == |pred| && |gt'| == |pred'|
    ensures Errors(gt + gt', pred + pred') == Errors(gt, pred) + Errors(gt', pred')
  {
    hide Minus;
  }

  lemma TotalOfParts(gt: seq<Joints>, pred: seq<Joints>, gt': seq<Joints>, pred': seq<Joints>, f: Figure)
    requires f.Valid() && |gt| == |pred| && |gt'| == |pred'|
    ensures f.Total(gt + gt', pred + pred') == f.Total(gt, pred) + f.Total(gt', pred')
  {
    hide Sum, Cells, Errors, Square;
    var a, b := Errors(gt, pred), Errors(gt', pred');
    ErrorsOfParts(gt, pred, gt', pred');
    CellsParts(a, b);
    match f
    case Mae =>
      assert AbsAll(Cells(a) + Cells(b)) == AbsAll(Cells(a)) + AbsAll(Cells(b));
      SumParts(AbsAll(Cells(a)), AbsAll(Cells(b)));
    case MeanSquare =>
      assert SquareAll(Cells(a) + Cells(b)) == SquareAll(Cells(a)) + SquareAll(Cells(b));
      SumParts(SquareAll(Cells(a)), SquareAll(Cells(b)));
    case JointMae(j) =>
      assert Column(AbsRows(a + b), j) == Column(AbsRows(a), j) + Column(AbsRows(b), j);
      SumParts(Column(AbsRows(a), j), Column(AbsRows(b), j));
    case JointMeanSquare(j) =>
      assert Column(SquareRows(a + b), j) == Column(SquareRows(a), j) + Column(SquareRows(b), j);
      SumParts(Column(SquareRows(a), j), Column(SquareRows(b), j));
  }

  lemma {:induction false} TotalIsWeighted(parts: seq<Part>, f: Figure)
    requires f.Valid() && forall i :: 0 <= i < |parts| ==> parts[i].Valid()
    ensures |AllGt(parts)| == |AllPred(parts)| >= |parts|
    ensures f.Total(AllGt(parts), AllPred(parts)) == Weighted(parts, f)
    decreases |parts|
  {
    hide Figure.Of, Figure.Total, Times;
    if parts == [] {
      NoTotal(f);
    } else {
      TotalIsWeighted(parts[1..], f);
      FigureIsMean(parts[0].gt, parts[0].pred, f);
      TotalOfParts(parts[0].gt, parts[0].pred, AllGt(parts[1..]), AllPred(parts[1..]), f);
    }
  }

  lemma NoTotal(f: Figure)
    requires f.Valid()
    ensures f.Total([], []) == 0.0
  {
    assert Errors([], []) == [];
    assert AbsRows([]) == [] && SquareRows([]) == [];
    assert AbsAll([]) == [] && SquareAll([]) == [];
    assert forall j: nat :: Column([], j) == [];
  }

  /** The global figures are the frame-weighted means of the figures of the episodes. */
  lemma GlobalIsWeightedMean(parts: seq<Part>, f: Figure)
    requires parts != [] && f.Valid() && forall i :: 0 <= i < |parts| ==> parts[i].Valid()
    ensures |AllGt(parts)| == |AllPred(parts)| > 0
    ensures Times(|AllGt(parts)|, f.Of(AllGt(parts), AllPred(parts))) == Weighted(parts, f)
  {
    hide Figure.Of, Figure.Total, Times;
    TotalIsWeighted(parts, f);
    FigureIsMean(AllGt(parts), AllPred(parts), f);
  }
}
