/** The safety clamp around the recorded state (scripts/evaluate_smolvla_rtc_open_loop.py:152 and
    239). */
module Clamping {
  import opened RealSums
  import opened JointErrors

  /** np.clip: the upper limit wins when the limits cross. */
  function Clip(x: real, lo: real, hi: real): real {
    var above := if x < lo then lo else x;
    if above > hi then hi else above
  }

  function ClampJoint(state: real, pred: real, limit: real): real {
    state + Clip(pred - state, -limit, limit)
  }

  function Clamp(state: Joints, pred: Joints, limit: real): Joints {
    seq(JOINTS, j requires 0 <= j < JOINTS => ClampJoint(state[j], pred[j], limit))
  }

  /** Every joint of x is within the limit of the state. */
  predicate InBox(state: Joints, x: Joints, limit: real) {
    forall j :: 0 <= j < JOINTS ==> Abs(x[j] - state[j]) <= limit
  }

  /** The clamped action is in the box exactly when there is a box: a negative limit is not refused,
      and puts every joint outside. */
  lemma ClampIsInBox(state: Joints, pred: Joints, limit: real)
    ensures InBox(state, Clamp(state, pred, limit), limit) <==> limit >= 0.0
  {
    assert Abs(Clamp(state, pred, limit)[0] - state[0]) <= limit <==> limit >= 0.0;
  }

  /** Where commands are clamped to: the box around the state, or, under a negative limit, the one
      command that is the limit away from the state in every joint. */
  function Center(state: Joints, limit: real): Joints {
    if limit >= 0.0 then state else seq(JOINTS, j requires 0 <= j < JOINTS => state[j] + limit)
  }

  function Radius(limit: real): real {
    if limit >= 0.0 then limit else 0.0
  }

  /** A negative limit is not refused: it commands the state plus the limit, whatever was predicted. */
  lemma NegativeLimitIsFixed(state: Joints, pred: Joints, limit: real)
    requires limit < 0.0
    ensures Clamp(state, pred, limit) == Center(state, limit)
    ensures forall j :: 0 <= j < JOINTS ==> Clamp(state, pred, limit)[j] == state[j] + limit
  {
  }

  /** It is the point of the box nearest to the prediction, in every joint. */
  lemma ClampIsNearest(state: Joints, pred: Joints, limit: real, x: Joints, j: nat)
    requires InBox(Center(state, limit), x, Radius(limit)) && j < JOINTS
    ensures InBox(Center(state, limit), Clamp(state, pred, limit), Radius(limit))
    ensures Abs(pred[j] - Clamp(state, pred, limit)[j]) <= Abs(pred[j] - x[j])
    ensures Abs(pred[j] - Clamp(state, pred, limit)[j]) == Abs(pred[j] - x[j]) ==> x[j] == Clamp(state, pred, limit)[j]
  {
    assert Abs(x[j] - Center(state, limit)[j]) <= Radius(limit);
  }

  /** Clamping twice is clamping once, and clamping never moves two predictions apart. */
  lemma ClampIsRetraction(state: Joints, pred: Joints, other: Joints, limit: real)
    ensures Clamp(state, Clamp(state, pred, limit), limit) == Clamp(state, pred, limit)
    ensures forall j :: 0 <= j < JOINTS ==>
              Abs(Clamp(state, pred, limit)[j] - Clamp(state, other, limit)[j]) <= Abs(pred[j] - other[j])
  {
  }

  /** The clamp moves some joint by more than the tolerance exactly when the prediction leaves the box
      by more than the tolerance. */
  lemma ClampMovesOutsiders(state: Joints, pred: Joints, limit: real, tolerance: real)
    requires tolerance >= 0.0
    ensures (exists j :: 0 <= j < JOINTS && Abs(Clamp(state, pred, limit)[j] - pred[j]) > tolerance)
            <==> !InBox(Center(state, limit), pred, Radius(limit) + tolerance)
  {
    hide Clamp, Clip, Center;
    forall j | 0 <= j < JOINTS
      ensures Abs(Clamp(state, pred, limit)[j] - pred[j]) > tolerance
              <==> !(Abs(pred[j] - Center(state, limit)[j]) <= Radius(limit) + tolerance)
    {
      JointMovesOutside(state, pred, limit, tolerance, j);
    }
  }

  lemma JointMovesOutside(state: Joints, pred: Joints, limit: real, tolerance: real, j: nat)
    requires j < JOINTS && tolerance >= 0.0
    ensures Abs(Clamp(state, pred, limit)[j] - pred[j]) > tolerance
            <==> Abs(pred[j] - Center(state, limit)[j]) > Radius(limit) + tolerance
  {
  }

  function ClampAll(states: seq<Joints>, preds: seq<Joints>, limit: real): seq<Joints>
    requires |states| == |preds|
  {
    seq(|states|, i requires 0 <= i < |states| => Clamp(states[i], preds[i], limit))
  }

  /** Clamping never hurts a reachable target: if the truth of every frame is in the box around the
      state of the frame, no figure of the summary grows. */
  lemma ClampNeverHurts(states: seq<Joints>, gt: seq<Joints>, preds: seq<Joints>, limit: real)
    requires |states| == |gt| == |preds| > 0
    requires forall i :: 0 <= i < |gt| ==> InBox(states[i], gt[i], limit)
    ensures var safe := ClampAll(states, preds, limit);
            && Score(gt, safe).mae <= Score(gt, preds).mae
            && Score(gt, safe).meanSquare <= Score(gt, preds).meanSquare
            && AtMost(Score(gt, safe).perJoint, Score(gt, preds).perJoint)
            && AtMost(JointMeanSquares(gt, safe), JointMeanSquares(gt, preds))
  {
    hide Score, JointMeanSquares;
    var safe := ClampAll(states, preds, limit);
    forall i, j | 0 <= i < |gt| && 0 <= j < JOINTS
      ensures Abs(safe[i][j] - gt[i][j]) <= Abs(preds[i][j] - gt[i][j])
    {
      assert InBox(states[i], gt[i], limit);
      assert Abs(gt[i][j] - states[i][j]) <= limit;
    }
    NeverFartherScoresLess(gt, safe, preds);
  }
}
