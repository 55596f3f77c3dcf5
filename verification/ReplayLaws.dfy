/** What the fields of a replay report say about the ticks
    (scripts/evaluate_smolvla_rtc_open_loop.py:190-197, 229-244 and 273-275). */
module ReplayLaws {
  import opened RealSums
  import opened JointErrors
  import opened Clamping
  import opened Pacing
  import opened Replay
  import opened ReplayReport

  // ---------------------------------------------------------------- counting

  /** The positions at which the mask is set. */
  function Positions(mask: seq<bool>): set<nat> {
    set f: nat | f < |mask| && mask[f]
  }

  lemma {:induction false} CountIsCardinality(mask: seq<bool>)
    ensures Count(mask) == |Positions(mask)|
  {
    if mask == [] {
      assert Positions(mask) == {};
    } else {
      var n := |mask| - 1;
      CountIsCardinality(mask[..n]);
      assert mask == mask[..n] + [mask[n]];
      CountOfParts(mask[..n], [mask[n]]);
      CountOne(mask[n]);
      assert Positions(mask) == if mask[n] then Positions(mask[..n]) + {n} else Positions(mask[..n]);
    }
  }

  lemma CountOne(b: bool)
    ensures Count([b]) == if b then 1 else 0
  {
    assert [b][1..] == [];
  }

  /** The positions from "first" on at which the mask is not set. */
  function GapsFrom(mask: seq<bool>, first: nat): set<nat> {
    set f: nat | first <= f < |mask| && !mask[f]
  }

  lemma {:induction false} CountOfGaps(mask: seq<bool>, first: nat)
    requires first <= |mask|
    ensures Count(Negate(mask[first..])) == |GapsFrom(mask, first)|
    decreases |mask|
  {
    hide Count;
    if |mask| == first {
      CountNone([]);
      assert Negate(mask[first..]) == [];
      assert GapsFrom(mask, first) == {};
    } else {
      var n := |mask| - 1;
      CountOfGaps(mask[..n], first);
      NegateLast(mask, first);
      CountOfParts(Negate(mask[..n][first..]), [!mask[n]]);
      CountOne(!mask[n]);
      assert GapsFrom(mask, first) == if mask[n] then GapsFrom(mask[..n], first) else GapsFrom(mask[..n], first) + {n};
    }
  }

  lemma NegateLast(mask: seq<bool>, first: nat)
    requires first < |mask|
    ensures var n := |mask| - 1; Negate(mask[first..]) == Negate(mask[..n][first..]) + [!mask[n]]
  {
  }

  // ---------------------------------------------------------------- the fields of a summary

  /** startup_wait_frames is the first tick with an action. */
  lemma StartupWaitIs(feed: Feed, t: Trace, k: nat)
    requires Complete(feed, t) && t.elapsed != 0.0
    ensures Summarize(feed, t).startupWait == k <==>
            k < |t.available| && t.available[k] && forall i :: 0 <= i < k ==> !t.available[i]
  {
    hide Score, Select, Moved, Count, Negate, MovedMask, PartOf, SafePartOf;
  }

  /** The other counters are numbers of ticks: all of them, those with an action, and those without one
      from the first one with an action on. */
  lemma SummaryCounts(feed: Feed, t: Trace)
    requires Complete(feed, t) && t.elapsed != 0.0
    ensures var s := Summarize(feed, t);
            && s.frames == |feed.samples|
            && s.predictedFrames == |Positions(t.available)|
            && s.startupWait <= |t.available|
            && s.emptyAfterStart == |GapsFrom(t.available, s.startupWait)|
  {
    hide Score, Select, Moved, Count, Negate, FirstTrue, MovedMask, PartOf, SafePartOf, Positions, GapsFrom;
    CountIsCardinality(t.available);
    CountOfGaps(t.available, FirstTrue(t.available));
  }

  /** The reported rate is the number of frames over the reported time. */
  lemma SummaryTimes(feed: Feed, t: Trace)
    requires Complete(feed, t) && t.elapsed != 0.0
    ensures var s := Summarize(feed, t); s.elapsed == t.elapsed && s.replayFps * s.elapsed == s.frames as real
  {
    hide Score, Select, Moved, Count, Negate, FirstTrue, MovedMask, PartOf, SafePartOf;
    Quotient(|feed.samples| as real, t.elapsed);
  }

  lemma Quotient(x: real, y: real)
    requires y != 0.0
    ensures x / y * y == x
  {
  }

  /** The reported rate of a replay is at most the recording rate. */
  lemma SummaryRate(feed: Feed, sync: bool, fps: real, limit: real, t: Trace)
    requires feed.Valid() && fps > 0.0 && IsTrace(feed, sync, fps, limit, t) && Complete(feed, t)
    ensures t.elapsed > 0.0 && Summarize(feed, t).replayFps <= fps
  {
    hide Score, IsTrace, Select, Moved;
    ElapsedIsPositive(feed, sync, fps, limit, t);
  }

  /** clamped_frames is the number of available ticks at which some joint of the command differs from the
      prediction by more than 0.0001. */
  lemma ClampedTicks(feed: Feed, t: Trace)
    requires Complete(feed, t) && t.elapsed != 0.0
    ensures var ticks := set f: nat | f < |t.available| && t.available[f]
                                      && exists j :: 0 <= j < 6 && Abs(t.safes[f][j] - t.preds[f][j]) > 0.0001;
            Summarize(feed, t).clampedFrames == |ticks|
  {
    hide Score, Moved, Select, Count;
    var both := seq(|t.available|, f requires 0 <= f < |t.available| => t.available[f] && Moved(t.preds[f], t.safes[f]));
    SelectMoved(t.available, t.preds, t.safes);
    CountPicked(t.available, MovedMask(t.preds, t.safes), both);
    CountIsCardinality(both);
    forall f: nat | f < |t.available|
      ensures both[f] <==> t.available[f] && exists j :: 0 <= j < 6 && Abs(t.safes[f][j] - t.preds[f][j]) > 0.0001
    {
      MovedIs(t.preds[f], t.safes[f]);
    }
    assert Positions(both) == set f: nat | f < |t.available| && t.available[f]
                                           && exists j :: 0 <= j < 6 && Abs(t.safes[f][j] - t.preds[f][j]) > 0.0001;
  }

  lemma MovedIs(pred: Joints, safe: Joints)
    ensures Moved(pred, safe) <==> exists j :: 0 <= j < 6 && Abs(safe[j] - pred[j]) > 0.0001
  {
  }

  /** Under a limit that is not negative, these are the available ticks whose prediction is farther than
      the limit and 0.0001 from the recorded state in some joint. */
  lemma OutsideTicks(feed: Feed, sync: bool, fps: real, limit: real, t: Trace)
    requires feed.Valid() && fps > 0.0 && IsTrace(feed, sync, fps, limit, t) && Complete(feed, t) && t.elapsed != 0.0
    requires limit >= 0.0
    ensures var ticks := set f: nat | f < |t.available| && t.available[f]
                                      && exists j :: 0 <= j < 6 && Abs(t.preds[f][j] - feed.samples[f].state[j])
                                                                   > limit + 0.0001;
            Summarize(feed, t).clampedFrames == |ticks|
  {
    hide Score, IsTrace, Clamp, Summarize;
    ClampedFramesAreOutsiders(feed, sync, fps, limit, t);
    CountIsCardinality(OutsideMask(feed, limit, t));
    assert Positions(OutsideMask(feed, limit, t))
        == set f: nat | f < |t.available| && t.available[f]
                        && exists j :: 0 <= j < 6 && Abs(t.preds[f][j] - feed.samples[f].state[j]) > limit + 0.0001;
  }

  // ---------------------------------------------------------------- the figures of the summaries

  /** A figure of the summaries, before or after the clamp, weighted with their predicted frames. */
  function WeightedSummaries(summaries: seq<EpisodeSummary>, f: Figure, clamped: bool): real
    requires f.Valid() && !f.JointMeanSquare?
    requires forall e :: 0 <= e < |summaries| ==>
               |summaries[e].scores.perJoint| == |summaries[e].afterClamp.perJoint| == JOINTS
  {
    if summaries == [] then 0.0
    else
      var s := summaries[0];
      assert |s.scores.perJoint| == |s.afterClamp.perJoint| == JOINTS;
      Times(s.predictedFrames, f.In(if clamped then s.afterClamp else s.scores))
      + WeightedSummaries(summaries[1..], f, clamped)
  }

  /** The summary has the number of frames and the figures of the parts before and after the clamp. */
  ghost predicate Summarizes(s: EpisodeSummary, part: Part, safe: Part) {
    && part.Valid() && safe.Valid()
    && s.predictedFrames == |part.gt| == |safe.gt|
    && s.scores == Score(part.gt, part.pred)
    && s.afterClamp == Score(safe.gt, safe.pred)
  }

  lemma SummaryOfParts(feed: Feed, t: Trace)
    requires Complete(feed, t) && t.elapsed != 0.0
    ensures Summarizes(Summarize(feed, t), PartOf(feed, t), SafePartOf(feed, t))
  {
    hide Score;
    SomePredicted(t.available);
  }

  lemma {:induction false} SummariesAreWeighted(summaries: seq<EpisodeSummary>, parts: seq<Part>, safes: seq<Part>,
                                                f: Figure)
    requires |summaries| == |parts| == |safes| && f.Valid() && !f.JointMeanSquare?
    requires forall e :: 0 <= e < |parts| ==> Summarizes(summaries[e], parts[e], safes[e])
    ensures forall e :: 0 <= e < |parts| ==> parts[e].Valid() && safes[e].Valid()
    ensures forall e :: 0 <= e < |summaries| ==>
              |summaries[e].scores.perJoint| == |summaries[e].afterClamp.perJoint| == JOINTS
    ensures WeightedSummaries(summaries, f, false) == Weighted(parts, f)
    ensures WeightedSummaries(summaries, f, true) == Weighted(safes, f)
  {
    hide Score, Times;
    if parts == [] {
    } else {
      forall e | 0 <= e < |parts| - 1
        ensures Summarizes(summaries[1..][e], parts[1..][e], safes[1..][e])
      {
        assert Summarizes(summaries[e + 1], parts[e + 1], safes[e + 1]);
      }
      SummariesAreWeighted(summaries[1..], parts[1..], safes[1..], f);
      assert Summarizes(summaries[0], parts[0], safes[0]);
    }
  }

  /** Every figure of the report is the mean of that figure in the summaries, weighted with their predicted
      frames, before and after the clamp; the predicted frames add up to all frames. */
  lemma SummariesRecombine(feeds: seq<Feed>, sync: bool, fps: real, limit: real, ts: seq<Trace>, report: Report,
                           f: Figure)
    requires fps > 0.0 && feeds != [] && Reports(feeds, sync, fps, limit, ts, report)
    requires f.Valid() && !f.JointMeanSquare?
    ensures forall e :: 0 <= e < |feeds| ==>
              |report.summaries[e].scores.perJoint| == |report.summaries[e].afterClamp.perJoint| == JOINTS
    ensures |report.scores.perJoint| == |report.afterClamp.perJoint| == JOINTS
    ensures Times(|report.gt|, f.In(report.scores)) == WeightedSummaries(report.summaries, f, false)
    ensures Times(|report.gt|, f.In(report.afterClamp)) == WeightedSummaries(report.summaries, f, true)
  {
    hide Score, Times, Summarizes, Weighted, Summarize, IsTrace, PartOf, SafePartOf, AllGt, AllPred;
    forall e | 0 <= e < |feeds|
      ensures Summarizes(report.summaries[e], Parts(feeds, ts)[e], SafeParts(feeds, ts)[e])
    {
      SummaryOfParts(feeds[e], ts[e]);
    }
    SummariesAreWeighted(report.summaries, Parts(feeds, ts), SafeParts(feeds, ts), f);
    ReportRecombines(feeds, sync, fps, limit, ts, report.gt, report.pred, report.safe, f);
  }

  // ---------------------------------------------------------------- the shared lists

  /** How many available ticks the first e episodes have. */
  function TicksBefore(ts: seq<Trace>, e: nat): nat
    requires e <= |ts|
  {
    if e == 0 then 0 else TicksBefore(ts, e - 1) + |Positions(ts[e - 1].available)|
  }

  function FramesBefore(parts: seq<Part>, e: nat): nat
    requires e <= |parts|
  {
    if e == 0 then 0 else FramesBefore(parts, e - 1) + |parts[e - 1].gt|
  }

  lemma {:induction false} FramesOfRest(parts: seq<Part>, e: nat)
    requires 0 < e <= |parts|
    ensures FramesBefore(parts, e) == |parts[0].gt| + FramesBefore(parts[1..], e - 1)
  {
    if e == 1 {
      assert FramesBefore(parts, 0) == 0;
    } else {
      FramesOfRest(parts, e - 1);
    }
  }

  lemma {:induction false} AllAt(parts: seq<Part>, e: nat, i: nat)
    requires forall h :: 0 <= h < |parts| ==> parts[h].Valid()
    requires e < |parts| && i < |parts[e].gt|
    ensures var p := FramesBefore(parts, e) + i;
            && parts[e].Valid()
            && p < |AllGt(parts)| == |AllPred(parts)|
            && AllGt(parts)[p] == parts[e].gt[i]
            && AllPred(parts)[p] == parts[e].pred[i]
    decreases |parts|
  {
    var rest := parts[1..];
    if e == 0 {
      TotalIsWeighted(rest, Mae);
      assert parts[0].Valid();
    } else {
      FramesOfRest(parts, e);
      AllAt(rest, e - 1, i);
      assert parts[0].Valid();
    }
  }

  lemma {:induction false} FramesAreTicks(feeds: seq<Feed>, ts: seq<Trace>, e: nat)
    requires Aligned(feeds, ts) && e <= |ts|
    ensures FramesBefore(Parts(feeds, ts), e) == TicksBefore(ts, e)
    ensures FramesBefore(SafeParts(feeds, ts), e) == TicksBefore(ts, e)
    decreases e
  {
    hide Select, Count, Truths, Positions;
    if e == 0 {
    } else {
      FramesAreTicks(feeds, ts, e - 1);
      CountIsCardinality(ts[e - 1].available);
    }
  }

  /** An available tick stands in the shared lists behind exactly the available ticks before it, with its
      recorded truth, the prediction of the engine, and that prediction clamped around its state. */
  lemma TickInReport(feeds: seq<Feed>, sync: bool, fps: real, limit: real, ts: seq<Trace>, report: Report,
                     e: nat, f: nat)
    requires fps > 0.0 && feeds != [] && Reports(feeds, sync, fps, limit, ts, report)
    requires e < |feeds| && f < |ts[e].available| && ts[e].available[f]
    ensures |ts[e].available| == |feeds[e].samples| == |feeds[e].replies| && feeds[e].replies[f].Action?
    ensures var p := TicksBefore(ts, e) + |set i: nat | i < f && ts[e].available[i]|;
            && p < |report.gt| == |report.pred| == |report.safe|
            && report.gt[p] == feeds[e].samples[f].gt
            && report.pred[p] == feeds[e].replies[f].pred
            && report.safe[p] == Clamp(feeds[e].samples[f].state, feeds[e].replies[f].pred, limit)
  {
    hide Select, Score, Summarize, AllGt, AllPred, LineOf, Pace, Clamp, Holds, FramesBefore, TicksBefore;
    var feed, t := feeds[e], ts[e];
    assert TickIs(feed, limit, t, f);
    var i := Count(t.available[..f]);
    CountIsCardinality(t.available[..f]);
    assert Positions(t.available[..f]) == set i: nat | i < f && t.available[i];
    SelectAt(t.available, Truths(feed.samples), f);
    SelectAt(t.available, t.preds, f);
    SelectAt(t.available, t.safes, f);
    FramesAreTicks(feeds, ts, e);
    PartsAreValid(feeds, sync, fps, limit, ts);
    AllAt(Parts(feeds, ts), e, i);
    AllAt(SafeParts(feeds, ts), e, i);
  }

  lemma PartsAreValid(feeds: seq<Feed>, sync: bool, fps: real, limit: real, ts: seq<Trace>)
    requires fps > 0.0 && AreTraces(feeds, sync, fps, limit, ts)
    ensures forall e :: 0 <= e < |feeds| ==> Parts(feeds, ts)[e].Valid() && SafeParts(feeds, ts)[e].Valid()
  {
    hide IsTrace, PartOf, SafePartOf;
    forall e | 0 <= e < |feeds|
      ensures Parts(feeds, ts)[e].Valid() && SafeParts(feeds, ts)[e].Valid()
    {
      TraceLengths(feeds[e], ts[e]);
    }
  }

  /** And the lists hold nothing else. */
  lemma AllTicksInReport(feeds: seq<Feed>, sync: bool, fps: real, limit: real, ts: seq<Trace>, report: Report)
    requires fps > 0.0 && feeds != [] && Reports(feeds, sync, fps, limit, ts, report)
    ensures |report.gt| == TicksBefore(ts, |feeds|)
  {
    hide IsTrace, Summarize, Score, PartOf, SafePartOf, TicksBefore, FramesBefore;
    FramesAreTicks(feeds, ts, |feeds|);
    AllFrames(Parts(feeds, ts));
  }

  lemma {:induction false} AllFrames(parts: seq<Part>)
    ensures |AllGt(parts)| == FramesBefore(parts, |parts|)
  {
    if parts == [] {
    } else {
      FramesOfRest(parts, |parts|);
      AllFrames(parts[1..]);
    }
  }
}
