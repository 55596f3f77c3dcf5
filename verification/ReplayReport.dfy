/** The summaries of the timed replay (scripts/evaluate_smolvla_rtc_open_loop.py:86, 190-197, 229-244
    and 273-275): which ticks enter them, the tick counters, and the figures over all episodes. */
module ReplayReport {
  import opened Wrappers
  import opened RealSums
  import opened JointErrors
  import opened Clamping
  import opened Pacing
  import opened Replay

  // ---------------------------------------------------------------- picking the available ticks

  /** xs[mask] */
  function Select<T>(mask: seq<bool>, xs: seq<T>): (r: seq<T>)
    requires |mask| == |xs|
    ensures |r| == Count(mask)
  {
    if mask == [] then []
    else (if mask[0] then [xs[0]] else []) + Select(mask[1..], xs[1..])
  }

  function Count(mask: seq<bool>): (n: nat)
    ensures n <= |mask|
  {
    if mask == [] then 0 else (if mask[0] then 1 else 0) + Count(mask[1..])
  }

  /** Index of the first available tick. */
  function FirstTrue(mask: seq<bool>): (f: nat)
    requires exists i :: 0 <= i < |mask| && mask[i]
    ensures f < |mask| && mask[f] && forall i :: 0 <= i < f ==> !mask[i]
  {
    if mask[0] then 0
    else
      assert exists i :: 0 <= i < |mask[1..]| && mask[1..][i] by {
        var i :| 0 <= i < |mask| && mask[i];
        assert mask[1..][i - 1];
      }
      1 + FirstTrue(mask[1..])
  }

  function Negate(mask: seq<bool>): seq<bool> {
    seq(|mask|, i requires 0 <= i < |mask| => !mask[i])
  }

  lemma {:induction false} CountOfParts(a: seq<bool>, b: seq<bool>)
    ensures Count(a + b) == Count(a) + Count(b)
  {
    if a == [] {
      assert a + b == b;
    } else {
      assert (a + b)[1..] == a[1..] + b;
      CountOfParts(a[1..], b);
    }
  }

  lemma {:induction false} CountNegated(mask: seq<bool>)
    ensures Count(mask) + Count(Negate(mask)) == |mask|
  {
    if mask == [] {
    } else {
      assert Negate(mask)[1..] == Negate(mask[1..]);
      CountNegated(mask[1..]);
    }
  }

  lemma {:induction false} CountNone(mask: seq<bool>)
    requires forall i :: 0 <= i < |mask| ==> !mask[i]
    ensures Count(mask) == 0
  {
    if mask == [] {
    } else {
      CountNone(mask[1..]);
    }
  }

  /** The picked ticks keep their order: tick f is found behind as many as were available before it. */
  lemma {:induction false} SelectAt<T>(mask: seq<bool>, xs: seq<T>, f: nat)
    requires |mask| == |xs| && f < |mask| && mask[f]
    ensures Count(mask[..f]) < |Select(mask, xs)| && Select(mask, xs)[Count(mask[..f])] == xs[f]
    decreases f
  {
    if f == 0 {
    } else {
      SelectAt(mask[1..], xs[1..], f - 1);
      assert mask[..f][1..] == mask[1..][..f - 1];
    }
  }

  // ---------------------------------------------------------------- one episode

  const TOLERANCE: real := 0.0001

  function States(samples: seq<Sample>): (r: seq<Joints>)
    ensures |r| == |samples|
  {
    seq(|samples|, i requires 0 <= i < |samples| => samples[i].state)
  }

  function Truths(samples: seq<Sample>): (r: seq<Joints>)
    ensures |r| == |samples|
  {
    seq(|samples|, i requires 0 <= i < |samples| => samples[i].gt)
  }

  /** Some joint of the command is farther than the tolerance from the prediction. */
  predicate Moved(pred: Joints, safe: Joints) {
    exists j :: 0 <= j < JOINTS && Abs(safe[j] - pred[j]) > TOLERANCE
  }

  function MovedMask(preds: seq<Joints>, safes: seq<Joints>): seq<bool>
    requires |preds| == |safes|
  {
    seq(|preds|, i requires 0 <= i < |preds| => Moved(preds[i], safes[i]))
  }

  datatype EpisodeSummary = EpisodeSummary(
    frames: nat, predictedFrames: nat, startupWait: nat, emptyAfterStart: nat, elapsed: real, replayFps: real,
    scores: Scores, afterClamp: Scores, clampedFrames: nat)

  /** A finished replay: lists of one length, with an available tick. */
  ghost predicate Complete(feed: Feed, t: Trace) {
    && |t.preds| == |t.safes| == |t.available| == |feed.samples|
    && (exists i :: 0 <= i < |t.available| && t.available[i])
  }

  function PartOf(feed: Feed, t: Trace): Part
    requires |t.preds| == |t.available| == |feed.samples|
  {
    Part(Select(t.available, Truths(feed.samples)), Select(t.available, t.preds))
  }

  function SafePartOf(feed: Feed, t: Trace): Part
    requires |t.safes| == |t.available| == |feed.samples|
  {
    Part(Select(t.available, Truths(feed.samples)), Select(t.available, t.safes))
  }

  lemma SomePredicted(mask: seq<bool>)
    requires exists i :: 0 <= i < |mask| && mask[i]
    ensures Count(mask) > 0
  {
    if mask[0] {
    } else {
      var i :| 0 <= i < |mask| && mask[i];
      assert mask[1..][i - 1];
      SomePredicted(mask[1..]);
    }
  }

  function Summarize(feed: Feed, t: Trace): EpisodeSummary
    requires Complete(feed, t) && t.elapsed != 0.0
  {
    SomePredicted(t.available);
    var part, safe := PartOf(feed, t), SafePartOf(feed, t);
    var first := FirstTrue(t.available);
    EpisodeSummary(|feed.samples|, Count(t.available), first, Count(Negate(t.available[first..])),
                   t.elapsed, |feed.samples| as real / t.elapsed,
                   Score(part.gt, part.pred), Score(safe.gt, safe.pred),
                   Count(MovedMask(part.pred, safe.pred)))
  }

  /** Every tick is counted once: as a startup wait, as predicted, or as empty after the start. */
  lemma TicksAreConserved(feed: Feed, t: Trace)
    requires Complete(feed, t) && t.elapsed != 0.0
    ensures var s := Summarize(feed, t); s.startupWait + s.predictedFrames + s.emptyAfterStart == s.frames
  {
    var first := FirstTrue(t.available);
    assert t.available == t.available[..first] + t.available[first..];
    CountOfParts(t.available[..first], t.available[first..]);
    CountNone(t.available[..first]);
    CountNegated(t.available[first..]);
  }

  /** The ticks at which the prediction is available and leaves the box by more than the tolerance.
      Under a negative limit the box is the one command that is given whatever was predicted. */
  function OutsideMask(feed: Feed, limit: real, t: Trace): seq<bool>
    requires |t.preds| == |t.available| == |feed.samples|
  {
    seq(|t.preds|, f requires 0 <= f < |t.preds| =>
      t.available[f] && !InBox(Center(feed.samples[f].state, limit), t.preds[f], Radius(limit) + TOLERANCE))
  }

  lemma {:induction false} CountPicked(mask: seq<bool>, xs: seq<bool>, both: seq<bool>)
    requires |mask| == |xs| == |both| && forall i :: 0 <= i < |mask| ==> both[i] == (mask[i] && xs[i])
    ensures Count(Select(mask, xs)) == Count(both)
  {
    if mask == [] {
    } else {
      CountPicked(mask[1..], xs[1..], both[1..]);
      var head := if mask[0] then [xs[0]] else [];
      CountOfParts(head, Select(mask[1..], xs[1..]));
      assert head != [] ==> head[1..] == [];
    }
  }

  lemma {:induction false} SelectMoved(mask: seq<bool>, preds: seq<Joints>, safes: seq<Joints>)
    requires |mask| == |preds| == |safes|
    ensures MovedMask(Select(mask, preds), Select(mask, safes)) == Select(mask, MovedMask(preds, safes))
  {
    hide Moved;
    if mask == [] {
    } else {
      SelectMoved(mask[1..], preds[1..], safes[1..]);
      assert MovedMask(preds, safes)[1..] == MovedMask(preds[1..], safes[1..]);
    }
  }

  /** clamped_frames counts the available ticks whose prediction leaves the box around the recorded
      state by more than the tolerance. */
  lemma ClampedFramesAreOutsiders(feed: Feed, sync: bool, fps: real, limit: real, t: Trace)
    requires feed.Valid() && fps > 0.0
    requires IsTrace(feed, sync, fps, limit, t) && Complete(feed, t) && t.elapsed != 0.0
    ensures Summarize(feed, t).clampedFrames == Count(OutsideMask(feed, limit, t))
  {
    hide Pace, LineOf, InBox, Clamp, Center, Radius, Score, Holds, Moved;
    SelectMoved(t.available, t.preds, t.safes);
    forall f | 0 <= f < |t.preds|
      ensures OutsideMask(feed, limit, t)[f] == (t.available[f] && MovedMask(t.preds, t.safes)[f])
    {
      assert TickIs(feed, limit, t, f);
      MovedIsOutside(feed.samples[f].state, t.preds[f], limit);
    }
    CountPicked(t.available, MovedMask(t.preds, t.safes), OutsideMask(feed, limit, t));
  }

  lemma MovedIsOutside(state: Joints, pred: Joints, limit: real)
    ensures Moved(pred, Clamp(state, pred, limit)) <==> !InBox(Center(state, limit), pred, Radius(limit) + TOLERANCE)
  {
    ClampMovesOutsiders(state, pred, limit, TOLERANCE);
  }

  lemma {:induction false} SelectClamped(mask: seq<bool>, states: seq<Joints>, preds: seq<Joints>, safes: seq<Joints>,
                                         limit: real)
    requires |mask| == |states| == |preds| == |safes|
    requires forall f :: 0 <= f < |mask| && mask[f] ==> safes[f] == Clamp(states[f], preds[f], limit)
    ensures Select(mask, safes) == ClampAll(Select(mask, states), Select(mask, preds), limit)
  {
    hide Clamp;
    if mask == [] {
    } else {
      SelectClamped(mask[1..], states[1..], preds[1..], safes[1..], limit);
    }
  }

  lemma {:induction false} SelectInBox(mask: seq<bool>, states: seq<Joints>, gts: seq<Joints>, limit: real)
    requires |mask| == |states| == |gts|
    requires forall f :: 0 <= f < |mask| && mask[f] ==> InBox(states[f], gts[f], limit)
    ensures forall i :: 0 <= i < Count(mask) ==> InBox(Select(mask, states)[i], Select(mask, gts)[i], limit)
  {
    hide InBox;
    if mask == [] {
    } else {
      SelectInBox(mask[1..], states[1..], gts[1..], limit);
    }
  }

  /** Every available tick has its recorded truth within reach of its recorded state. */
  ghost predicate Reachable(feed: Feed, limit: real, t: Trace)
    requires |t.available| == |feed.samples|
  {
    forall f :: 0 <= f < |t.available| && t.available[f] ==> InBox(feed.samples[f].state, feed.samples[f].gt, limit)
  }

  /** The commands of the picked ticks are their clamped predictions, around reachable truths. */
  lemma PickedAreClamped(feed: Feed, sync: bool, fps: real, limit: real, t: Trace)
    requires feed.Valid() && fps > 0.0 && IsTrace(feed, sync, fps, limit, t) && Complete(feed, t)
    requires Reachable(feed, limit, t)
    ensures var states := Select(t.available, States(feed.samples));
            && SafePartOf(feed, t).pred == ClampAll(states, PartOf(feed, t).pred, limit)
            && forall i :: 0 <= i < Count(t.available) ==> InBox(states[i], PartOf(feed, t).gt[i], limit)
  {
    hide Pace, LineOf, InBox, Clamp, Holds;
    forall f | 0 <= f < |t.available| && t.available[f]
      ensures t.safes[f] == Clamp(States(feed.samples)[f], t.preds[f], limit)
      ensures InBox(States(feed.samples)[f], Truths(feed.samples)[f], limit)
    {
      assert TickIs(feed, limit, t, f);
    }
    SelectClamped(t.available, States(feed.samples), t.preds, t.safes, limit);
    SelectInBox(t.available, States(feed.samples), Truths(feed.samples), limit);
  }

  ghost predicate NoWorse(a: Scores, b: Scores) {
    a.mae <= b.mae && a.meanSquare <= b.meanSquare && AtMost(a.perJoint, b.perJoint)
  }

  /** In an episode with reachable truths the clamp makes no figure worse. */
  lemma EpisodeClampNeverHurts(feed: Feed, sync: bool, fps: real, limit: real, t: Trace)
    requires feed.Valid() && fps > 0.0 && IsTrace(feed, sync, fps, limit, t) && Complete(feed, t)
    requires Reachable(feed, limit, t) && t.elapsed != 0.0
    ensures NoWorse(Summarize(feed, t).afterClamp, Summarize(feed, t).scores)
    ensures PartOf(feed, t).Valid() && SafePartOf(feed, t).Valid()
    ensures AtMost(JointMeanSquares(SafePartOf(feed, t).gt, SafePartOf(feed, t).pred),
                   JointMeanSquares(PartOf(feed, t).gt, PartOf(feed, t).pred))
  {
    hide JointMeanSquares, Pace, Score, Records, InBox, Clamp;
    SomePredicted(t.available);
    PickedAreClamped(feed, sync, fps, limit, t);
    ClampNeverHurts(Select(t.available, States(feed.samples)), PartOf(feed, t).gt, PartOf(feed, t).pred, limit);
  }

  // ---------------------------------------------------------------- all episodes

  datatype Report = Report(summaries: seq<EpisodeSummary>, gt: seq<Joints>, pred: seq<Joints>, safe: seq<Joints>,
                           scores: Scores, afterClamp: Scores)

  predicate Aligned(feeds: seq<Feed>, ts: seq<Trace>) {
    && |ts| == |feeds|
    && forall e :: 0 <= e < |feeds| ==> |ts[e].preds| == |ts[e].safes| == |ts[e].available| == |feeds[e].samples|
  }

  /** The traces belong to the feeds, each complete. */
  ghost predicate AreTraces(feeds: seq<Feed>, sync: bool, fps: real, limit: real, ts: seq<Trace>)
    requires fps > 0.0
  {
    && Aligned(feeds, ts)
    && (forall e :: 0 <= e < |feeds| ==> && feeds[e].Valid()
                                         && IsTrace(feeds[e], sync, fps, limit, ts[e])
                                         && Complete(feeds[e], ts[e])
                                         && ts[e].elapsed > 0.0)
  }

  function Parts(feeds: seq<Feed>, ts: seq<Trace>): seq<Part>
    requires Aligned(feeds, ts)
  {
    seq(|feeds|, e requires 0 <= e < |feeds| => PartOf(feeds[e], ts[e]))
  }

  function SafeParts(feeds: seq<Feed>, ts: seq<Trace>): seq<Part>
    requires Aligned(feeds, ts)
  {
    seq(|feeds|, e requires 0 <= e < |feeds| => SafePartOf(feeds[e], ts[e]))
  }

  lemma ElapsedIsPositive(feed: Feed, sync: bool, fps: real, limit: real, t: Trace)
    requires feed.Valid() && fps > 0.0 && IsTrace(feed, sync, fps, limit, t) && feed.samples != []
    ensures t.elapsed > 0.0 && |feed.samples| as real / t.elapsed <= fps
  {
    hide Pace, Records;
    ReplayRateIsBounded(sync, fps, feed.lead, feed.ticks, t.elapsed);
  }

  /** The lists gathered over the episodes: their available ticks in order, aligned, none left out. */
  ghost predicate Gathered(feeds: seq<Feed>, sync: bool, fps: real, limit: real, ts: seq<Trace>,
                           gt: seq<Joints>, pred: seq<Joints>, safe: seq<Joints>)
    requires fps > 0.0
  {
    && AreTraces(feeds, sync, fps, limit, ts)
    && gt == AllGt(Parts(feeds, ts)) == AllGt(SafeParts(feeds, ts))
    && pred == AllPred(Parts(feeds, ts))
    && safe == AllPred(SafeParts(feeds, ts))
    && |feeds| <= |gt| == |pred| == |safe|
  }

  lemma GatheredSome(feeds: seq<Feed>, sync: bool, fps: real, limit: real, ts: seq<Trace>,
                     gt: seq<Joints>, pred: seq<Joints>, safe: seq<Joints>)
    requires fps > 0.0 && feeds != [] && Gathered(feeds, sync, fps, limit, ts, gt, pred, safe)
    ensures |gt| == |pred| == |safe| > 0
  {
  }

  lemma NothingGathered(sync: bool, fps: real, limit: real)
    requires fps > 0.0
    ensures Gathered([], sync, fps, limit, [], [], [], [])
  {
  }

  lemma TraceLengths(feed: Feed, t: Trace)
    requires Complete(feed, t)
    ensures |t.preds| == |t.safes| == |t.available| == |feed.samples|
    ensures Count(t.available) > 0
    ensures PartOf(feed, t).Valid() && SafePartOf(feed, t).Valid()
  {
    SomePredicted(t.available);
  }

  lemma GatherMore(feeds: seq<Feed>, sync: bool, fps: real, limit: real, ts: seq<Trace>,
                   gt: seq<Joints>, pred: seq<Joints>, safe: seq<Joints>, feed: Feed, t: Trace)
    requires fps > 0.0 && Gathered(feeds, sync, fps, limit, ts, gt, pred, safe)
    requires feed.Valid() && IsTrace(feed, sync, fps, limit, t) && Complete(feed, t) && t.elapsed > 0.0
    ensures Gathered(feeds + [feed], sync, fps, limit, ts + [t],
                     gt + Select(t.available, Truths(feed.samples)),
                     pred + Select(t.available, t.preds),
                     safe + Select(t.available, t.safes))
  {
    hide IsTrace, Truths, AllGt, AllPred, Select, Count, Feed.Valid, Complete;
    TraceLengths(feed, t);
    var fs, us := feeds + [feed], ts + [t];
    AllOfMore(Parts(feeds, ts), PartOf(feed, t));
    AllOfMore(SafeParts(feeds, ts), SafePartOf(feed, t));
    MoreTraces(feeds, sync, fps, limit, ts, feed, t);
    assert Parts(fs, us) == Parts(feeds, ts) + [PartOf(feed, t)];
    assert SafeParts(fs, us) == SafeParts(feeds, ts) + [SafePartOf(feed, t)];
  }

  lemma MoreTraces(feeds: seq<Feed>, sync: bool, fps: real, limit: real, ts: seq<Trace>, feed: Feed, t: Trace)
    requires fps > 0.0 && AreTraces(feeds, sync, fps, limit, ts)
    requires feed.Valid() && IsTrace(feed, sync, fps, limit, t) && Complete(feed, t) && t.elapsed > 0.0
    ensures AreTraces(feeds + [feed], sync, fps, limit, ts + [t])
  {
    hide IsTrace, Feed.Valid, Complete;
    TraceLengths(feed, t);
    var fs, us := feeds + [feed], ts + [t];
    forall e | 0 <= e < |fs|
      ensures fs[e].Valid() && IsTrace(fs[e], sync, fps, limit, us[e]) && Complete(fs[e], us[e]) && us[e].elapsed > 0.0
    {
      assert e < |feeds| ==> fs[e] == feeds[e] && us[e] == ts[e];
    }
  }

  /** The report of finished replays. */
  ghost predicate Reports(feeds: seq<Feed>, sync: bool, fps: real, limit: real, ts: seq<Trace>, report: Report)
    requires fps > 0.0 && feeds != []
  {
    && Gathered(feeds, sync, fps, limit, ts, report.gt, report.pred, report.safe)
    && report.scores == Score(report.gt, report.pred)
    && report.afterClamp == Score(report.gt, report.safe)
    && |report.summaries| == |feeds|
    && forall e :: 0 <= e < |feeds| ==> report.summaries[e] == Summarize(feeds[e], ts[e])
  }

  /** The episodes in order, their summaries, and the lists and figures over all of them. */
  method EvaluateReplays(feeds: seq<Feed>, sync: bool, fps: real, limit: real)
    returns (r: Result<Report, Error>, ts: seq<Trace>)
    requires feeds != [] && fps > 0.0 && forall e :: 0 <= e < |feeds| ==> feeds[e].Valid()
    // The first episode that fails ends the evaluation with its error.
    ensures r.Failure? ==> |ts| < |feeds| && Fault(feeds[|ts|]) == Some(r.error)
                           && forall e :: 0 <= e < |ts| ==> Fault(feeds[e]) == None
    ensures r.Success? ==> Reports(feeds, sync, fps, limit, ts, r.value)
  {
    hide IsTrace, Score, Summarize, Fault, Select, Truths, Gathered, Feed.Valid;
    var summaries: seq<EpisodeSummary>, gt: seq<Joints>, pred: seq<Joints>, safe: seq<Joints> := [], [], [], [];
    ts := [];
    NothingGathered(sync, fps, limit);
    for e := 0 to |feeds|
      invariant |ts| == |summaries| == e
      invariant forall i :: 0 <= i < e ==> Fault(feeds[i]) == None
      invariant Gathered(feeds[..e], sync, fps, limit, ts, gt, pred, safe)
      invariant forall i :: 0 <= i < e ==> Complete(feeds[i], ts[i]) && ts[i].elapsed != 0.0
      invariant forall i :: 0 <= i < e ==> summaries[i] == Summarize(feeds[i], ts[i])
    {
      var feed := feeds[e];
      var replay := ReplayEpisode(feed, sync, fps, limit);
      if replay.Failure? {
        return Failure(replay.error), ts;
      }
      var t := replay.value;
      TraceIsComplete(feed, sync, fps, limit, t);
      GatherMore(feeds[..e], sync, fps, limit, ts, gt, pred, safe, feed, t);
      assert feeds[..e + 1] == feeds[..e] + [feed];
      summaries := summaries + [Summarize(feed, t)];
      gt := gt + Select(t.available, Truths(feed.samples));
      pred := pred + Select(t.available, t.preds);
      safe := safe + Select(t.available, t.safes);
      ts := ts + [t];
    }
    assert feeds[..|feeds|] == feeds;
    GatheredSome(feeds, sync, fps, limit, ts, gt, pred, safe);
    r := Success(Report(summaries, gt, pred, safe, Score(gt, pred), Score(gt, safe)));
  }

  // ---------------------------------------------------------------- laws of the report

  /** Every figure of the report is the frame-weighted mean of the figures of the episodes. */
  lemma ReportRecombines(feeds: seq<Feed>, sync: bool, fps: real, limit: real, ts: seq<Trace>,
                         gt: seq<Joints>, pred: seq<Joints>, safe: seq<Joints>, f: Figure)
    requires fps > 0.0 && feeds != [] && Gathered(feeds, sync, fps, limit, ts, gt, pred, safe) && f.Valid()
    ensures forall e :: 0 <= e < |feeds| ==> Parts(feeds, ts)[e].Valid() && SafeParts(feeds, ts)[e].Valid()
    ensures Times(|gt|, f.Of(gt, pred)) == Weighted(Parts(feeds, ts), f)
    ensures Times(|gt|, f.Of(gt, safe)) == Weighted(SafeParts(feeds, ts), f)
  {
    hide IsTrace, Figure.Of, Weighted, AllGt, AllPred, Complete;
    forall e | 0 <= e < |feeds|
      ensures Parts(feeds, ts)[e].Valid() && SafeParts(feeds, ts)[e].Valid()
    {
      TraceLengths(feeds[e], ts[e]);
    }
    GlobalIsWeightedMean(Parts(feeds, ts), f);
    GlobalIsWeightedMean(SafeParts(feeds, ts), f);
  }

  lemma {:induction false} WeightedAtMost(a: seq<Part>, b: seq<Part>, f: Figure)
    requires f.Valid() && |a| == |b|
    requires forall e :: 0 <= e < |a| ==>
               a[e].Valid() && b[e].Valid() && |a[e].gt| == |b[e].gt|
               && f.Of(a[e].gt, a[e].pred) <= f.Of(b[e].gt, b[e].pred)
    ensures Weighted(a, f) <= Weighted(b, f)
  {
    hide Figure.Of, Times;
    if a == [] {
    } else {
      WeightedAtMost(a[1..], b[1..], f);
      assert a[0].Valid() && b[0].Valid();
      TimesAtMost(|a[0].gt|, f.Of(a[0].gt, a[0].pred), f.Of(b[0].gt, b[0].pred));
    }
  }

  lemma TimesAtMost(n: nat, x: real, y: real)
    ensures x <= y ==> Times(n, x) <= Times(n, y)
    ensures n > 0 && Times(n, x) <= Times(n, y) ==> x <= y
  {
  }

  /** With reachable truths in every episode, the clamp makes no figure of the report worse. */
  lemma ReportClampNeverHurts(feeds: seq<Feed>, sync: bool, fps: real, limit: real, ts: seq<Trace>,
                              gt: seq<Joints>, pred: seq<Joints>, safe: seq<Joints>, f: Figure)
    requires fps > 0.0 && feeds != [] && Gathered(feeds, sync, fps, limit, ts, gt, pred, safe) && f.Valid()
    requires forall e :: 0 <= e < |feeds| ==> Reachable(feeds[e], limit, ts[e])
    ensures f.Of(gt, safe) <= f.Of(gt, pred)
  {
    hide IsTrace, Reachable, Weighted, Score, Figure.Of, Times, Select, AllGt, AllPred;
    ReportRecombines(feeds, sync, fps, limit, ts, gt, pred, safe, f);
    var parts, safes := Parts(feeds, ts), SafeParts(feeds, ts);
    forall e | 0 <= e < |feeds|
      ensures parts[e].Valid() && safes[e].Valid() && |safes[e].gt| == |parts[e].gt|
      ensures f.Of(safes[e].gt, safes[e].pred) <= f.Of(parts[e].gt, parts[e].pred)
    {
      EpisodeFigure(feeds[e], sync, fps, limit, ts[e], f);
    }
    WeightedAtMost(safes, parts, f);
    TimesAtMost(|gt|, f.Of(gt, safe), f.Of(gt, pred));
  }

  lemma EpisodeFigure(feed: Feed, sync: bool, fps: real, limit: real, t: Trace, f: Figure)
    requires feed.Valid() && fps > 0.0 && IsTrace(feed, sync, fps, limit, t) && Complete(feed, t)
    requires Reachable(feed, limit, t) && t.elapsed != 0.0 && f.Valid()
    requires PartOf(feed, t).Valid() && SafePartOf(feed, t).Valid()
    ensures f.Of(SafePartOf(feed, t).gt, SafePartOf(feed, t).pred) <= f.Of(PartOf(feed, t).gt, PartOf(feed, t).pred)
  {
    hide IsTrace, Reachable, Score, JointMeanSquares;
    EpisodeClampNeverHurts(feed, sync, fps, limit, t);
  }

  lemma TraceIsComplete(feed: Feed, sync: bool, fps: real, limit: real, t: Trace)
    requires feed.Valid() && fps > 0.0 && IsTrace(feed, sync, fps, limit, t)
    requires exists i :: 0 <= i < |t.available| && t.available[i]
    ensures Complete(feed, t) && t.elapsed > 0.0
  {
    hide Pace, TickIs, LineOf;
    ElapsedIsPositive(feed, sync, fps, limit, t);
  }
}
