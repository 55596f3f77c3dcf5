/** Which episodes and frames the open-loop evaluation takes, and how it adds them up
    (scripts/evaluate_smolvla_open_loop_video.py:72-83, 234-237 and 298-462). */
module OpenLoop {
  import opened Wrappers
  import opened RealSums
  import opened JointErrors
  import opened Quotients

  datatype Error =
    | BadStride          // "--stride must be >= 1"
    | NoneSelected       // "No episodes selected"
    | OutOfRange(ids: seq<int>)
    | BadShape           // "Expected 6 action values"
    | NothingEvaluated   // the figures of no frames cannot be taken

  // ---------------------------------------------------------------- episodes

  function Range(first: int, stop: int, step: nat): seq<int>
    requires step > 0
    decreases stop - first
  {
    if first >= stop then [] else [first] + Range(first + step, stop, step)
  }

  function Invalid(ids: seq<int>, total: nat): seq<int> {
    if ids == [] then []
    else (if 0 <= ids[0] < total then [] else [ids[0]]) + Invalid(ids[1..], total)
  }

  /** The listed episodes, or the last part of them when no list is given. */
  function SelectedIds(total: nat, split: real, listed: Option<seq<int>>): Result<seq<int>, Error> {
    var first := (total as real * (1.0 - split)).Floor;
    var ids := match listed
               case Some(ids) => ids
               case None => Range(if first < 0 then 0 else first, total, 1);
    if ids == [] then Failure(NoneSelected)
    else if Invalid(ids, total) != [] then Failure(OutOfRange(Invalid(ids, total)))
    else Success(ids)
  }

  function Ceiling(x: real): int {
    -((-x).Floor)
  }

  lemma {:induction false} InvalidOf(ids: seq<int>, total: nat)
    ensures Invalid(ids, total) == [] <==> forall i :: 0 <= i < |ids| ==> 0 <= ids[i] < total
    ensures forall id :: id in Invalid(ids, total) <==> id in ids && !(0 <= id < total)
  {
    if ids == [] {
    } else {
      InvalidOf(ids[1..], total);
      assert forall id :: id in ids <==> id == ids[0] || id in ids[1..];
      assert ids[0] == ids[..][0];
      if forall i :: 0 <= i < |ids| ==> 0 <= ids[i] < total {
        forall i | 0 <= i < |ids[1..]|
          ensures 0 <= ids[1..][i] < total
        {
          assert ids[1..][i] == ids[i + 1];
        }
      }
    }
  }

  lemma {:induction false} RangeByOne(first: int, stop: int)
    requires first <= stop
    ensures |Range(first, stop, 1)| == stop - first
    ensures forall i :: 0 <= i < stop - first ==> Range(first, stop, 1)[i] == first + i
    decreases stop - first
  {
    if first >= stop {
    } else {
      RangeByOne(first + 1, stop);
    }
  }

  lemma SuffixSize(total: nat, split: real)
    requires total > 0 && 0.0 < split <= 1.0
    ensures 1 <= Ceiling(total as real * split) <= total
    ensures (total as real * (1.0 - split)).Floor == total - Ceiling(total as real * split)
  {
    var part := total as real * split;
    assert total as real * (1.0 - split) == total as real - part;
    assert part > 0.0;
    assert part <= total as real;
    FloorOfRest(total, part);
  }

  lemma FloorOfRest(total: nat, part: real)
    ensures (total as real - part).Floor == total - Ceiling(part)
  {
    var c := Ceiling(part);
    assert (total - c) as real == total as real - c as real;
  }

  /** Without a list, exactly the last ceil(total*split) episodes are selected: at least one. */
  lemma DefaultIsSuffix(total: nat, split: real)
    requires total > 0 && 0.0 < split <= 1.0
    ensures var n := Ceiling(total as real * split);
            var ids := Range(total - n, total, 1);
            && 1 <= n <= total
            && SelectedIds(total, split, None) == Success(ids)
            && |ids| == n
            && forall i :: 0 <= i < n ==> ids[i] == total - n + i
  {
    hide Ceiling;
    SuffixSize(total, split);
    var n := Ceiling(total as real * split);
    RangeByOne(total - n, total);
    InvalidOf(Range(total - n, total, 1), total);
  }

  /** A list is taken as it is exactly when it is not empty and all its episodes exist. */
  lemma ListedIsTaken(total: nat, split: real, ids: seq<int>)
    ensures SelectedIds(total, split, Some(ids)) == Success(ids)
            <==> ids != [] && forall i :: 0 <= i < |ids| ==> 0 <= ids[i] < total
    ensures ids != [] && SelectedIds(total, split, Some(ids)).Failure? ==>
              exists bad :: SelectedIds(total, split, Some(ids)) == Failure(OutOfRange(bad))
                            && forall id :: id in bad <==> id in ids && !(0 <= id < total)
    ensures ids == [] ==> SelectedIds(total, split, Some(ids)) == Failure(NoneSelected)
    ensures total == 0 && 0.0 < split <= 1.0 ==> SelectedIds(total, split, None) == Failure(NoneSelected)
  {
    InvalidOf(ids, total);
  }

  // ---------------------------------------------------------------- frames

  /** indices[:most], where a negative bound counts from the end. */
  function Cut(indices: seq<int>, most: int): seq<int> {
    if most >= |indices| then indices
    else if most >= 0 then indices[..most]
    else if |indices| + most >= 0 then indices[..|indices| + most]
    else []
  }

  /** The data set indices of an episode that are evaluated. */
  function Indices(start: int, stop: int, stride: nat, maxFrames: int): seq<int>
    requires stride > 0
  {
    var indices := Range(start, stop, stride);
    if maxFrames != 0 then Cut(indices, maxFrames) else indices
  }

  lemma {:induction false} RangeSize(first: int, stop: int, step: nat)
    requires step > 0
    ensures |Range(first, stop, step)| == CeilDiv(if first < stop then stop - first else 0, step)
    ensures forall i :: 0 <= i < |Range(first, stop, step)| ==> Range(first, stop, step)[i] == first + i * step
    decreases stop - first
  {
    hide CeilDiv;
    if first < stop {
      RangeSize(first + step, stop, step);
      CeilDivStep(stop - first, step);
      var tail := Range(first + step, stop, step);
      forall i | 0 <= i < |tail|
        ensures tail[i] == first + (i + 1) * step
      {
        assert (i + 1) * step == i * step + step;
      }
    } else {
      CeilDivStep(0, step);
    }
  }

  function Min(a: nat, b: nat): nat {
    if a <= b then a else b
  }

  /** The frames of an episode: ceil(length/stride), at most the cap if that is positive, and fewer by
      its size if it is negative. */
  function FrameCount(length: int, stride: nat, maxFrames: int): nat
    requires stride > 0
  {
    var all := CeilDiv(if length > 0 then length else 0, stride);
    if maxFrames == 0 then all
    else if maxFrames > 0 then Min(all, maxFrames)
    else if all + maxFrames > 0 then all + maxFrames
    else 0
  }

  /** So many frames are evaluated, and they are the first multiples of the stride; without a negative
      cap there are some in every episode that is not empty. */
  lemma FramesPerEpisode(start: int, stop: int, stride: nat, maxFrames: int)
    requires stride > 0
    ensures var frames := Indices(start, stop, stride, maxFrames);
            && |frames| == FrameCount(stop - start, stride, maxFrames)
            && (start < stop && maxFrames >= 0 ==> frames != [])
            && forall i :: 0 <= i < |frames| ==> frames[i] == start + i * stride
  {
    hide CeilDiv;
    RangeSize(start, stop, stride);
    CeilDivStep(if start < stop then stop - start else 0, stride);
  }

  // ---------------------------------------------------------------- the evaluation

  datatype Episode = Episode(start: nat, stop: nat)

  /** The progress bin of a frame, and the one the policy predicts. */
  datatype Progress = Progress(target: int, prediction: int)

  /** Everything that is evaluated: the recorded action at a data set index, and what the policy
      returns for the k-th frame of the e-th episode: an action, and progress if it predicts it. */
  datatype Run = Run(episodes: seq<Episode>, stride: int, maxFrames: int, gt: int -> seq<real>,
                     pred: (nat, nat) -> seq<real>, progress: (nat, nat) -> Option<Progress>)
  {
    function Frames(e: nat): seq<int>
      requires e < |episodes| && stride > 0
    {
      Indices(episodes[e].start, episodes[e].stop, stride, maxFrames)
    }

    ghost predicate GoodFrame(e: nat, k: nat)
      requires e < |episodes| && stride > 0 && k < |Frames(e)|
    {
      |gt(Frames(e)[k])| == JOINTS && |pred(e, k)| == JOINTS
    }

    /** The first k frames of an episode have six values each. */
    ghost predicate GoodFrames(e: nat, k: nat)
      requires e < |episodes| && stride > 0 && k <= |Frames(e)|
    {
      forall i :: 0 <= i < k ==> GoodFrame(e, i)
    }

    ghost predicate GoodEpisodes(n: nat)
      requires n <= |episodes| && stride > 0
    {
      forall e :: 0 <= e < n ==> GoodFrames(e, |Frames(e)|)
    }

    function GtOf(e: nat, k: nat): (gts: seq<Joints>)
      requires e < |episodes| && stride > 0 && k <= |Frames(e)| && GoodFrames(e, k)
      ensures |gts| == k
    {
      if k == 0 then []
      else
        assert GoodFrame(e, k - 1);
        GtOf(e, k - 1) + [gt(Frames(e)[k - 1])]
    }

    function PredOf(e: nat, k: nat): (preds: seq<Joints>)
      requires e < |episodes| && stride > 0 && k <= |Frames(e)| && GoodFrames(e, k)
      ensures |preds| == k
    {
      if k == 0 then []
      else
        assert GoodFrame(e, k - 1);
        PredOf(e, k - 1) + [pred(e, k - 1)]
    }

    /** The parts of the first n episodes; an episode without frames has none. */
    function PartsOf(n: nat): seq<Part>
      requires n <= |episodes| && stride > 0 && GoodEpisodes(n)
    {
      if n == 0 then []
      else
        assert GoodFrames(n - 1, |Frames(n - 1)|);
        PartsOf(n - 1) + if Frames(n - 1) == [] then []
                         else [Part(GtOf(n - 1, |Frames(n - 1)|), PredOf(n - 1, |Frames(n - 1)|))]
    }

    /** The numbers of the episodes among the first n that have frames. */
    function Evaluated(n: nat): seq<nat>
      requires n <= |episodes| && stride > 0
    {
      if n == 0 then [] else Evaluated(n - 1) + if Frames(n - 1) == [] then [] else [n - 1]
    }

    /** The predicted progress of the first k frames of an episode. */
    function ProgressOf(e: nat, k: nat): seq<Progress> {
      if k == 0 then []
      else ProgressOf(e, k - 1) + match progress(e, k - 1)
                                  case Some(p) => [p]
                                  case None => []
    }

    function AllProgress(n: nat): seq<Progress>
      requires n <= |episodes| && stride > 0
    {
      if n == 0 then [] else AllProgress(n - 1) + ProgressOf(n - 1, |Frames(n - 1)|)
    }

    /** The frames of the first n episodes, by the lengths of the episodes. */
    function FrameTotal(n: nat): nat
      requires n <= |episodes| && stride > 0
    {
      if n == 0 then 0
      else FrameTotal(n - 1) + FrameCount(episodes[n - 1].stop - episodes[n - 1].start, stride, maxFrames)
    }
  }

  datatype EpisodeSummary = EpisodeSummary(episode: nat, frames: nat, scores: Scores)

  datatype Report = Report(frames: nat, scores: Scores, jointMeanSquares: seq<real>, accuracy: Option<real>,
                           summaries: seq<EpisodeSummary>)
  {
    /** The reported figure. */
    function Get(f: Figure): real
      requires f.Valid() && |scores.perJoint| == |jointMeanSquares| == JOINTS
    {
      if f.JointMeanSquare? then jointMeanSquares[f.j] else f.In(scores)
    }
  }

  function Hits(ps: seq<Progress>): (n: nat)
    ensures n <= |ps|
  {
    if ps == [] then 0 else (if ps[0].target == ps[0].prediction then 1 else 0) + Hits(ps[1..])
  }

  /** The share of frames whose progress bin is predicted, if any is. */
  function Accuracy(ps: seq<Progress>): Option<real> {
    if ps == [] then None else Some(Hits(ps) as real / |ps| as real)
  }

  /** The summaries belong to these episodes and their parts, in order. */
  ghost predicate Summarizes(summaries: seq<EpisodeSummary>, es: seq<nat>, parts: seq<Part>) {
    |summaries| == |es| == |parts|
    && forall i :: 0 <= i < |parts| ==>
         parts[i].Valid() && summaries[i] == EpisodeSummary(es[i], |parts[i].gt|, Score(parts[i].gt, parts[i].pred))
  }

  /** The report of a run whose frames all have six values, at least one of them. */
  ghost predicate Reports(run: Run, report: Report)
    requires run.stride >= 1 && run.GoodEpisodes(|run.episodes|)
  {
    var n := |run.episodes|;
    var parts := run.PartsOf(n);
    && Summarizes(report.summaries, run.Evaluated(n), parts)
    && |AllGt(parts)| == |AllPred(parts)| == report.frames > 0
    && report.scores == Score(AllGt(parts), AllPred(parts))
    && report.jointMeanSquares == JointMeanSquares(AllGt(parts), AllPred(parts))
    && report.accuracy == Accuracy(run.AllProgress(n))
  }

  lemma NothingYet(run: Run)
    requires run.stride > 0
    ensures run.GoodEpisodes(0) && run.PartsOf(0) == [] && Summarizes([], run.Evaluated(0), [])
    ensures AllGt([]) == AllPred([]) == [] && run.AllProgress(0) == []
  {
  }

  lemma PartsStep(run: Run, e: nat)
    requires e < |run.episodes| && run.stride > 0 && run.GoodEpisodes(e + 1)
    ensures run.GoodFrames(e, |run.Frames(e)|)
    ensures var n := |run.Frames(e)|;
            run.PartsOf(e + 1) == if n == 0 then run.PartsOf(e)
                                  else run.PartsOf(e) + [Part(run.GtOf(e, n), run.PredOf(e, n))]
    ensures run.Evaluated(e + 1) == if run.Frames(e) == [] then run.Evaluated(e) else run.Evaluated(e) + [e]
  {
    hide Indices, Run.GtOf, Run.PredOf;
    assert run.GoodFrames(e, |run.Frames(e)|);
    assert run.PartsOf(e) + [] == run.PartsOf(e);
    assert run.Evaluated(e) + [] == run.Evaluated(e);
  }

  lemma ProgressStep(run: Run, e: nat)
    requires e < |run.episodes| && run.stride > 0
    ensures run.AllProgress(e + 1) == run.AllProgress(e) + run.ProgressOf(e, |run.Frames(e)|)
  {
  }

  lemma ProgressMore(run: Run, e: nat, k: nat, before: seq<Progress>)
    ensures before + run.ProgressOf(e, k + 1) == match run.progress(e, k)
                                                case Some(p) => before + run.ProgressOf(e, k) + [p]
                                                case None => before + run.ProgressOf(e, k)
  {
  }

  lemma SummarizesMore(summaries: seq<EpisodeSummary>, es: seq<nat>, parts: seq<Part>, e: nat, part: Part)
    requires Summarizes(summaries, es, parts) && part.Valid()
    ensures Summarizes(summaries + [EpisodeSummary(e, |part.gt|, Score(part.gt, part.pred))], es + [e], parts + [part])
  {
    hide Score;
  }

  method Evaluate(run: Run) returns (r: Result<Report, Error>)
    ensures run.stride < 1 ==> r == Failure(BadStride)
    ensures run.stride >= 1 && !run.GoodEpisodes(|run.episodes|) ==> r == Failure(BadShape)
    ensures run.stride >= 1 && run.GoodEpisodes(|run.episodes|) ==>
              if run.PartsOf(|run.episodes|) == [] then r == Failure(NothingEvaluated)
              else r.Success? && Reports(run, r.value)
  {
    hide Score, JointMeanSquares, Indices, Run.PartsOf, Run.Evaluated, Run.AllProgress, Run.ProgressOf, Summarizes,
         Accuracy;
    if run.stride < 1 {
      return Failure(BadStride);
    }
    NothingYet(run);
    var allGt: seq<Joints>, allPred: seq<Joints>, summaries: seq<EpisodeSummary> := [], [], [];
    var allProgress: seq<Progress> := [];
    for e := 0 to |run.episodes|
      invariant run.GoodEpisodes(e)
      invariant allGt == AllGt(run.PartsOf(e)) && allPred == AllPred(run.PartsOf(e))
      invariant Summarizes(summaries, run.Evaluated(e), run.PartsOf(e))
      invariant |allGt| == |allPred| && (allGt == [] <==> run.PartsOf(e) == [])
      invariant allProgress == run.AllProgress(e)
    {
      var indices := run.Frames(e);
      ghost var before := allProgress;
      var gts: seq<Joints>, preds: seq<Joints> := [], [];
      NoProgress(run, e, before);
      for k := 0 to |indices|
        invariant run.GoodFrames(e, k)
        invariant gts == run.GtOf(e, k) && preds == run.PredOf(e, k)
        invariant allProgress == before + run.ProgressOf(e, k)
      {
        ProgressMore(run, e, k, before);
        match run.progress(e, k) {
          case Some(p) => allProgress := allProgress + [p];
          case None =>
        }
        var gt, pred := run.gt(indices[k]), run.pred(e, k);
        if |gt| != JOINTS || |pred| != JOINTS {
          assert !run.GoodFrame(e, k);
          assert !run.GoodFrames(e, |indices|);
          return Failure(BadShape);
        }
        assert run.GoodFrame(e, k);
        gts := gts + [gt];
        preds := preds + [pred];
      }
      PartsStep(run, e);
      ProgressStep(run, e);
      if indices == [] {
        continue;
      }
      AllOfMore(run.PartsOf(e), Part(gts, preds));
      SummarizesMore(summaries, run.Evaluated(e), run.PartsOf(e), e, Part(gts, preds));
      allGt := allGt + gts;
      allPred := allPred + preds;
      summaries := summaries + [EpisodeSummary(e, |indices|, Score(gts, preds))];
    }
    if allGt == [] {
      return Failure(NothingEvaluated);
    }
    r := Success(Report(|allGt|, Score(allGt, allPred), JointMeanSquares(allGt, allPred), Accuracy(allProgress),
                        summaries));
  }

  lemma NoProgress(run: Run, e: nat, before: seq<Progress>)
    ensures before + run.ProgressOf(e, 0) == before
  {
  }

  // ---------------------------------------------------------------- laws of the report

  function FrameSum(summaries: seq<EpisodeSummary>): nat {
    if summaries == [] then 0 else summaries[0].frames + FrameSum(summaries[1..])
  }

  /** A figure of the episode summaries, weighted with their frames. */
  function WeightedSummaries(summaries: seq<EpisodeSummary>, f: Figure): real
    requires f.Valid() && !f.JointMeanSquare?
    requires forall i :: 0 <= i < |summaries| ==> |summaries[i].scores.perJoint| == JOINTS
  {
    if summaries == [] then 0.0
    else
      assert |summaries[0].scores.perJoint| == JOINTS;
      Times(summaries[0].frames, f.In(summaries[0].scores)) + WeightedSummaries(summaries[1..], f)
  }

  lemma SummarizesRest(summaries: seq<EpisodeSummary>, es: seq<nat>, parts: seq<Part>)
    requires Summarizes(summaries, es, parts) && parts != []
    ensures Summarizes(summaries[1..], es[1..], parts[1..])
  {
    hide Score;
    forall i | 0 <= i < |parts[1..]|
      ensures parts[1..][i].Valid()
      ensures summaries[1..][i] == EpisodeSummary(es[1..][i], |parts[1..][i].gt|,
                                                  Score(parts[1..][i].gt, parts[1..][i].pred))
    {
      assert parts[1..][i] == parts[i + 1] && summaries[1..][i] == summaries[i + 1] && es[1..][i] == es[i + 1];
    }
  }

  lemma {:induction false} FramesAddUp(summaries: seq<EpisodeSummary>, es: seq<nat>, parts: seq<Part>)
    requires Summarizes(summaries, es, parts)
    ensures |AllGt(parts)| == FrameSum(summaries)
    decreases |parts|
  {
    hide Score;
    if parts == [] {
    } else {
      SummarizesRest(summaries, es, parts);
      FramesAddUp(summaries[1..], es[1..], parts[1..]);
    }
  }

  lemma {:induction false} SummariesAreWeighted(summaries: seq<EpisodeSummary>, es: seq<nat>, parts: seq<Part>,
                                                f: Figure)
    requires Summarizes(summaries, es, parts) && f.Valid() && !f.JointMeanSquare?
    ensures forall i :: 0 <= i < |parts| ==> parts[i].Valid()
    ensures forall i :: 0 <= i < |summaries| ==> |summaries[i].scores.perJoint| == JOINTS
    ensures WeightedSummaries(summaries, f) == Weighted(parts, f)
    decreases |parts|
  {
    hide Score, Times;
    if parts == [] {
    } else {
      SummarizesRest(summaries, es, parts);
      SummariesAreWeighted(summaries[1..], es[1..], parts[1..], f);
      assert parts[0].Valid() && summaries[0].scores == Score(parts[0].gt, parts[0].pred);
    }
  }

  /** Exactly the episodes below n that have frames, in order. */
  ghost predicate HaveFrames(run: Run, n: nat, es: seq<nat>)
    requires n <= |run.episodes| && run.stride >= 1
  {
    && (forall e: nat :: e in es <==> e < n && run.Frames(e) != [])
    && (forall i, j :: 0 <= i < j < |es| ==> es[i] < es[j])
  }

  lemma {:induction false} EvaluatedHaveFrames(run: Run, n: nat)
    requires n <= |run.episodes| && run.stride >= 1
    ensures HaveFrames(run, n, run.Evaluated(n))
  {
    hide Run.Frames, HaveFrames;
    if n == 0 {
      NoneHaveFrames(run);
    } else {
      EvaluatedHaveFrames(run, n - 1);
      OneMoreHasFrames(run, n - 1, run.Evaluated(n - 1));
      assert run.Evaluated(n - 1) + [] == run.Evaluated(n - 1);
    }
  }

  lemma NoneHaveFrames(run: Run)
    requires run.stride >= 1
    ensures HaveFrames(run, 0, [])
  {
  }

  lemma OneMoreHasFrames(run: Run, e: nat, es: seq<nat>)
    requires e < |run.episodes| && run.stride >= 1 && HaveFrames(run, e, es)
    ensures HaveFrames(run, e + 1, if run.Frames(e) == [] then es else es + [e])
  {
    hide Run.Frames;
    assert forall i :: 0 <= i < |es| ==> es[i] in es;
  }

  /** Each part has the frames of its episode. */
  lemma {:induction false} PartFrames(run: Run, n: nat)
    requires n <= |run.episodes| && run.stride >= 1 && run.GoodEpisodes(n)
    ensures |run.Evaluated(n)| == |run.PartsOf(n)|
    ensures forall i :: 0 <= i < |run.Evaluated(n)| ==>
              run.Evaluated(n)[i] < n && |run.PartsOf(n)[i].gt| == |run.Frames(run.Evaluated(n)[i])|
  {
    hide Run.Frames, Run.GtOf, Run.PredOf;
    if n == 0 {
    } else {
      PartFrames(run, n - 1);
      PartsStep(run, n - 1);
    }
  }

  /** All frames are as many as the lengths of the episodes say. */
  lemma {:induction false} FramesInAll(run: Run, n: nat)
    requires n <= |run.episodes| && run.stride >= 1 && run.GoodEpisodes(n)
    ensures |AllGt(run.PartsOf(n))| == run.FrameTotal(n)
  {
    hide Indices, Run.GtOf, Run.PredOf, Run.PartsOf, FrameCount, AllGt;
    if n == 0 {
      NothingYet(run);
    } else {
      FramesInAll(run, n - 1);
      PartsStep(run, n - 1);
      FramesPerEpisode(run.episodes[n - 1].start, run.episodes[n - 1].stop, run.stride, run.maxFrames);
      var k := |run.Frames(n - 1)|;
      AllOfMore(run.PartsOf(n - 1), Part(run.GtOf(n - 1, k), run.PredOf(n - 1, k)));
    }
  }

  /** The report of a run: one summary for each episode with frames, in order, with the number of its
      frames; the total is the sum of these, and of the capped ceil(length/stride) of all episodes. */
  lemma ReportedFrames(run: Run, report: Report)
    requires run.stride >= 1 && run.GoodEpisodes(|run.episodes|) && Reports(run, report)
    ensures forall e: nat :: (exists s :: s in report.summaries && s.episode == e)
                             <==> e < |run.episodes| && run.Frames(e) != []
    ensures forall s :: s in report.summaries ==> s.episode < |run.episodes| && s.frames == |run.Frames(s.episode)|
    ensures forall i, j :: 0 <= i < j < |report.summaries| ==> report.summaries[i].episode < report.summaries[j].episode
    ensures report.frames == FrameSum(report.summaries) == run.FrameTotal(|run.episodes|)
  {
    hide Indices, Run.PartsOf, Run.Evaluated, Run.FrameTotal, Score, Accuracy, JointMeanSquares;
    var n := |run.episodes|;
    EvaluatedHaveFrames(run, n);
    PartFrames(run, n);
    FramesInAll(run, n);
    FramesAddUp(report.summaries, run.Evaluated(n), run.PartsOf(n));
    forall e: nat
      ensures e in run.Evaluated(n) <==> exists s :: s in report.summaries && s.episode == e
    {
      if e in run.Evaluated(n) {
        var i :| 0 <= i < |run.Evaluated(n)| && run.Evaluated(n)[i] == e;
        assert report.summaries[i] in report.summaries;
      }
    }
  }

  /** The frames of an episode that are evaluated are the first multiples of the stride behind its start, and
      truth and prediction of each enter the figures of its part in order. */
  lemma PartIs(run: Run, e: nat, k: nat)
    requires e < |run.episodes| && run.stride >= 1 && run.GoodEpisodes(|run.episodes|)
    requires k < FrameCount(run.episodes[e].stop - run.episodes[e].start, run.stride, run.maxFrames)
    ensures |run.Frames(e)| == FrameCount(run.episodes[e].stop - run.episodes[e].start, run.stride, run.maxFrames)
    ensures run.GoodFrames(e, |run.Frames(e)|)
    ensures run.GtOf(e, |run.Frames(e)|)[k] == run.gt(run.episodes[e].start + k * run.stride)
    ensures run.PredOf(e, |run.Frames(e)|)[k] == run.pred(e, k)
  {
    hide Indices, FrameCount;
    FramesPerEpisode(run.episodes[e].start, run.episodes[e].stop, run.stride, run.maxFrames);
    assert run.GoodFrames(e, |run.Frames(e)|);
    TakenInOrder(run, e, |run.Frames(e)|, k);
  }

  lemma {:induction false} TakenInOrder(run: Run, e: nat, n: nat, k: nat)
    requires e < |run.episodes| && run.stride > 0 && k < n <= |run.Frames(e)| && run.GoodFrames(e, n)
    ensures run.GtOf(e, n)[k] == run.gt(run.Frames(e)[k])
    ensures run.PredOf(e, n)[k] == run.pred(e, k)
  {
    hide Run.Frames;
    assert run.GoodFrame(e, n - 1);
    if k == n - 1 {
    } else {
      TakenInOrder(run, e, n - 1, k);
    }
  }

  /** Every reported figure is the frame-weighted mean of the figures of the episodes, as they stand in
      the summaries. */
  lemma ReportRecombines(run: Run, report: Report, f: Figure)
    requires run.stride >= 1 && run.GoodEpisodes(|run.episodes|) && Reports(run, report) && f.Valid()
    ensures Times(report.frames, report.Get(f)) == Weighted(run.PartsOf(|run.episodes|), f)
    ensures forall i :: 0 <= i < |report.summaries| ==> |report.summaries[i].scores.perJoint| == JOINTS
    ensures !f.JointMeanSquare? ==> Times(report.frames, report.Get(f)) == WeightedSummaries(report.summaries, f)
  {
    hide Run.PartsOf, Run.Evaluated, Score, JointMeanSquares, Times, Accuracy, Weighted;
    var n := |run.episodes|;
    GlobalIsWeightedMean(run.PartsOf(n), f);
    SummariesAreWeighted(report.summaries, run.Evaluated(n), run.PartsOf(n), if f.JointMeanSquare? then Mae else f);
  }

  /** The reported per-joint figures average to the reported ones. */
  lemma ReportedJointsAverage(run: Run, report: Report)
    requires run.stride >= 1 && run.GoodEpisodes(|run.episodes|) && Reports(run, report)
    ensures |report.scores.perJoint| == |report.jointMeanSquares| == JOINTS
    ensures Mean(report.scores.perJoint) == report.scores.mae
    ensures Mean(report.jointMeanSquares) == report.scores.meanSquare
  {
    hide Run.PartsOf, Run.Evaluated, Score, JointMeanSquares, Mean, Accuracy, Summarizes;
    var parts := run.PartsOf(|run.episodes|);
    PerJointMean(AllGt(parts), AllPred(parts));
    PerJointMeanSquare(AllGt(parts), AllPred(parts));
  }

  // ---------------------------------------------------------------- progress

  /** The positions at which the predicted bin is the right one. */
  function RightAt(ps: seq<Progress>): set<nat> {
    set i: nat | i < |ps| && ps[i].target == ps[i].prediction
  }

  lemma {:induction false} HitsOfLast(ps: seq<Progress>, p: Progress)
    ensures Hits(ps + [p]) == Hits(ps) + if p.target == p.prediction then 1 else 0
  {
    if ps == [] {
      assert [p][1..] == [];
    } else {
      assert (ps + [p])[1..] == ps[1..] + [p];
      HitsOfLast(ps[1..], p);
    }
  }

  lemma {:induction false} HitsAreRight(ps: seq<Progress>)
    ensures Hits(ps) == |RightAt(ps)|
    decreases |ps|
  {
    if ps == [] {
      assert RightAt(ps) == {};
    } else {
      var n := |ps| - 1;
      HitsAreRight(ps[..n]);
      HitsOfLast(ps[..n], ps[n]);
      assert ps == ps[..n] + [ps[n]];
      assert RightAt(ps) == if ps[n].target == ps[n].prediction then RightAt(ps[..n]) + {n} else RightAt(ps[..n]);
    }
  }

  /** The reported accuracy is absent exactly when no frame has a predicted bin; otherwise it is the share of
      those frames whose bin is right. */
  lemma AccuracyIsShare(run: Run, report: Report)
    requires run.stride >= 1 && run.GoodEpisodes(|run.episodes|) && Reports(run, report)
    ensures var ps := run.AllProgress(|run.episodes|);
            && (report.accuracy == None <==> ps == [])
            && (ps != [] ==> report.accuracy.value * |ps| as real == |RightAt(ps)| as real)
  {
    hide Run.PartsOf, Run.Evaluated, Run.AllProgress, Score, JointMeanSquares, Summarizes, Hits, RightAt;
    var ps := run.AllProgress(|run.episodes|);
    HitsAreRight(ps);
    if ps != [] {
      Undivide(Hits(ps) as real, |ps| as real);
    }
  }
}
