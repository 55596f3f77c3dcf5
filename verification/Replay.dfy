/** The timed replay (scripts/evaluate_smolvla_rtc_open_loop.py:86-276): the tick loop with its held
    command and pacing, the per-episode summary, and the lists that all episodes share. */
module Replay {
  import opened Wrappers
  import opened JointErrors
  import opened Clamping
  import opened Pacing

  /** What the inference engine does in one tick. */
  datatype Reply = NoAction | Action(pred: Joints) | NonFinite | Failed

  datatype Sample = Sample(state: Joints, gt: Joints)

  /** One episode with what happens around its replay: the replies of the engine, the sizes of its
      queue after them, and the time everything takes. */
  datatype Feed = Feed(samples: seq<Sample>, replies: seq<Reply>, queues: seq<nat>, ticks: seq<Tick>, lead: real,
                       failedAfter: bool)
  {
    ghost predicate Valid() {
      |samples| == |replies| == |queues| == |ticks| && ValidTicks(ticks) && lead >= 0.0
    }
  }

  datatype Error =
    | EmptyEpisode      // there is no first sample
    | EngineFailed
    | NonFiniteAction   // "RTC returned non-finite actions"
    | NoActions         // "RTC produced no actions"

  /** One line of the episode's table; the prediction columns of an unavailable tick are empty. */
  datatype Line = Line(frame: nat, timestamp: real, wallTime: real, available: bool, queueSize: nat, gt: Joints,
                       pred: Option<Joints>, safe: Option<Joints>)

  datatype Trace = Trace(lines: seq<Line>, preds: seq<Joints>, safes: seq<Joints>, available: seq<bool>, elapsed: real)

  // ---------------------------------------------------------------- what a replay is

  /** The first reply that ends the replay. */
  function FirstFault(replies: seq<Reply>): Option<Error> {
    if replies == [] then None
    else match replies[0]
         case Failed => Some(EngineFailed)
         case NonFinite => Some(NonFiniteAction)
         case _ => FirstFault(replies[1..])
  }

  function Fault(feed: Feed): Option<Error> {
    if feed.samples == [] then Some(EmptyEpisode)
    else if FirstFault(feed.replies).Some? then FirstFault(feed.replies)
    else if feed.failedAfter then Some(EngineFailed)
    else if forall i :: 0 <= i < |feed.replies| ==> !feed.replies[i].Action? then Some(NoActions)
    else None
  }

  /** g is the latest available tick before f. */
  ghost predicate IsLatest(available: seq<bool>, g: nat, f: nat) {
    g < f <= |available| && available[g] && forall h :: g < h < f ==> !available[h]
  }

  /** The command that is held when tick f starts: that of the latest available tick, or the first
      recorded state if there is none. */
  ghost predicate Holds(samples: seq<Sample>, safes: seq<Joints>, available: seq<bool>, f: nat, command: Joints)
    requires samples != [] && f <= |available| == |safes|
  {
    && (forall g: nat :: IsLatest(available, g, f) ==> command == safes[g])
    && ((forall g :: 0 <= g < f ==> !available[g]) ==> command == samples[0].state)
  }

  /** Tick f of a replay: an available tick shows its prediction and commands the clamped one, any
      other shows and commands the held command. */
  ghost predicate TickIs(feed: Feed, limit: real, t: Trace, f: nat)
    requires |feed.samples| == |feed.replies| && |t.preds| == |t.safes| == |t.available|
    requires f < |t.preds| && f < |feed.samples|
  {
    && t.available[f] == feed.replies[f].Action?
    && (t.available[f] ==> && t.preds[f] == feed.replies[f].pred
                           && t.safes[f] == Clamp(feed.samples[f].state, t.preds[f], limit))
    && (!t.available[f] ==> && t.preds[f] == t.safes[f]
                            && Holds(feed.samples, t.safes, t.available, f, t.safes[f]))
  }

  function LineOf(feed: Feed, sync: bool, fps: real, t: Trace, f: nat): Line
    requires fps > 0.0 && |t.preds| == |t.safes| == |t.available|
    requires f < |t.preds| && f < |feed.samples| == |feed.queues| && f <= |feed.ticks|
  {
    var shown := t.available[f];
    Line(f, f as real / fps, Pace(sync, 1.0 / fps, feed.lead, feed.ticks, f).start, shown, feed.queues[f],
         feed.samples[f].gt,
         if shown then Some(t.preds[f]) else None, if shown then Some(t.safes[f]) else None)
  }

  /** t records the first n ticks. */
  ghost predicate Records(feed: Feed, sync: bool, fps: real, limit: real, t: Trace, n: nat)
    requires fps > 0.0 && feed.Valid()
  {
    && n <= |feed.samples|
    && |t.lines| == |t.preds| == |t.safes| == |t.available| == n
    && (forall f :: 0 <= f < n ==> TickIs(feed, limit, t, f))
    && (forall f :: 0 <= f < n ==> t.lines[f] == LineOf(feed, sync, fps, t, f))
  }

  /** The trace of a whole episode. */
  ghost predicate IsTrace(feed: Feed, sync: bool, fps: real, limit: real, t: Trace)
    requires fps > 0.0 && feed.Valid()
  {
    && Records(feed, sync, fps, limit, t, |feed.samples|)
    && t.elapsed == Pace(sync, 1.0 / fps, feed.lead, feed.ticks, |feed.samples|).start
  }

  // ---------------------------------------------------------------- the tick loop

  lemma FaultAt(replies: seq<Reply>, f: nat)
    requires f < |replies| && forall i :: 0 <= i < f ==> replies[i].NoAction? || replies[i].Action?
    ensures replies[f].Failed? ==> FirstFault(replies) == Some(EngineFailed)
    ensures replies[f].NonFinite? ==> FirstFault(replies) == Some(NonFiniteAction)
  {
    if f == 0 {
    } else {
      FaultAt(replies[1..], f - 1);
    }
  }

  lemma NoFault(replies: seq<Reply>)
    requires forall i :: 0 <= i < |replies| ==> replies[i].NoAction? || replies[i].Action?
    ensures FirstFault(replies) == None
  {
    if replies == [] {
    } else {
      NoFault(replies[1..]);
    }
  }

  lemma NoSamples(feed: Feed)
    requires feed.samples == []
    ensures Fault(feed) == Some(EmptyEpisode)
  {
  }

  lemma FaultOfReply(feed: Feed)
    requires feed.samples != [] && FirstFault(feed.replies).Some?
    ensures Fault(feed) == FirstFault(feed.replies)
  {
  }

  lemma FaultBehindReplies(feed: Feed)
    requires feed.samples != [] && FirstFault(feed.replies) == None
    ensures feed.failedAfter ==> Fault(feed) == Some(EngineFailed)
    ensures !feed.failedAfter ==>
              Fault(feed) == if forall i :: 0 <= i < |feed.replies| ==> !feed.replies[i].Action? then Some(NoActions)
                             else None
  {
  }

  lemma PaceStarts(feed: Feed, sync: bool, period: real)
    ensures Pace(sync, period, feed.lead, feed.ticks, 0) == Moment(feed.lead, 0.0)
  {
  }

  lemma PaceTick(feed: Feed, sync: bool, period: real, f: nat)
    requires f < |feed.ticks|
    ensures Pace(sync, period, feed.lead, feed.ticks, f + 1)
            == Advance(sync, period, Pace(sync, period, feed.lead, feed.ticks, f), feed.ticks[f])
  {
  }

  method ReplayEpisode(feed: Feed, sync: bool, fps: real, limit: real) returns (r: Result<Trace, Error>)
    requires feed.Valid() && fps > 0.0
    ensures r.Failure? <==> Fault(feed).Some?
    ensures r.Failure? ==> Fault(feed) == Some(r.error)
    ensures r.Success? ==> IsTrace(feed, sync, fps, limit, r.value)
    ensures r.Success? ==> exists i :: 0 <= i < |r.value.available| && r.value.available[i]
  {
    hide Clamp, Records, Holds, FirstFault, Fault, Pace;
    if feed.samples == [] {
      NoSamples(feed);
      return Failure(EmptyEpisode);
    }
    var lines: seq<Line>, preds: seq<Joints>, safes: seq<Joints>, available: seq<bool> := [], [], [], [];
    var lastCommand := feed.samples[0].state;
    var now, deadline := feed.lead, 0.0;
    PaceStarts(feed, sync, 1.0 / fps);
    NothingRecorded(feed, sync, fps, limit);
    for f := 0 to |feed.samples|
      invariant |lines| == |preds| == |safes| == |available| == f
      invariant forall i :: 0 <= i < f ==> feed.replies[i].NoAction? || feed.replies[i].Action?
      invariant forall i :: 0 <= i < f ==> available[i] == feed.replies[i].Action?
      invariant Moment(now, deadline) == Pace(sync, 1.0 / fps, feed.lead, feed.ticks, f)
      invariant Holds(feed.samples, safes, available, f, lastCommand)
      invariant Records(feed, sync, fps, limit, Trace(lines, preds, safes, available, 0.0), f)
    {
      ghost var before := Trace(lines, preds, safes, available, 0.0);
      ghost var held := lastCommand;
      var tickTime := now;
      var state, reply := feed.samples[f].state, feed.replies[f];
      if reply.Failed? {
        FaultAt(feed.replies, f);
        FaultOfReply(feed);
        return Failure(EngineFailed);
      }
      if reply.NonFinite? {
        FaultAt(feed.replies, f);
        FaultOfReply(feed);
        return Failure(NonFiniteAction);
      }
      var valid := reply.Action?;
      var pred, safe;
      if valid {
        pred := reply.pred;
        safe := Clamp(state, pred, limit);
        lastCommand := safe;
      } else {
        pred, safe := lastCommand, lastCommand;
      }
      preds := preds + [pred];
      safes := safes + [safe];
      available := available + [valid];
      lines := lines + [Line(f, f as real / fps, tickTime, valid, feed.queues[f], feed.samples[f].gt,
                             if valid then Some(pred) else None, if valid then Some(safe) else None)];
      RecordTick(feed, sync, fps, limit, before, held, pred, safe, lines[f]);
      HoldsNext(feed.samples, before.safes, before.available, f, held, safe, valid);
      // The clock of the tick: work, deadline, and a sleep that does not return early.
      var tick := feed.ticks[f];
      var worked := now + tick.work;
      deadline := deadline + 1.0 / fps;
      if sync {
        deadline := Max(deadline, worked);
      }
      var ready := worked + tick.gap;
      now := ready + Max(0.0, deadline - ready) + tick.oversleep;
      PaceTick(feed, sync, 1.0 / fps, f);
    }
    NoFault(feed.replies);
    FaultBehindReplies(feed);
    if feed.failedAfter {
      return Failure(EngineFailed);
    }
    if forall i :: 0 <= i < |available| ==> !available[i] {
      return Failure(NoActions);
    }
    SameRecords(feed, sync, fps, limit, Trace(lines, preds, safes, available, 0.0), now);
    return Success(Trace(lines, preds, safes, available, now));
  }

  lemma NothingRecorded(feed: Feed, sync: bool, fps: real, limit: real)
    requires feed.Valid() && fps > 0.0 && feed.samples != []
    ensures Records(feed, sync, fps, limit, Trace([], [], [], [], 0.0), 0)
    ensures Holds(feed.samples, [], [], 0, feed.samples[0].state)
  {
  }

  lemma SameRecords(feed: Feed, sync: bool, fps: real, limit: real, t: Trace, elapsed: real)
    requires feed.Valid() && fps > 0.0 && Records(feed, sync, fps, limit, t, |feed.samples|)
    ensures Records(feed, sync, fps, limit, t.(elapsed := elapsed), |feed.samples|)
  {
    var u := t.(elapsed := elapsed);
    forall f | 0 <= f < |feed.samples|
      ensures TickIs(feed, limit, u, f) && u.lines[f] == LineOf(feed, sync, fps, u, f)
    {
      assert TickIs(feed, limit, t, f) && t.lines[f] == LineOf(feed, sync, fps, t, f);
    }
  }

  lemma LatestBefore(available: seq<bool>, more: bool, g: nat, f: nat)
    requires f <= |available|
    ensures IsLatest(available + [more], g, f) <==> IsLatest(available, g, f)
  {
    assert forall h :: 0 <= h < |available| ==> (available + [more])[h] == available[h];
  }

  lemma HoldsStays(samples: seq<Sample>, safes: seq<Joints>, available: seq<bool>, f: nat, command: Joints,
                   safe: Joints, more: bool)
    requires samples != [] && f <= |available| == |safes|
    requires Holds(samples, safes, available, f, command)
    ensures Holds(samples, safes + [safe], available + [more], f, command)
  {
    forall g: nat | IsLatest(available + [more], g, f)
      ensures command == (safes + [safe])[g]
    {
      LatestBefore(available, more, g, f);
    }
    if forall g :: 0 <= g < f ==> !(available + [more])[g] {
      assert forall g :: 0 <= g < f ==> !available[g] by {
        assert forall g :: 0 <= g < f ==> (available + [more])[g] == available[g];
      }
    }
  }

  lemma HoldsNext(samples: seq<Sample>, safes: seq<Joints>, available: seq<bool>, f: nat, held: Joints,
                  safe: Joints, valid: bool)
    requires samples != [] && f == |available| == |safes|
    requires Holds(samples, safes, available, f, held)
    requires !valid ==> safe == held
    ensures Holds(samples, safes + [safe], available + [valid], f + 1, safe)
  {
    var all := available + [valid];
    assert all[f] == valid && (safes + [safe])[f] == safe;
    forall g: nat | IsLatest(all, g, f + 1)
      ensures safe == (safes + [safe])[g]
    {
      if g < f {
        assert !all[f];
        assert IsLatest(all, g, f);
        LatestBefore(available, valid, g, f);
      }
    }
    if forall g :: 0 <= g < f + 1 ==> !all[g] {
      assert forall g :: 0 <= g < f ==> all[g] == available[g];
    }
  }

  /** One more tick on record. */
  lemma RecordTick(feed: Feed, sync: bool, fps: real, limit: real, t: Trace, held: Joints, pred: Joints, safe: Joints,
                   line: Line)
    requires feed.Valid() && fps > 0.0
    requires Records(feed, sync, fps, limit, t, |t.preds|) && |t.preds| < |feed.samples|
    requires var f := |t.preds|;
             var reply := feed.replies[f];
             var valid := reply.Action?;
             && Holds(feed.samples, t.safes, t.available, f, held)
             && (valid ==> pred == reply.pred && safe == Clamp(feed.samples[f].state, pred, limit))
             && (!valid ==> pred == safe == held)
             && line == Line(f, f as real / fps, Pace(sync, 1.0 / fps, feed.lead, feed.ticks, f).start, valid,
                             feed.queues[f], feed.samples[f].gt,
                             if valid then Some(pred) else None, if valid then Some(safe) else None)
    ensures var valid := feed.replies[|t.preds|].Action?;
            var next := Trace(t.lines + [line], t.preds + [pred], t.safes + [safe], t.available + [valid], 0.0);
            Records(feed, sync, fps, limit, next, |t.preds| + 1)
  {
    hide Holds, Clamp, Pace;
    var n := |t.preds|;
    var valid := feed.replies[n].Action?;
    var next := Trace(t.lines + [line], t.preds + [pred], t.safes + [safe], t.available + [valid], 0.0);
    forall f | 0 <= f < n + 1
      ensures TickIs(feed, limit, next, f) && next.lines[f] == LineOf(feed, sync, fps, next, f)
    {
      if f < n {
        assert TickIs(feed, limit, t, f) && t.lines[f] == LineOf(feed, sync, fps, t, f);
        if !t.available[f] {
          HoldsStays(feed.samples, t.safes, t.available, f, t.safes[f], safe, valid);
        }
      } else if !valid {
        HoldsStays(feed.samples, t.safes, t.available, f, held, safe, valid);
      }
    }
  }
}
