/** The follow loop of main (scripts/stream_smolvla_wandb.py:86-112).  Its surroundings - the writer
    that appends to the log and the monotonic clock - are a sequence of glimpses, one for each pass
    through the loop: what the file holds when the pass reads it, and the clock reading of the pass. */
module Follower {
  import opened MetricParser
  import opened LogTail
  import opened Delivery
  import opened Endings
  import opened Sessions

  datatype Glimpse = Glimpse(content: string, now: real)

  datatype Outcome =
    | Running                 // all glimpses were used up
    | IdleTimeout             // "Training log stopped updating; check training status."
    | Over(status: Status)

  // ---------------------------------------------------------------- the surroundings

  /** How many complete lines the first n passes take: one each, as long as there is one. */
  function Taken(env: seq<Glimpse>, n: nat): (t: nat)
    requires n <= |env|
    ensures t <= n
    decreases n, 0
  {
    if n == 0 then 0 else Taken(env, n - 1) + if Idle(env, n - 1) then 0 else 1
  }

  /** Pass i finds no complete line behind those already taken. */
  predicate Idle(env: seq<Glimpse>, i: nat)
    requires i < |env|
    decreases i, 1
  {
    |CompleteLines(env[i].content)| <= Taken(env, i)
  }

  /** When the last line before pass n was taken, or the time the loop started. */
  function LastActivity(env: seq<Glimpse>, started: real, n: nat): real
    requires n <= |env|
  {
    if n == 0 then started
    else if Idle(env, n - 1) then LastActivity(env, started, n - 1)
    else env[n - 1].now
  }

  /** The log only grows, and the clock moves on, by at least two seconds across the sleep of a pass
      that found no complete line. */
  ghost predicate Schedule(env: seq<Glimpse>, started: real) {
    && (forall i :: 0 <= i < |env| - 1 ==> env[i].content <= env[i + 1].content)
    && (forall i :: 0 <= i < |env| - 1 ==> env[i].now + (if Idle(env, i) then 2.0 else 0.0) <= env[i + 1].now)
    && (env != [] ==> started <= env[0].now)
  }

  /** Pass i finds no complete line and the last one was taken too long ago. */
  predicate TimesOut(env: seq<Glimpse>, started: real, idleTimeout: real, i: nat)
    requires i < |env|
  {
    Idle(env, i) && env[i].now - LastActivity(env, started, i) > idleTimeout
  }

  /** How many passes in a row may find no complete line before one times out. */
  function Patience(idleTimeout: real): nat {
    if idleTimeout < 0.0 then 0 else (idleTimeout / 2.0).Floor + 1
  }

  /** The most passes that can go by without a timeout while n lines are taken. */
  function PassLimit(n: nat, idleTimeout: real): nat {
    n + (n + 1) * Patience(idleTimeout)
  }

  /** How many passes in a row before pass n found no complete line. */
  function IdleRun(env: seq<Glimpse>, n: nat): nat
    requires n <= |env|
  {
    if n == 0 || !Idle(env, n - 1) then 0 else IdleRun(env, n - 1) + 1
  }

  /** A run of idle passes takes two seconds for each sleep in it. */
  lemma {:induction false} IdleRunTakesTime(env: seq<Glimpse>, started: real, n: nat)
    requires n <= |env| && Schedule(env, started) && IdleRun(env, n) > 0
    ensures env[n - 1].now - LastActivity(env, started, n) >= 2.0 * (IdleRun(env, n) - 1) as real
    decreases n
  {
    hide CompleteLines;
    assert n >= 2 ==> env[n - 2].now + (if Idle(env, n - 2) then 2.0 else 0.0) <= env[n - 2 + 1].now;
    if IdleRun(env, n) <= 1 {
    } else {
      IdleRunTakesTime(env, started, n - 1);
    }
  }

  lemma IdleRunIsShort(env: seq<Glimpse>, started: real, idleTimeout: real, n: nat)
    requires n <= |env| && Schedule(env, started)
    requires forall i :: 0 <= i < n ==> !TimesOut(env, started, idleTimeout, i)
    ensures IdleRun(env, n) <= Patience(idleTimeout)
  {
    hide CompleteLines, Idle;
    if IdleRun(env, n) > 0 {
      IdleRunTakesTime(env, started, n);
      assert !TimesOut(env, started, idleTimeout, n - 1);
    }
  }

  /** n passes without a timeout are at most one for each line taken, and before, between and behind
      the lines at most as many idle ones as the timeout has patience for. */
  lemma {:induction false} PassesAreBounded(env: seq<Glimpse>, started: real, idleTimeout: real, n: nat)
    requires n <= |env| && Schedule(env, started)
    requires forall i :: 0 <= i < n ==> !TimesOut(env, started, idleTimeout, i)
    ensures n <= Taken(env, n) + Taken(env, n) * Patience(idleTimeout) + IdleRun(env, n)
    ensures n <= PassLimit(Taken(env, n), idleTimeout)
    decreases n
  {
    hide CompleteLines, Idle, Patience, Schedule, TimesOut;
    IdleRunIsShort(env, started, idleTimeout, n);
    if n == 0 {
    } else {
      PassesAreBounded(env, started, idleTimeout, n - 1);
      IdleRunIsShort(env, started, idleTimeout, n - 1);
      OneMoreGap(Taken(env, n - 1), Patience(idleTimeout));
    }
    OneMoreGap(Taken(env, n), Patience(idleTimeout));
  }

  lemma LogOnlyGrows(env: seq<Glimpse>, started: real, n: nat)
    requires n < |env| && Schedule(env, started)
    ensures n > 0 ==> env[n - 1].content <= env[n].content
  {
    assert n > 0 ==> env[n - 1].content <= env[n - 1 + 1].content;
  }

  lemma PassesAreLimited(env: seq<Glimpse>, started: real, idleTimeout: real, n: nat)
    requires n <= |env| && Schedule(env, started)
    requires forall i :: 0 <= i < n ==> !TimesOut(env, started, idleTimeout, i)
    ensures n <= PassLimit(Taken(env, n), idleTimeout)
    ensures idleTimeout >= 0.0 ==> n <= Taken(env, n) + (Taken(env, n) + 1) * ((idleTimeout / 2.0).Floor + 1)
    ensures idleTimeout < 0.0 ==> n <= Taken(env, n)
  {
    hide Schedule, TimesOut, PassLimit, Taken;
    PassesAreBounded(env, started, idleTimeout, n);
    LimitIs(Taken(env, n), idleTimeout);
  }

  lemma LimitIs(n: nat, idleTimeout: real)
    ensures PassLimit(n, idleTimeout)
            == n + (n + 1) * (if idleTimeout < 0.0 then 0 else (idleTimeout / 2.0).Floor + 1)
  {
  }

  lemma OneMoreGap(t: nat, p: nat)
    ensures (t + 1) * p == t * p + p
  {
  }

  lemma LimitGrows(n: nat, idleTimeout: real)
    ensures PassLimit(n, idleTimeout) < PassLimit(n + 1, idleTimeout)
  {
    hide Patience;
    OneMoreGap(n + 1, Patience(idleTimeout));
  }

  // ---------------------------------------------------------------- the loop

  /** The run that records are logged to. */
  class Run {
    var history: seq<Entry>

    constructor (history: seq<Entry>)
      ensures this.history == history
    {
      this.history := history;
    }

    method Log(e: Entry)
      modifies this
      ensures history == old(history) + [e]
    {
      history := history + [e];
    }
  }

  /** The part of the loop behind a complete line: forward its metric, then look for the end. */
  method HandleLine(run: Run, line: string, last: Marks) returns (next: Marks, status: Status)
    modifies run
    ensures run.history == old(run.history) + Handle(line, last).entries
    ensures next == Handle(line, last).marks && status == Handle(line, last).status
  {
    hide ParseLine, HasText;
    next := last;
    var metric := ParseMetric(line);
    match metric {
      case RoundedStep =>
        return next, BadStep;
      case NoMetric =>
      case Metric(mode, step, values) =>
        if step > next.Of(mode) {
          run.Log(Entry(mode, step, values));
          next := next.With(mode, step);
        }
    }
    if HasText(line, "End of training") {
      return next, Finished;
    }
    if HasText(line, "Traceback (most recent call last)") {
      return next, TrainingFailed;
    }
    status := Reading;
  }

  /** No line that was read is terminal, except the last one if the loop is over; the outcome is what
      that line says. */
  ghost predicate OverAsSaid(lines: seq<string>, outcome: Outcome) {
    if outcome.Over? then
      && lines != []
      && (forall i :: 0 <= i < |lines| - 1 ==> !Terminal(lines[i]))
      && Terminal(lines[|lines| - 1])
      && outcome.status == (if ParseLine(lines[|lines| - 1]) == RoundedStep then BadStep
                            else if Says(lines[|lines| - 1], "End of training") then Finished
                            else TrainingFailed)
    else forall i :: 0 <= i < |lines| ==> !Terminal(lines[i])
  }

  lemma OutcomeIsSaid(lines: seq<string>, marks: Marks, outcome: Outcome)
    requires Deliver(lines, marks).status == if outcome.Over? then outcome.status else Reading
    requires outcome.Over? ==> outcome.status != Reading && lines != []
                               && Deliver(lines[..|lines| - 1], marks).status == Reading
    ensures OverAsSaid(lines, outcome)
  {
    hide Deliver, Terminal, ParseLine, Says;
    StatusSays(lines, marks);
  }

  /** Reads the log to its end, or until the glimpses are used up.  "lines" are the complete lines
      that were handed to ParseMetric, "passes" counts the passes through the loop. */
  method Follow(source: LogFile, run: Run, env: seq<Glimpse>, started: real, idleTimeout: real)
    returns (outcome: Outcome, passes: nat, ghost lines: seq<string>)
    requires source.cursor == 0 && source.content == ""
    requires Schedule(env, started)
    modifies source, run
    ensures passes <= |env| && (passes == 0 ==> source.content == "")
    ensures passes > 0 ==> source.content == env[passes - 1].content
    // Each complete line is handed over once, in order; the cursor stands behind the last of them.
    ensures ReadUpTo(source.content, source.cursor, lines, Taken(env, passes))
    // What is forwarded depends on the lines only.
    ensures var done := Deliver(lines, ResumeMarks(old(run.history)));
            && run.history == old(run.history) + done.entries
            && done.status == if outcome.Over? then outcome.status else Reading
    ensures run.history == Received(old(run.history), Session(source.content, |lines|, |run.history|))
    ensures outcome.Over? ==> lines != []
                              && Deliver(lines[..|lines| - 1], ResumeMarks(old(run.history))).status == Reading
    // It is over exactly with the first line that has only a rounded step or says how the training ended.
    ensures OverAsSaid(lines, outcome)
    // The loop times out at the first pass that is due, and nowhere else.
    ensures forall i :: 0 <= i < passes - 1 ==> !TimesOut(env, started, idleTimeout, i)
    ensures passes > 0 ==> (outcome == IdleTimeout <==> TimesOut(env, started, idleTimeout, passes - 1))
    ensures outcome == Running ==> passes == |env|
    ensures passes == 0 ==> outcome == Running
    // And it ends: while the clock moves, it cannot go on for longer than this.
    ensures passes <= PassLimit(|lines|, idleTimeout) + 1
    ensures outcome == Running ==> |env| <= PassLimit(|lines|, idleTimeout)
  {
    hide CompleteLines, LineAtHead, ResumeMarks, Deliver, Handle, PassLimit, ReadUpTo, Schedule;
    hide Taken, Idle, LastActivity, TimesOut, OverAsSaid, Received;
    ghost var before := run.history;
    var last := ResumeMarks(run.history);
    var activity := started;
    passes, lines := 0, [];
    ghost var first := last;
    NothingRead();
    NothingDelivered(first);
    NoPass(env, started);
    while passes < |env|
      invariant passes <= |env|
      invariant passes == 0 ==> source.content == ""
      invariant passes > 0 ==> source.content == env[passes - 1].content
      invariant ReadUpTo(source.content, source.cursor, lines, Taken(env, passes))
      invariant old(run.history) <= run.history
      invariant Deliver(lines, first) == Delivered(run.history[|old(run.history)|..], last, Reading)
      invariant activity == LastActivity(env, started, passes)
      invariant forall i :: 0 <= i < passes ==> !TimesOut(env, started, idleTimeout, i)
    {
      var now := env[passes].now;
      PassesAreLimited(env, started, idleTimeout, passes);
      OnePass(env, started, idleTimeout, passes);
      ghost var taken := Taken(env, passes);
      LogOnlyGrows(env, started, passes);
      ReadOn(source.content, env[passes].content, source.cursor, lines, taken);
      source.Grow(env[passes].content);
      passes := passes + 1;
      var position := source.cursor;
      var line := source.ReadLine();
      if line == "" || line[|line| - 1] != '\n' {
        source.Seek(position);
        if now - activity > idleTimeout {
          outcome := IdleTimeout;
          OutcomeIsSaid(lines, first, outcome);
          TakenAre(source.content, source.cursor, lines, taken, before, |run.history|);
          return;
        }
        continue;
      }
      activity := now;
      ghost var earlier := lines;
      lines := lines + [line];
      assert lines[..|lines| - 1] == earlier;
      DeliverOneMore(earlier, line, first);
      var status;
      last, status := HandleLine(run, line, last);
      if status != Reading {
        LimitGrows(taken, idleTimeout);
        TakenAre(source.content, source.cursor, lines, taken + 1, before, |run.history|);
        outcome := Over(status);
        OutcomeIsSaid(lines, first, outcome);
        return;
      }
    }
    PassesAreLimited(env, started, idleTimeout, passes);
    TakenAre(source.content, source.cursor, lines, Taken(env, passes), before, |run.history|);
    outcome := Running;
    OutcomeIsSaid(lines, first, outcome);
  }

  lemma NoPass(env: seq<Glimpse>, started: real)
    ensures Taken(env, 0) == 0 && LastActivity(env, started, 0) == started
  {
  }

  /** What one more pass changes. */
  lemma OnePass(env: seq<Glimpse>, started: real, idleTimeout: real, n: nat)
    requires n < |env|
    ensures var idle := |CompleteLines(env[n].content)| <= Taken(env, n);
            && Taken(env, n + 1) == Taken(env, n) + (if idle then 0 else 1)
            && LastActivity(env, started, n + 1) == (if idle then LastActivity(env, started, n) else env[n].now)
            && TimesOut(env, started, idleTimeout, n)
               == (idle && env[n].now - LastActivity(env, started, n) > idleTimeout)
  {
    hide CompleteLines;
  }

  lemma NothingDelivered(marks: Marks)
    ensures Deliver([], marks) == Delivered([], marks, Reading)
  {
  }

  lemma TakenAre(content: string, cursor: nat, lines: seq<string>, taken: nat, before: seq<Entry>, kept: nat)
    requires ReadUpTo(content, cursor, lines, taken)
    ensures |lines| == taken <= |CompleteLines(content)| && lines == CompleteLines(content)[..|lines|]
    ensures Received(before, Session(content, |lines|, kept)) == before + Deliver(lines, ResumeMarks(before)).entries
  {
    hide CompleteLines, Deliver, ResumeMarks;
  }
}
