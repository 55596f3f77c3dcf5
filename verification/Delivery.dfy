/** What the follower forwards (scripts/stream_smolvla_wandb.py:86-112): the per-mode filter, the
    record it logs, the summary it resumes from, and exactly-once delivery over crashes. */
module Delivery {
  import opened Wrappers
  import opened MetricFacts
  import opened MetricParser
  import opened LogTail

  // ---------------------------------------------------------------- one pass over the lines

  /** A metric that was forwarded. */
  datatype Entry = Entry(mode: Mode, step: nat, values: map<string, real>)

  /** The dictionary "last", which has exactly these two keys: the last forwarded step by mode. */
  datatype Marks = Marks(train: int, eval: int)
  {
    function Of(mode: Mode): int {
      match mode
      case Train => train
      case Eval => eval
    }

    function With(mode: Mode, step: int): Marks {
      match mode
      case Train => this.(train := step)
      case Eval => this.(eval := step)
    }
  }

  const FRESH := Marks(-1, -1)

  datatype Status = Reading | Finished | TrainingFailed | BadStep

  datatype Delivered = Delivered(entries: seq<Entry>, marks: Marks, status: Status)

  predicate HasText(line: string, part: string) {
    exists i :: 0 <= i <= |line| && part <= line[i..]
  }

  /** What the line says about the training, apart from its metric. */
  function Ending(line: string): Status {
    if HasText(line, "End of training") then Finished
    else if HasText(line, "Traceback (most recent call last)") then TrainingFailed
    else Reading
  }

  /** One complete line: forward its metric if its step is new, then look for the end. */
  function Handle(line: string, marks: Marks): Delivered {
    match ParseLine(line)
    case RoundedStep => Delivered([], marks, BadStep)
    case NoMetric => Delivered([], marks, Ending(line))
    case Metric(mode, step, values) =>
      if step > marks.Of(mode) then Delivered([Entry(mode, step, values)], marks.With(mode, step), Ending(line))
      else Delivered([], marks, Ending(line))
  }

  /** The lines in order, up to the first that ends the reading. */
  function Deliver(lines: seq<string>, marks: Marks): Delivered {
    if lines == [] then Delivered([], marks, Reading)
    else
      var first := Handle(lines[0], marks);
      if first.status != Reading then first
      else
        var rest := Deliver(lines[1..], first.marks);
        Delivered(first.entries + rest.entries, rest.marks, rest.status)
  }

  /** Handling one more line behind lines that did not end the reading. */
  lemma {:induction false} DeliverOneMore(lines: seq<string>, line: string, marks: Marks)
    ensures var done := Deliver(lines, marks);
            var more := Handle(line, done.marks);
            Deliver(lines + [line], marks) ==
            if done.status != Reading then done
            else Delivered(done.entries + more.entries, more.marks, more.status)
  {
    hide Handle;
    if lines == [] {
      assert [] + [line] == [line] && [line][1..] == [];
    } else {
      assert (lines + [line])[0] == lines[0] && (lines + [line])[1..] == lines[1..] + [line];
      DeliverOneMore(lines[1..], line, Handle(lines[0], marks).marks);
    }
  }

  lemma {:induction false} DeliverParts(lines: seq<string>, more: seq<string>, marks: Marks)
    ensures var done := Deliver(lines, marks);
            var rest := Deliver(more, done.marks);
            Deliver(lines + more, marks) ==
            if done.status != Reading then done
            else Delivered(done.entries + rest.entries, rest.marks, rest.status)
  {
    hide Handle;
    if lines == [] {
      assert [] + more == more;
    } else {
      assert (lines + more)[0] == lines[0] && (lines + more)[1..] == lines[1..] + more;
      DeliverParts(lines[1..], more, Handle(lines[0], marks).marks);
    }
  }

  /** Reading on never takes back an entry. */
  lemma DeliverGrows(lines: seq<string>, longer: seq<string>, marks: Marks)
    requires lines <= longer
    ensures Deliver(lines, marks).entries <= Deliver(longer, marks).entries
    ensures Deliver(lines, marks).status != Reading ==> Deliver(longer, marks) == Deliver(lines, marks)
  {
    hide Deliver;
    assert longer == lines + longer[|lines|..];
    DeliverParts(lines, longer[|lines|..], marks);
  }

  /** Independence from timing: two followers that end on the same growing log, however they were
      scheduled, have handled the same lines, forwarded the same entries and end the same way. */
  lemma EndsAgree(log: seq<string>, m: nat, n: nat, marks: Marks)
    requires 0 < m <= |log| && 0 < n <= |log|
    requires Deliver(log[..m], marks).status != Reading && Deliver(log[..m - 1], marks).status == Reading
    requires Deliver(log[..n], marks).status != Reading && Deliver(log[..n - 1], marks).status == Reading
    ensures m == n && Deliver(log[..m], marks) == Deliver(log, marks)
  {
    hide Deliver;
    DeliverGrows(log[..m], log, marks);
    if m < n {
      DeliverGrows(log[..m], log[..n - 1], marks);
    } else if n < m {
      DeliverGrows(log[..n], log[..m - 1], marks);
    }
  }

  // ---------------------------------------------------------------- the batch reference

  predicate Stops(line: string) {
    ParseLine(line) == RoundedStep || Ending(line) != Reading
  }

  /** The lines up to and including the first that ends the reading. */
  function Heard(lines: seq<string>): seq<string> {
    if lines == [] then []
    else if Stops(lines[0]) then [lines[0]]
    else [lines[0]] + Heard(lines[1..])
  }

  /** The metric of a line, if it has one. */
  function MetricOf(line: string): seq<Entry> {
    match ParseLine(line)
    case Metric(mode, step, values) => [Entry(mode, step, values)]
    case _ => []
  }

  /** The metrics of the lines in order. */
  function Metrics(lines: seq<string>): seq<Entry> {
    if lines == [] then []
    else
      var n := |lines| - 1;
      Metrics(lines[..n]) + MetricOf(lines[n])
  }

  /** What splitlines() makes of the text. */
  function DryLines(text: string): seq<string>
    decreases |text|
  {
    var n := LineLen(text);
    if n < |text| then [text[..n]] + DryLines(text[n + 1..])
    else if text == "" then []
    else [text]
  }

  /** The metrics listed by the dry run; a rounded step ends it with an error. */
  function Listed(lines: seq<string>): Option<seq<Entry>> {
    if lines == [] then Some([])
    else if ParseLine(lines[0]) == RoundedStep then None
    else match Listed(lines[1..])
         case None => None
         case Some(rest) => Some(MetricOf(lines[0]) + rest)
  }

  function DryRun(text: string): Option<seq<Entry>> {
    Listed(DryLines(text))
  }

  /** The lines of the text as the follower would read them if the last one were complete. */
  function AllLines(text: string): seq<string> {
    CompleteLines(text) + if Unfinished(text) == "" then [] else [Unfinished(text)]
  }

  lemma {:induction false} MetricsFirst(line: string, lines: seq<string>)
    ensures Metrics([line] + lines) == MetricOf(line) + Metrics(lines)
    decreases |lines|
  {
    hide MetricOf;
    if lines == [] {
      assert [line] + [] == [line] && [line][..0] == [];
      assert Metrics([line]) == Metrics([]) + MetricOf(line);
    } else {
      var n := |lines| - 1;
      assert ([line] + lines)[..n + 1] == [line] + lines[..n];
      MetricsFirst(line, lines[..n]);
    }
  }

  /** The dry run splits the text into lines without their newline; the follower parses them with it.
      Every complete line gives the same result both ways. */
  lemma DryLineAgrees(text: string)
    requires LineLen(text) < |text|
    ensures var n := LineLen(text);
            ParseLine(text[..n + 1]) == ParseLine(text[..n]) && MetricOf(text[..n + 1]) == MetricOf(text[..n])
  {
    hide ParseLine, LineLen;
    var n := LineLen(text);
    NewlineBehind(text, n);
    NewlineIsInert(text[..n]);
  }

  lemma NewlineBehind(text: string, n: nat)
    requires n < |text| && text[n] == '\n'
    ensures text[..n + 1] == text[..n] + "\n"
  {
  }

  ghost predicate AnyRounded(lines: seq<string>) {
    exists i :: 0 <= i < |lines| && ParseLine(lines[i]) == RoundedStep
  }

  lemma AnyRoundedFirst(line: string, lines: seq<string>)
    ensures AnyRounded([line] + lines) <==> ParseLine(line) == RoundedStep || AnyRounded(lines)
  {
    hide ParseLine;
    var all := [line] + lines;
    assert all[0] == line && forall i :: 0 <= i < |lines| ==> lines[i] == all[i + 1];
  }

  lemma AllLinesFirst(text: string)
    ensures var n := LineLen(text);
            && (n < |text| ==> AllLines(text) == [text[..n + 1]] + AllLines(text[n + 1..]))
            && (n == |text| ==> AllLines(text) == DryLines(text))
  {
    hide LineLen, CompleteLines, Unfinished;
    LinesFirst(text);
    UnfinishedFirst(text);
    var n := LineLen(text);
    if n < |text| {
      var rest := text[n + 1..];
      JoinedFirst(text[..n + 1], CompleteLines(rest), if Unfinished(rest) == "" then [] else [Unfinished(rest)]);
    }
  }

  lemma JoinedFirst(line: string, lines: seq<string>, more: seq<string>)
    ensures ([line] + lines) + more == [line] + (lines + more)
  {
  }

  lemma {:induction false} ListedFirst(line: string, lines: seq<string>)
    ensures Listed([line] + lines) == if ParseLine(line) == RoundedStep then None
                                      else match Listed(lines)
                                           case None => None
                                           case Some(rest) => Some(MetricOf(line) + rest)
  {
    hide ParseLine, MetricOf;
    assert ([line] + lines)[1..] == lines;
  }

  lemma ListedOne(lines: seq<string>)
    requires |lines| <= 1
    ensures Listed(lines) == if AnyRounded(lines) then None else Some(Metrics(lines))
  {
    hide ParseLine, MetricOf;
    if lines == [] {
    } else {
      assert lines == [lines[0]] + [] && lines[1..] == [] && lines[..0] == [];
      assert MetricOf(lines[0]) + [] == MetricOf(lines[0]) == [] + MetricOf(lines[0]);
    }
  }

  /** On every text the dry run lists the metrics of all its lines, the unfinished last one included;
      it fails exactly when one of them has only a rounded step. */
  lemma {:induction false} DryRunIsBatch(text: string)
    ensures DryRun(text) == if AnyRounded(AllLines(text)) then None else Some(Metrics(AllLines(text)))
    decreases |text|
  {
    hide ParseLine, MetricOf, AllLines, Listed, AnyRounded, Metrics, LineLen;
    var n := LineLen(text);
    AllLinesFirst(text);
    if n < |text| {
      var line, rest := text[..n + 1], text[n + 1..];
      DryRunIsBatch(rest);
      DryLineAgrees(text);
      ListedFirst(text[..n], DryLines(rest));
      AnyRoundedFirst(line, AllLines(rest));
      MetricsFirst(line, AllLines(rest));
    } else {
      ListedOne(DryLines(text));
    }
  }

  /** The step is larger than every earlier step of its mode. */
  predicate SetsMaximum(ms: seq<Entry>, k: nat)
    requires k < |ms|
  {
    forall j :: 0 <= j < k && ms[j].mode == ms[k].mode ==> ms[j].step < ms[k].step
  }

  function RunningMaxima(ms: seq<Entry>): seq<Entry> {
    if ms == [] then []
    else
      var n := |ms| - 1;
      RunningMaxima(ms[..n]) + if SetsMaximum(ms, n) then [ms[n]] else []
  }

  /** The marks are the largest steps seen, or -1. */
  ghost predicate MarksAreMaxima(marks: Marks, ms: seq<Entry>) {
    && (forall j :: 0 <= j < |ms| ==> ms[j].step <= marks.Of(ms[j].mode))
    && (forall mode :: marks.Of(mode) >= 0 ==>
          exists j :: 0 <= j < |ms| && ms[j].mode == mode && ms[j].step == marks.Of(mode))
    && (forall mode :: marks.Of(mode) >= -1)
  }

  lemma DeliverHeard(lines: seq<string>, marks: Marks)
    ensures Deliver(Heard(lines), marks) == Deliver(lines, marks)
  {
    hide ParseLine, Ending;
    if lines == [] || Stops(lines[0]) {
    } else {
      DeliverHeard(lines[1..], Handle(lines[0], marks).marks);
      assert Heard(lines)[0] == lines[0] && Heard(lines)[1..] == Heard(lines[1..]);
    }
  }

  lemma HeardStopsLast(lines: seq<string>, i: nat)
    requires i + 1 < |Heard(lines)|
    ensures !Stops(Heard(lines)[i])
  {
    hide Stops;
    if i == 0 {
    } else {
      HeardStopsLast(lines[1..], i - 1);
    }
  }

  lemma MaximaOneMore(ms: seq<Entry>, e: Entry)
    ensures RunningMaxima(ms + [e]) == RunningMaxima(ms) + if SetsMaximum(ms + [e], |ms|) then [e] else []
  {
    assert (ms + [e])[..|ms|] == ms;
  }

  lemma MetricsOneMore(lines: seq<string>, line: string)
    ensures Metrics(lines + [line]) == Metrics(lines) + MetricOf(line)
  {
    hide ParseLine;
    assert (lines + [line])[..|lines|] == lines;
  }

  /** Under lines that do not end the reading before the last one, the filter is the running maximum. */
  lemma {:induction false} DeliverMaxima(lines: seq<string>)
    requires forall i :: 0 <= i < |lines| - 1 ==> !Stops(lines[i])
    ensures Deliver(lines, FRESH).entries == RunningMaxima(Metrics(lines))
    ensures MarksAreMaxima(Deliver(lines, FRESH).marks, Metrics(lines))
    ensures (forall i :: 0 <= i < |lines| ==> !Stops(lines[i])) ==> Deliver(lines, FRESH).status == Reading
  {
    hide ParseLine, Ending, RunningMaxima, Metrics, Deliver;
    if lines == [] {
      NothingDelivered();
    } else {
      var n := |lines| - 1;
      DeliverMaxima(lines[..n]);
      assert lines == lines[..n] + [lines[n]];
      DeliverOneMore(lines[..n], lines[n], FRESH);
      MetricsOneMore(lines[..n], lines[n]);
      HandleMaximum(lines[n], Deliver(lines[..n], FRESH).marks, Metrics(lines[..n]));
    }
  }

  lemma NothingDelivered()
    ensures Deliver([], FRESH) == Delivered([], FRESH, Reading) && RunningMaxima([]) == [] && Metrics([]) == []
  {
  }

  lemma MarksOneMore(marks: Marks, ms: seq<Entry>, e: Entry)
    requires MarksAreMaxima(marks, ms)
    ensures MarksAreMaxima(if e.step > marks.Of(e.mode) then marks.With(e.mode, e.step) else marks, ms + [e])
  {
    var next := if e.step > marks.Of(e.mode) then marks.With(e.mode, e.step) else marks;
    var now := ms + [e];
    assert now[|ms|] == e;
    forall j | 0 <= j < |now|
      ensures now[j].step <= next.Of(now[j].mode)
    {
      assert j < |ms| ==> now[j] == ms[j];
    }
    assert forall mode :: marks.Of(mode) <= next.Of(mode);
    forall mode | next.Of(mode) >= 0
      ensures exists j :: 0 <= j < |now| && now[j].mode == mode && now[j].step == next.Of(mode)
    {
      if next.Of(mode) == marks.Of(mode) {
        var j :| 0 <= j < |ms| && ms[j].mode == mode && ms[j].step == marks.Of(mode);
        assert now[j] == ms[j];
      } else {
        assert now[|ms|].mode == mode && now[|ms|].step == next.Of(mode);
      }
    }
  }

  lemma HandleMaximum(line: string, marks: Marks, ms: seq<Entry>)
    requires MarksAreMaxima(marks, ms)
    ensures var now := ms + MetricOf(line);
            && MarksAreMaxima(Handle(line, marks).marks, now)
            && RunningMaxima(now) == RunningMaxima(ms) + Handle(line, marks).entries
  {
    hide ParseLine, Ending, RunningMaxima;
    match ParseLine(line)
    case RoundedStep =>
      assert ms + [] == ms;
    case NoMetric =>
      assert ms + [] == ms;
    case Metric(mode, step, values) =>
      var e := Entry(mode, step, values);
      var now := ms + [e];
      MaximaOneMore(ms, e);
      MarksOneMore(marks, ms, e);
      assert forall j :: 0 <= j < |ms| ==> now[j] == ms[j];
      assert now[|ms|] == e;
      assert SetsMaximum(now, |ms|) <==> step > marks.Of(mode);
  }

  /** How a line that stops the reading ends it. */
  function StopStatus(line: string): Status {
    if ParseLine(line) == RoundedStep then BadStep else Ending(line)
  }

  lemma HandleStops(line: string, marks: Marks)
    ensures Handle(line, marks).status == StopStatus(line)
    ensures Stops(line) <==> StopStatus(line) != Reading
  {
    hide ParseLine, Ending;
  }

  /** The first of the lines that stops the reading. */
  predicate FirstStop(lines: seq<string>, i: nat) {
    i < |lines| && Stops(lines[i]) && forall h :: 0 <= h < i ==> !Stops(lines[h])
  }

  /** The reading ends in the way of the first line that stops it, whatever the marks were. */
  lemma {:induction false} DeliverEndsAtStop(lines: seq<string>, i: nat, marks: Marks)
    requires FirstStop(lines, i)
    ensures Deliver(lines, marks).status == StopStatus(lines[i]) != Reading
    decreases i
  {
    hide Handle, StopStatus, Stops;
    HandleStops(lines[0], marks);
    HandleStops(lines[i], marks);
    if i == 0 {
    } else {
      assert lines[1..][i - 1] == lines[i];
      DeliverEndsAtStop(lines[1..], i - 1, Handle(lines[0], marks).marks);
    }
  }

  /** Without such a line it goes on. */
  lemma {:induction false} DeliverReadsOn(lines: seq<string>, marks: Marks)
    requires forall i :: 0 <= i < |lines| ==> !Stops(lines[i])
    ensures Deliver(lines, marks).status == Reading
  {
    hide Handle, StopStatus, Stops;
    if lines == [] {
    } else {
      HandleStops(lines[0], marks);
      DeliverReadsOn(lines[1..], Handle(lines[0], marks).marks);
    }
  }

  /** What is forwarded is what the dry run lists for the lines that are heard, reduced to the steps
      that set a new maximum of their mode. */
  lemma DeliverIsRunningMaxima(lines: seq<string>)
    ensures Deliver(lines, FRESH).entries == RunningMaxima(Metrics(Heard(lines)))
  {
    hide Deliver, Heard, Metrics, RunningMaxima, Stops;
    DeliverHeard(lines, FRESH);
    forall i | 0 <= i < |Heard(lines)| - 1
      ensures !Stops(Heard(lines)[i])
    {
      HeardStopsLast(lines, i);
    }
    DeliverMaxima(Heard(lines));
  }

  /** On a finished log without errors, the follower forwards the dry run's list, reduced to the steps
      that set a new maximum of their mode. */
  lemma FollowerMatchesDryRun(text: string)
    requires var lines := CompleteLines(text);
             && Unfinished(text) == ""
             && (forall i :: 0 <= i < |lines| - 1 ==> !Stops(lines[i]))
             && (lines != [] ==> ParseLine(lines[|lines| - 1]) != RoundedStep)
    ensures DryRun(text).Some? && Deliver(CompleteLines(text), FRESH).entries == RunningMaxima(DryRun(text).value)
  {
    hide ParseLine, Deliver, CompleteLines, Metrics, RunningMaxima, DryRun, Ending;
    var lines := CompleteLines(text);
    assert AllLines(text) == lines;
    DryRunIsBatch(text);
    DeliverMaxima(lines);
    forall i | 0 <= i < |lines|
      ensures ParseLine(lines[i]) != RoundedStep
    {
      assert i < |lines| - 1 ==> !Stops(lines[i]);
    }
  }

  // ---------------------------------------------------------------- the sink and resuming from it

  function ModeName(mode: Mode): string {
    match mode
    case Train => "train"
    case Eval => "eval"
  }

  function StepKey(mode: Mode): string {
    "forwarder/" + ModeName(mode) + "_step"
  }

  /** The dictionary given to run.log. */
  function Logged(e: Entry): map<string, real> {
    e.values[ModeName(e.mode) + "/step" := e.step as real][StepKey(e.mode) := e.step as real]
  }

  /** The summary of a run: the last logged value of every key. */
  function Summary(history: seq<Entry>): map<string, real> {
    if history == [] then map[] else Summary(history[..|history| - 1]) + Logged(history[|history| - 1])
  }

  function ResumeStep(history: seq<Entry>, mode: Mode): int {
    if StepKey(mode) in Summary(history) then Summary(history)[StepKey(mode)].Floor else -1
  }

  /** The marks a follower starts with. */
  function ResumeMarks(history: seq<Entry>): Marks {
    Marks(ResumeStep(history, Train), ResumeStep(history, Eval))
  }

  /** The values of an entry do not touch the forwarder's own keys. */
  ghost predicate Plain(e: Entry) {
    forall mode :: StepKey(mode) !in e.values
  }

  /** The marks after the entries, starting from the given marks. */
  function MarksAfter(marks: Marks, entries: seq<Entry>): Marks {
    if entries == [] then marks
    else
      var n := |entries| - 1;
      MarksAfter(marks, entries[..n]).With(entries[n].mode, entries[n].step)
  }

  lemma StepKeysDiffer()
    ensures StepKey(Train) == "forwarder/train_step" && StepKey(Eval) == "forwarder/eval_step"
    ensures StepKey(Train) != StepKey(Eval)
    ensures forall mode :: StepKey(mode) != "" && StepKey(mode)[0] == 'f'
  {
    assert StepKey(Train)[10] == 't';
    assert StepKey(Train) == "forwarder/train_step" && StepKey(Eval) == "forwarder/eval_step";
    forall mode
      ensures StepKey(mode) != "" && StepKey(mode)[0] == 'f'
    {
      match mode
      case Train =>
      case Eval =>
    }
  }

  /** What is logged, key by key: the values of the metric, and its step under two names. */
  lemma LoggedIs(e: Entry)
    ensures e.mode == Train ==>
              Logged(e) == e.values + map["train/step" := e.step as real, "forwarder/train_step" := e.step as real]
    ensures e.mode == Eval ==>
              Logged(e) == e.values + map["eval/step" := e.step as real, "forwarder/eval_step" := e.step as real]
  {
    hide StepKey;
    StepKeysDiffer();
    StepNames();
  }

  lemma StepNames()
    ensures ModeName(Train) + "/step" == "train/step" && ModeName(Eval) + "/step" == "eval/step"
  {
  }

  /** The summary holds, for each mode, the step of the last entry of that mode. */
  lemma {:induction false} SummaryIsLast(history: seq<Entry>)
    requires forall e :: e in history ==> Plain(e)
    ensures ResumeMarks(history) == MarksAfter(FRESH, history)
  {
    hide StepKey;
    if history == [] {
    } else {
      var n := |history| - 1;
      SummaryIsLast(history[..n]);
      LoggedSteps(history[n]);
      assert Summary(history) == Summary(history[..n]) + Logged(history[n]);
      StepKeysDiffer();
    }
  }

  lemma LoggedSteps(e: Entry)
    requires Plain(e)
    ensures forall mode :: StepKey(mode) in Logged(e) <==> mode == e.mode
    ensures Logged(e)[StepKey(e.mode)] == e.step as real
  {
    StepKeysDiffer();
    assert (ModeName(e.mode) + "/step")[0] != 'f';
    forall mode
      ensures StepKey(mode) in Logged(e) <==> mode == e.mode
    {
      match mode
      case Train =>
      case Eval =>
    }
  }
}
