/** Lines written out in full, and what parse_metric reads in them: where a pattern may start, the
    progress display, and the evaluation line (scripts/stream_smolvla_wandb.py:28, 36 and 41). */
module LineForms {
  import opened Wrappers
  import opened Regex
  import opened NumberScan
  import opened NumberValue
  import opened MetricLine
  import opened MetricParser
  import opened TrackerLine

  /** The three patterns match exactly where their text does, at the start of a line or behind a
      character that is no word character. */
  lemma HitsAtWordStart(line: string, p: nat)
    requires p <= |line|
    ensures Hit(line, p, TrainOf) == if p == 0 || !IsWord(line[p - 1]) then TrainOf(line[p..]) else None
    ensures Hit(line, p, ProgressOf) == if p == 0 || !IsWord(line[p - 1]) then ProgressOf(line[p..]) else None
    ensures Hit(line, p, EvalOf) == if p == 0 || !IsWord(line[p - 1]) then EvalOf(line[p..]) else None
  {
    hide Class.Run, NumberLen, StepLen;
    TrainStarts(line[p..]);
    ProgressStarts(line[p..]);
    EvalStarts(line[p..]);
  }

  lemma TrainStarts(u: string)
    ensures TrainOf(u).Some? ==> u != "" && IsWord(u[0])
  {
    hide StepLen, Class.Run;
  }

  lemma ProgressStarts(u: string)
    ensures ProgressOf(u).Some? ==> u != "" && IsWord(u[0])
  {
  }

  lemma EvalStarts(u: string)
    ensures EvalOf(u).Some? ==> u != "" && IsWord(u[0])
  {
    hide NumberLen, Class.Run;
  }

  // ---------------------------------------------------------------- the progress display

  /** What stands in front of a display ends in no word character and holds no slash. */
  predicate NoDisplay(head: string) {
    && (head == "" || !IsWord(head[|head| - 1]))
    && (forall i :: 0 <= i < |head| ==> head[i] != '/')
  }

  /** A display as tqdm prints it. */
  function Display(done: string, total: string, gap: string): string {
    done + ("/" + (total + (gap + "[")))
  }

  predicate IsDisplay(done: string, total: string, gap: string) {
    && done != "" && Digit.HasAll(done)
    && total != "" && Digit.HasAll(total)
    && gap != "" && Space.HasAll(gap)
  }

  lemma RunThen(cls: Class, a: string, rest: string)
    requires cls.HasAll(a) && rest != "" && !cls.Has(rest[0])
    ensures cls.Run(a + rest) == |a| && (a + rest)[..|a|] == a && (a + rest)[|a|..] == rest
  {
    hide Class.Run;
    assert (a + rest)[..|a|] == a;
    cls.RunIs(a + rest, |a|);
  }

  lemma DisplayHits(done: string, total: string, gap: string, behind: string)
    requires IsDisplay(done, total, gap)
    ensures ProgressOf(Display(done, total, gap) + behind) == Some(done)
  {
    hide Class.Run, Class.HasAll;
    var open := "[" + behind;
    var w := gap + open;
    var v := total + w;
    Regrouped(done, total, gap, behind);
    RunThen(Digit, done, "/" + v);
    assert (done + ("/" + v))[|done| + 1..] == v;
    SpacesFirst(gap, open);
    RunThen(Digit, total, w);
    RunThen(Space, gap, open);
  }

  lemma SpacesFirst(gap: string, rest: string)
    requires gap != "" && Space.HasAll(gap)
    ensures (gap + rest)[0] == gap[0] && IsSpace(gap[0]) && !IsDigit(gap[0])
  {
  }

  lemma Regrouped(done: string, total: string, gap: string, behind: string)
    ensures Display(done, total, gap) + behind == done + ("/" + (total + (gap + ("[" + behind))))
  {
  }

  /** A run of digits in front of a slash cannot start inside the head. */
  lemma NoHitInside(head: string, done: string, rest: string, p: nat)
    requires NoDisplay(head) && p < |head| && Digit.HasAll(done)
    requires rest != "" && rest[0] == '/'
    ensures ProgressOf((head + (done + rest))[p..]) == None
  {
    hide Class.Run;
    var line := head + (done + rest);
    var u := line[p..];
    var a := Digit.Run(u);
    Digit.HasAllBelow(u, a);
    var q := |head| - 1 - p;
    assert u[q] == head[|head| - 1];
    assert a <= q;
    assert u[a] == head[p + a];
  }

  /** The first progress display of a line gives the step: int() of its digits. */
  lemma DisplayIsFound(head: string, done: string, total: string, gap: string, behind: string)
    requires NoDisplay(head) && IsDisplay(done, total, gap)
    ensures Search(head + (Display(done, total, gap) + behind), ProgressOf) == Some(done)
  {
    hide Class.Run, ProgressOf, Search, Boundary, NoDisplay, IsDisplay;
    var line := head + (Display(done, total, gap) + behind);
    DisplayHits(done, total, gap, behind);
    DisplayStarts(head, done, total, gap, behind);
    forall p | 0 <= p < |head|
      ensures Hit(line, p, ProgressOf) == None
    {
      DisplayStarts(head, done, total, gap, behind);
      NoHitInside(head, done, ("/" + (total + (gap + ("[" + behind)))), p);
    }
    SearchAt(line, |head|, ProgressOf);
  }

  lemma DisplayStarts(head: string, done: string, total: string, gap: string, behind: string)
    requires NoDisplay(head) && IsDisplay(done, total, gap)
    ensures Digit.HasAll(done)
    ensures var line := head + (Display(done, total, gap) + behind);
            && line == head + (done + ("/" + (total + (gap + ("[" + behind)))))
            && line[|head|..] == Display(done, total, gap) + behind
            && |head| < |line| && Boundary(line, |head|)
  {
    Regrouped(done, total, gap, behind);
    var line := head + (Display(done, total, gap) + behind);
    assert line[|head|] == done[0];
  }

  // ---------------------------------------------------------------- the evaluation line

  /** A line that carries an evaluation loss, at its first "step ". */
  predicate CarriesEvaluation(line: string, head: string, step: nat, loss: Shown, behind: string) {
    && loss.Fixed?
    && line == head + ("step " + (DigitText(step) + (": eval_loss=" + (loss.NumberText() + behind))))
    && (behind == "" || !IsNumberChar(behind[0]))
    && (head == "" || !IsWord(head[|head| - 1]))
    && (forall p :: 0 <= p < |head| ==> !("step " <= line[p..]))
  }

  lemma EvaluationHits(step: nat, loss: Shown, behind: string)
    requires loss.Fixed? && (behind == "" || !IsNumberChar(behind[0]))
    ensures EvalOf("step " + (DigitText(step) + (": eval_loss=" + (loss.NumberText() + behind))))
            == Some(EvalHit(DigitText(step), loss.NumberText()))
  {
    hide Class.Run, NumberLen, DigitText, Shown.NumberText, Shown.Value, Amount;
    var t := loss.NumberText() + behind;
    var v := ": eval_loss=" + t;
    var w := DigitText(step) + v;
    var u := "step " + w;
    assert u[5..] == w;
    RunThen(Digit, DigitText(step), v);
    assert v[12..] == t;
    ShownReadsBack(loss);
    NumberLenLocal(loss.NumberText(), behind);
    assert t[..|loss.NumberText()|] == loss.NumberText();
  }

  lemma EvaluationIsFound(line: string, head: string, step: nat, loss: Shown, behind: string)
    requires CarriesEvaluation(line, head, step, loss, behind)
    ensures Search(line, EvalOf) == Some(EvalHit(DigitText(step), loss.NumberText()))
  {
    hide DigitText, Shown.NumberText, EvalOf, Search;
    EvaluationHits(step, loss, behind);
    var u := "step " + (DigitText(step) + (": eval_loss=" + (loss.NumberText() + behind)));
    assert line[|head|..] == u && line[|head|] == 's';
    forall p | 0 <= p < |head|
      ensures Hit(line, p, EvalOf) == None
    {
      NoEvaluation(line[p..]);
    }
    SearchAt(line, |head|, EvalOf);
  }

  lemma NoEvaluation(u: string)
    requires !("step " <= u)
    ensures EvalOf(u) == None
  {
  }

  lemma {:induction false} NoTraining(line: string)
    requires forall p :: 0 <= p <= |line| ==> !("step:" <= line[p..])
    ensures Search(line, TrainOf) == None
  {
    hide TrainOf;
    var i := First(line, 0, TrainOf);
    if i <= |line| {
      NoStepNoHit(line[i..]);
    }
  }

  /** A line with an evaluation loss and no training step reads back as exactly that loss at that step. */
  lemma EvaluationReadsBack(line: string, head: string, step: nat, loss: Shown, behind: string)
    requires CarriesEvaluation(line, head, step, loss, behind)
    requires forall p :: 0 <= p <= |line| ==> !("step:" <= line[p..])
    ensures ParseLine(line) == Metric(Eval, step, map["eval/eval_loss" := loss.Value()])
  {
    hide CarriesEvaluation, DigitText, DigitsValue, Shown.NumberText, Search, Shown.Value, FloatValue, TrainOf, EvalOf;
    IsFixed(line, head, step, loss, behind);
    NoTraining(line);
    EvaluationIsFound(line, head, step, loss, behind);
    DigitTextValue(step);
    ShownReadsBack(loss);
    UnscaledAmount(loss);
  }

  lemma IsFixed(line: string, head: string, step: nat, loss: Shown, behind: string)
    requires CarriesEvaluation(line, head, step, loss, behind)
    ensures loss.Fixed? && loss.Valid()
  {
  }

  lemma UnscaledAmount(x: Shown)
    requires x.Fixed?
    ensures Amount(x.NumberText(), x.Suffix()) == FloatValue(x.NumberText())
  {
    hide FloatValue, Shown.NumberText;
    PlainAmount(x.NumberText());
  }
}
