/** What parse_metric promises about its results: steps are exact, later duplicates win, and a
    trailing newline changes nothing. */
module MetricFacts {
  import opened Wrappers
  import opened Regex
  import opened NumberScan
  import opened NumberValue
  import opened MetricScan
  import opened MetricLine
  import opened MetricParser

  // ---------------------------------------------------------------- exact steps

  /** line[i..j] is a whole run of digits of the line. */
  ghost predicate WholeDigits(line: string, i: nat, j: nat) {
    && i < j <= |line|
    && Digit.HasAll(line[i..j])
    && (i == 0 || !IsDigit(line[i - 1]))
    && (j == |line| || !IsDigit(line[j]))
  }

  /** The step is written out in the line. */
  ghost predicate StepInLine(line: string, step: nat) {
    exists i: nat, j: nat :: WholeDigits(line, i, j) && DigitsValue(line[i..j]) == step
  }

  /** A step is never an expanded rounded count: it stands in the line digit by digit. */
  lemma StepIsVerbatim(line: string)
    requires ParseLine(line).Metric?
    ensures StepInLine(line, ParseLine(line).step)
  {
    hide Search, Scan, Collect, DigitsValue, FloatValue;
    SearchTrain(line);
    SearchProgress(line);
    SearchEval(line);
    match ParseLine(line).mode
    case Eval =>
      var p: nat, c :| EvalSearch(line, p, c)
                       && Search(line, EvalOf) == Some(EvalHit(c.StepText(line[p..]), c.LossText(line[p..])));
      EvalStepInLine(line, p, c);
    case Train =>
      if Search(line, ProgressOf).Some? {
        var p: nat, c :| ProgressSearch(line, p, c) && Search(line, ProgressOf) == Some(c.DoneText(line[p..]));
        ProgressStepInLine(line, p, c);
      } else {
        var p: nat, c :| TrainSearch(line, p, c)
                         && Search(line, TrainOf) == Some(TrainHit(c.StepText(line[p..]), c.RestText(line[p..])));
        TrainStepInLine(line, p, c);
      }
  }

  lemma EvalStepInLine(line: string, p: nat, c: EvalCuts)
    requires EvalAt(line, p, c)
    ensures StepInLine(line, DigitsValue(c.StepText(line[p..])))
  {
    hide DigitsValue;
    var u, i := line[p..], p + 5;
    DigitsLang(c.StepText(u));
    assert u[5..][c.step..][..12][0] == line[i + c.step];
    assert u[..5][4] == line[i - 1];
    assert line[i..i + c.step] == c.StepText(u);
    assert WholeDigits(line, i, i + c.step);
  }

  lemma ProgressStepInLine(line: string, p: nat, c: ProgressCuts)
    requires ProgressAt(line, p, c)
    ensures StepInLine(line, DigitsValue(c.DoneText(line[p..])))
  {
    hide DigitsValue;
    var u := line[p..];
    DigitsLang(c.DoneText(u));
    assert c.DoneText(u)[0] == line[p] && u[c.done] == line[p + c.done];
    assert line[p..p + c.done] == c.DoneText(u);
    assert WholeDigits(line, p, p + c.done);
  }

  lemma TrainStepInLine(line: string, p: nat, c: TrainCuts)
    requires TrainAt(line, p, c) && Digit.HasAll(c.StepText(line[p..]))
    ensures StepInLine(line, DigitsValue(c.StepText(line[p..])))
  {
    hide DigitsValue;
    var u, i := line[p..], p + 5;
    StepLang(c.StepText(u));
    GapLang(u[5..][c.step..][..c.gap]);
    assert u[5..][c.step..][..c.gap][0] == line[i + c.step];
    assert u[..5][4] == line[i - 1];
    assert line[i..i + c.step] == c.StepText(u);
    assert WholeDigits(line, i, i + c.step);
  }

  /** The error is raised exactly for a training line with a loss whose step is rounded and that
      shows no exact progress anywhere. */
  lemma RoundedStepExactly(line: string)
    ensures ParseLine(line) == RoundedStep <==>
            exists p: nat, c: TrainCuts, pairs: seq<Pair> ::
              && LossAt(line, p, c, pairs)
              && !Digit.HasAll(c.StepText(line[p..]))
              && forall q: nat, d: ProgressCuts :: !ProgressAt(line, q, d)
  {
    hide LossAt, ParseLine, EvalAt, ProgressAt, Digit.HasAll;
    ParseLineIsParseMetric(line, RoundedStep);
    forall p: nat, c: TrainCuts, pairs: seq<Pair> | LossAt(line, p, c, pairs)
      ensures p <= |line| && c.Fit(line[p..])
    {
      LossFits(line, p, c, pairs);
    }
    if p: nat, c: TrainCuts, pairs: seq<Pair> :|
      && LossAt(line, p, c, pairs)
      && !Digit.HasAll(c.StepText(line[p..]))
      && forall q: nat, d: ProgressCuts :: !ProgressAt(line, q, d)
    {
      assert LossMeans(line, p, c, pairs, RoundedStep);
    }
  }

  lemma LossFits(line: string, p: nat, c: TrainCuts, pairs: seq<Pair>)
    requires LossAt(line, p, c, pairs)
    ensures p <= |line| && c.Fit(line[p..])
  {
    hide FindAll, Collect, Boundary;
  }

  // ---------------------------------------------------------------- duplicates

  /** The pair puts a value under the name. */
  ghost predicate Writes(p: Pair, name: string) {
    IsFinite(Amount(p.number, p.suffix)) && "train/" + Alias(p.key) == name
  }

  /** n is the last pair that puts a value under the name. */
  ghost predicate LastWrite(pairs: seq<Pair>, name: string, n: nat) {
    n < |pairs| && Writes(pairs[n], name) && forall m :: n < m < |pairs| ==> !Writes(pairs[m], name)
  }

  /** The dictionary holds exactly the names some finite pair is stored under, each with the amount
      of the last such pair. */
  lemma {:induction false} CollectKeepsLast(pairs: seq<Pair>, name: string)
    ensures name in Collect(pairs) <==> exists n: nat :: LastWrite(pairs, name, n)
    ensures forall n: nat :: LastWrite(pairs, name, n) ==>
              Collect(pairs)[name] == Amount(pairs[n].number, pairs[n].suffix)
    decreases |pairs|
  {
    hide Amount, IsFinite, Alias;
    if pairs == [] {
    } else {
      var k := |pairs| - 1;
      CollectKeepsLast(pairs[..k], name);
      forall n: nat | n < k
        ensures LastWrite(pairs, name, n) <==> LastWrite(pairs[..k], name, n) && !Writes(pairs[k], name)
      {
        assert forall m :: 0 <= m < k ==> pairs[..k][m] == pairs[m];
      }
      assert Writes(pairs[k], name) ==> LastWrite(pairs, name, k);
    }
  }

  // ---------------------------------------------------------------- trailing newline

  lemma PrefixBeforeNewline(head: string, u: string)
    requires '\n' !in head
    ensures head <= u + "\n" <==> head <= u
  {
    assert (u + "\n")[|u|] == '\n';
    assert head <= u + "\n" ==> forall i :: 0 <= i < |head| ==> head[i] == (u + "\n")[i];
  }

  lemma RunBeforeNewline(cls: Class, t: string)
    requires !cls.Has('\n')
    ensures cls.Run(t + "\n") == cls.Run(t)
  {
    var n := cls.Run(t);
    cls.HasAllBelow(t, n);
    cls.RunIs(t + "\n", n);
  }

  lemma SpaceBeforeNewline(t: string)
    ensures Space.Run(t + "\n") == if Space.Run(t) == |t| then |t| + 1 else Space.Run(t)
  {
    var n := Space.Run(t);
    Space.HasAllBelow(t, n);
    Space.RunIs(t + "\n", if n == |t| then |t| + 1 else n);
  }

  lemma ProgressBeforeNewline(u: string)
    ensures ProgressOf(u + "\n") == ProgressOf(u)
  {
    hide Class.Run;
    RunBeforeNewline(Digit, u);
    var a := Digit.Run(u);
    assert u[..a] == (u + "\n")[..a];
    if a < |u| {
      var v := u[a + 1..];
      assert (u + "\n")[a + 1..] == v + "\n";
      RunBeforeNewline(Digit, v);
      var w := v[Digit.Run(v)..];
      assert (v + "\n")[Digit.Run(v)..] == w + "\n";
      SpaceBeforeNewline(w);
    }
  }

  lemma EvalBeforeNewline(u: string)
    ensures EvalOf(u + "\n") == EvalOf(u)
  {
    hide Class.Run, NumberLen;
    PrefixBeforeNewline("step ", u);
    if "step " <= u {
      var w := u[5..];
      assert (u + "\n")[5..] == w + "\n";
      RunBeforeNewline(Digit, w);
      var d := Digit.Run(w);
      var v := w[d..];
      assert (w + "\n")[d..] == v + "\n" && (w + "\n")[..d] == w[..d];
      PrefixBeforeNewline(": eval_loss=", v);
      if ": eval_loss=" <= v {
        LossBeforeNewline(v);
      }
    }
  }

  lemma LossBeforeNewline(v: string)
    requires |v| >= 12
    ensures NumberLen((v + "\n")[12..]) == NumberLen(v[12..])
    ensures (v + "\n")[12..][..NumberLen(v[12..])] == v[12..][..NumberLen(v[12..])]
  {
    hide NumberLen;
    assert (v + "\n")[12..] == v[12..] + "\n";
    NumberLenLocal(v[12..], "\n");
  }

  /** u is nothing but a step text: the newline is the white space the pattern still needs. */
  ghost predicate BareStep(u: string) {
    "step:" <= u && |u| > 5 && StepLen(u[5..]) == |u| - 5
  }

  lemma TrainBeforeNewline(u: string)
    requires '\n' !in u
    ensures !BareStep(u) ==> TrainOf(u + "\n") == TrainOf(u)
    ensures BareStep(u) ==> TrainOf(u) == None && TrainOf(u + "\n") == Some(TrainHit(u[5..], ""))
  {
    hide Class.Run, StepLen;
    PrefixBeforeNewline("step:", u);
    if "step:" <= u {
      var w := u[5..];
      assert (u + "\n")[5..] == w + "\n";
      StepBeforeNewline(w);
      var e := StepLen(w);
      var v := w[e..];
      assert (w + "\n")[e..] == v + "\n" && (w + "\n")[..e] == w[..e];
      GapBeforeNewline(v);
    }
  }

  lemma StepBeforeNewline(w: string)
    ensures StepLen(w + "\n") == StepLen(w)
  {
    hide Class.Run;
    RunBeforeNewline(Digit, w);
  }

  lemma GapBeforeNewline(v: string)
    requires '\n' !in v
    ensures var g, h := Space.Run(v), Space.Run(v + "\n");
            && (g > 0 || v == "" <==> h > 0)
            && v[g..][..NotNewline.Run(v[g..])] == (v + "\n")[h..][..NotNewline.Run((v + "\n")[h..])]
  {
    hide Class.Run;
    SpaceBeforeNewline(v);
    var g := Space.Run(v);
    if g < |v| {
      assert (v + "\n")[g..] == v[g..] + "\n";
      RunBeforeNewline(NotNewline, v[g..]);
    }
  }

  lemma NoStepInside(u: string, k: nat)
    requires BareStep(u) && 0 < k <= |u|
    ensures TrainOf(u[k..]) == None
  {
    if k < |u| {
      var w := u[5..];
      Digit.HasAllBelow(w, Digit.Run(w));
      assert u[k] != 's' by {
        if k < 5 {
          assert u[k] == "step:"[k];
        } else {
          assert u[k] == w[k - 5];
        }
      }
    }
  }

  lemma BoundaryBeforeNewline(line: string, p: nat)
    requires p <= |line|
    ensures Boundary(line + "\n", p) == Boundary(line, p)
    ensures !Boundary(line + "\n", |line| + 1)
  {
  }

  lemma SearchBeforeNewline<T>(line: string, head: string -> Option<T>)
    requires forall u :: head(u + "\n") == head(u)
    ensures Search(line + "\n", head) == Search(line, head)
  {
    hide Boundary;
    forall p: nat | p <= |line|
      ensures Hit(line + "\n", p, head) == Hit(line, p, head)
    {
      BoundaryBeforeNewline(line, p);
      assert (line + "\n")[p..] == line[p..] + "\n";
    }
    BoundaryBeforeNewline(line, |line|);
  }

  /** With a newline behind it, the line matches where it did, or matches a bare step with nothing
      behind it. */
  lemma SearchTrainBeforeNewline(line: string)
    requires '\n' !in line
    ensures var a, b := Search(line, TrainOf), Search(line + "\n", TrainOf);
            a == b || (a == None && b.Some? && b.value.rest == "")
  {
    hide Boundary, TrainOf, BareStep;
    forall p: nat | p <= |line|
      ensures TrainHitKept(line, p)
    {
      TrainHitBeforeNewline(line, p);
    }
    BoundaryBeforeNewline(line, |line|);
    var i, j := First(line, 0, TrainOf), First(line + "\n", 0, TrainOf);
    assert i <= |line| ==> TrainHitKept(line, i);
    assert j <= |line| ==> TrainHitKept(line, j);
    if j < i && i <= |line| {
      assert line[j..][i - j..] == line[i..];
      NoStepInside(line[j..], i - j);
    }
  }

  /** The hit at a position is the same with a newline behind the line, unless a bare step starts
      there. */
  ghost predicate TrainHitKept(line: string, p: nat)
    requires p <= |line|
  {
    || Hit(line + "\n", p, TrainOf) == Hit(line, p, TrainOf)
    || (BareStep(line[p..]) && Hit(line, p, TrainOf) == None
        && Hit(line + "\n", p, TrainOf).Some? && Hit(line + "\n", p, TrainOf).value.rest == "")
  }

  lemma TrainHitBeforeNewline(line: string, p: nat)
    requires '\n' !in line && p <= |line|
    ensures TrainHitKept(line, p)
  {
    hide Boundary, TrainOf, BareStep;
    BoundaryBeforeNewline(line, p);
    assert (line + "\n")[p..] == line[p..] + "\n";
    TrainBeforeNewline(line[p..]);
  }

  /** parse_metric gives the same result with and without the newline that ends the line: the dry
      run, which splits lines without it, and the follower, which keeps it, agree. */
  lemma NewlineIsInert(line: string)
    requires '\n' !in line
    ensures ParseLine(line + "\n") == ParseLine(line)
  {
    hide Search, DigitsValue, FloatValue, EvalOf, ProgressOf;
    forall u
      ensures ProgressOf(u + "\n") == ProgressOf(u) && EvalOf(u + "\n") == EvalOf(u)
    {
      ProgressBeforeNewline(u);
      EvalBeforeNewline(u);
    }
    SearchBeforeNewline(line, ProgressOf);
    SearchBeforeNewline(line, EvalOf);
    SearchTrainBeforeNewline(line);
    assert Collect(Scan("")) == map[];
  }
}
