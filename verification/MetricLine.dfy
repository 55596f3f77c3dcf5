/** The three patterns that parse_metric searches a line for (scripts/stream_smolvla_wandb.py:28, 36
    and 41), each with the scanner that finds its preferred match at one position. */
module MetricLine {
  import opened Wrappers
  import opened Regex
  import opened NumberScan
  import opened MetricScan

  const STEP := Then(DIGITS, MAGNITUDE)
  const GAP := Many(Space, 1)
  const LINE := Many(NotNewline, 0)

  /** "\b" */
  predicate Boundary(line: string, p: nat)
    requires p <= |line|
  {
    (p > 0 && IsWord(line[p - 1])) != (p < |line| && IsWord(line[p]))
  }

  // ---------------------------------------------------------------- step:(\d+[KMBTQ]?)\s+(.*)

  /** Lengths of the step text, of the white space behind it, and of the rest of the line. */
  datatype TrainCuts = TrainCuts(step: nat, gap: nat, rest: nat)
  {
    predicate Fit(u: string) {
      5 + step + gap + rest <= |u|
    }

    function StepText(u: string): string
      requires Fit(u)
    {
      u[5..][..step]
    }

    function RestText(u: string): string
      requires Fit(u)
    {
      u[5..][step..][gap..][..rest]
    }

    /** Greedy quantifiers prefer long white space, then a long rest. */
    predicate PreferredTo(other: TrainCuts) {
      step == other.step && (other.gap < gap || (other.gap == gap && other.rest <= rest))
    }
  }

  ghost predicate TrainHead(u: string, c: TrainCuts) {
    && c.Fit(u)
    && u[..5] == "step:"
    && InLang(STEP, c.StepText(u))
    && InLang(GAP, u[5..][c.step..][..c.gap])
    && InLang(LINE, c.RestText(u))
  }

  /** Length of digits with an optional magnitude letter; 0 without digits. */
  function StepLen(t: string): (n: nat)
    ensures n <= |t|
  {
    var d := Digit.Run(t);
    if 0 < d < |t| && IsMagnitude(t[d]) then d + 1 else d
  }

  function TrainCutsOf(u: string): (r: Option<TrainCuts>)
    ensures r.Some? ==> r.value.Fit(u)
  {
    if !("step:" <= u) then None
    else
      var w := u[5..];
      var v := w[StepLen(w)..];
      var g := Space.Run(v);
      if StepLen(w) > 0 && g > 0 then Some(TrainCuts(StepLen(w), g, NotNewline.Run(v[g..]))) else None
  }

  lemma StepLang(t: string)
    ensures InLang(STEP, t) <==> t != "" && StepLen(t) == |t|
  {
    var d := Digit.Run(t);
    if InLang(STEP, t) {
      var k := ThenCut(DIGITS, MAGNITUDE, t);
      MagnitudeLang(t[k..]);
      Digit.RunIs(t, k);
    } else if d > 0 && StepLen(t) == |t| {
      MagnitudeLang(t[d..]);
      ThenAt(DIGITS, MAGNITUDE, t, d);
    }
  }

  lemma GapLang(t: string)
    ensures InLang(GAP, t) <==> t != "" && Space.HasAll(t)
  {
  }

  lemma LineLang(t: string)
    ensures InLang(LINE, t) <==> NotNewline.HasAll(t)
  {
  }

  /** A step text in front of white space is a longest one. */
  lemma StepStops(w: string, n: nat)
    requires n < |w| && IsSpace(w[n]) && w[..n] != "" && StepLen(w[..n]) == n
    ensures StepLen(w) == n
  {
    var d := Digit.Run(w[..n]);
    Digit.HasAllBelow(w[..n], d);
    Digit.RunIs(w, d);
  }

  lemma StepPrefix(w: string)
    ensures StepLen(w[..StepLen(w)]) == StepLen(w)
  {
    var d := Digit.Run(w);
    Digit.HasAllBelow(w, d);
    Digit.RunIs(w[..StepLen(w)], d);
  }

  /** The scanner finds a match exactly when there is one, and finds the preferred one. */
  lemma TrainCutsArePreferred(u: string)
    ensures TrainCutsOf(u).Some? ==> TrainHead(u, TrainCutsOf(u).value)
    ensures forall c :: TrainHead(u, c) ==> TrainCutsOf(u).Some? && TrainCutsOf(u).value.PreferredTo(c)
  {
    hide StepLen;
    if TrainCutsOf(u).Some? {
      var c := TrainCutsOf(u).value;
      StepPrefix(u[5..]);
      StepLang(c.StepText(u));
      GapLang(u[5..][c.step..][..c.gap]);
      LineLang(c.RestText(u));
    }
    forall c | TrainHead(u, c)
      ensures TrainCutsOf(u).Some? && TrainCutsOf(u).value.PreferredTo(c)
    {
      TrainHeadBound(u, c);
    }
  }

  lemma TrainHeadBound(u: string, c: TrainCuts)
    requires TrainHead(u, c)
    ensures TrainCutsOf(u).Some? && TrainCutsOf(u).value.PreferredTo(c)
  {
    hide StepLen;
    var w := u[5..];
    var v := w[c.step..];
    StepLang(c.StepText(u));
    GapLang(v[..c.gap]);
    LineLang(c.RestText(u));
    assert v[..c.gap][0] == w[c.step];
    StepStops(w, c.step);
    Space.RunBounds(v, c.gap);
    NotNewline.RunBounds(v[c.gap..], c.rest);
  }

  // ---------------------------------------------------------------- (\d+)/\d+\s+\[

  /** Lengths of the captured digits, of the digits behind the slash, and of the white space. */
  datatype ProgressCuts = ProgressCuts(done: nat, total: nat, gap: nat)
  {
    predicate Fit(u: string) {
      done + 1 + total + gap < |u|
    }

    function DoneText(u: string): string
      requires Fit(u)
    {
      u[..done]
    }

    function Behind(u: string): string
      requires Fit(u)
    {
      u[done + 1..]
    }
  }

  ghost predicate ProgressHead(u: string, c: ProgressCuts) {
    && c.Fit(u)
    && InLang(DIGITS, c.DoneText(u))
    && u[c.done] == '/'
    && InLang(DIGITS, c.Behind(u)[..c.total])
    && InLang(GAP, c.Behind(u)[c.total..][..c.gap])
    && c.Behind(u)[c.total..][c.gap] == '['
  }

  /** The captured digits of a progress display at the head of u. */
  function ProgressOf(u: string): Option<string> {
    var a := Digit.Run(u);
    if a == 0 || a == |u| || u[a] != '/' then None
    else
      var v := u[a + 1..];
      var w := v[Digit.Run(v)..];
      var g := Space.Run(w);
      if Digit.Run(v) > 0 && 0 < g < |w| && w[g] == '[' then Some(u[..a]) else None
  }

  lemma DigitsLang(t: string)
    ensures InLang(DIGITS, t) <==> t != "" && Digit.HasAll(t)
  {
  }

  lemma ProgressIsUnique(u: string, c: ProgressCuts)
    requires ProgressHead(u, c)
    ensures ProgressOf(u) == Some(c.DoneText(u))
  {
    var v := c.Behind(u);
    var w := v[c.total..];
    DigitsLang(u[..c.done]);
    DigitsLang(v[..c.total]);
    GapLang(w[..c.gap]);
    Digit.RunIs(u, c.done);
    assert w[..c.gap][0] == w[0] == v[c.total];
    Digit.RunIs(v, c.total);
    Space.RunIs(w, c.gap);
  }

  lemma ProgressMatches(u: string) returns (c: ProgressCuts)
    requires ProgressOf(u).Some?
    ensures ProgressHead(u, c)
  {
    var a := Digit.Run(u);
    var v := u[a + 1..];
    var b := Digit.Run(v);
    var g := Space.Run(v[b..]);
    DigitsLang(u[..a]);
    DigitsLang(v[..b]);
    GapLang(v[b..][..g]);
    c := ProgressCuts(a, b, g);
  }

  // ---------------------------------------------------------------- step (\d+): eval_loss=(NUMBER)

  datatype EvalHit = EvalHit(step: string, loss: string)

  /** Lengths of the two captured texts. */
  datatype EvalCuts = EvalCuts(step: nat, loss: nat)
  {
    predicate Fit(u: string) {
      5 + step + 12 + loss <= |u|
    }

    function StepText(u: string): string
      requires Fit(u)
    {
      u[5..][..step]
    }

    /** The text that starts with the loss. */
    function Behind(u: string): string
      requires Fit(u)
    {
      u[5..][step..][12..]
    }

    function LossText(u: string): string
      requires Fit(u)
    {
      Behind(u)[..loss]
    }

    predicate PreferredTo(other: EvalCuts) {
      step == other.step && other.loss <= loss
    }
  }

  ghost predicate EvalHead(u: string, c: EvalCuts) {
    && c.Fit(u)
    && u[..5] == "step "
    && InLang(DIGITS, c.StepText(u))
    && u[5..][c.step..][..12] == ": eval_loss="
    && InLang(NUMBER, c.LossText(u))
  }

  function EvalCutsOf(u: string): (r: Option<EvalCuts>)
    ensures r.Some? ==> r.value.Fit(u)
  {
    if !("step " <= u) then None
    else
      var w := u[5..];
      var d := Digit.Run(w);
      if d == 0 || !(": eval_loss=" <= w[d..]) then None
      else
        var n := NumberLen(w[d..][12..]);
        if n == 0 then None else Some(EvalCuts(d, n))
  }

  function EvalOf(u: string): Option<EvalHit> {
    match EvalCutsOf(u)
    case None => None
    case Some(c) => Some(EvalHit(c.StepText(u), c.LossText(u)))
  }

  lemma EvalHeadBound(u: string, c: EvalCuts)
    requires EvalHead(u, c)
    ensures EvalCutsOf(u).Some? && EvalCutsOf(u).value.PreferredTo(c)
  {
    hide NumberLen;
    var w := u[5..];
    DigitsLang(w[..c.step]);
    assert w[c.step..][..12][0] == w[c.step];
    Digit.RunIs(w, c.step);
    NumberBounds(c.Behind(u), c.loss);
  }

  lemma EvalCutsArePreferred(u: string)
    ensures EvalCutsOf(u).Some? ==> EvalHead(u, EvalCutsOf(u).value)
    ensures forall c :: EvalHead(u, c) ==> EvalCutsOf(u).Some? && EvalCutsOf(u).value.PreferredTo(c)
  {
    hide NumberLen;
    if EvalCutsOf(u).Some? {
      var c := EvalCutsOf(u).value;
      DigitsLang(c.StepText(u));
      NumberMatches(c.Behind(u));
    }
    forall c | EvalHead(u, c)
      ensures EvalCutsOf(u).Some? && EvalCutsOf(u).value.PreferredTo(c)
    {
      EvalHeadBound(u, c);
    }
  }
}
