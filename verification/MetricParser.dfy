/** parse_metric (scripts/stream_smolvla_wandb.py:27-44) as a whole: the decision between a training
    metric, an evaluation metric, no metric and an error, and its meaning in terms of the patterns. */
module MetricParser {
  import opened Wrappers
  import opened Regex
  import opened NumberValue
  import opened MetricScan
  import opened MetricLine

  datatype Mode = Train | Eval

  datatype Parsed =
    | NoMetric
    | Metric(mode: Mode, step: nat, values: map<string, real>)
    | RoundedStep  // "Rounded step count needs an exact tqdm step in the log."

  datatype TrainHit = TrainHit(step: string, rest: string)

  // ---------------------------------------------------------------- the scanner

  /** What a pattern that starts with "\b" gives at position i. */
  function Hit<T>(line: string, i: nat, head: string -> Option<T>): Option<T>
    requires i <= |line|
  {
    if Boundary(line, i) then head(line[i..]) else None
  }

  /** The first position from p on where the pattern hits, or one past the end of the line. */
  function First<T>(line: string, p: nat, head: string -> Option<T>): (i: nat)
    requires p <= |line| + 1
    ensures p <= i <= |line| + 1
    ensures forall h :: p <= h < i ==> Hit(line, h, head) == None
    ensures i <= |line| ==> Hit(line, i, head).Some?
    decreases |line| + 1 - p
  {
    if p == |line| + 1 || Hit(line, p, head).Some? then p else First(line, p + 1, head)
  }

  /** re.search: the hit at the leftmost position that has one. */
  function Search<T>(line: string, head: string -> Option<T>): Option<T> {
    var i := First(line, 0, head);
    if i <= |line| then Hit(line, i, head) else None
  }

  function TrainOf(u: string): Option<TrainHit> {
    match TrainCutsOf(u)
    case None => None
    case Some(c) => Some(TrainHit(c.StepText(u), c.RestText(u)))
  }

  function Alias(key: string): string {
    if key == "smpl" then "samples"
    else if key == "ep" then "episodes"
    else if key == "epch" then "epochs"
    else if key == "grdn" then "grad_norm"
    else if key == "smp/s" then "samples_per_s"
    else key
  }

  function Store(values: map<string, real>, p: Pair): map<string, real> {
    var x := Amount(p.number, p.suffix);
    if IsFinite(x) then values["train/" + Alias(p.key) := x] else values
  }

  /** The dictionary that the loop over the pairs fills. */
  function Collect(pairs: seq<Pair>): map<string, real> {
    if pairs == [] then map[] else Store(Collect(pairs[..|pairs| - 1]), pairs[|pairs| - 1])
  }

  const LOSS := "train/loss"

  function ParseLine(line: string): Parsed {
    match Search(line, TrainOf)
    case Some(hit) =>
      var values := Collect(Scan(hit.rest));
      if LOSS in values then ParseTrain(line, hit.step, values) else ParseEval(line)
    case None => ParseEval(line)
  }

  function ParseTrain(line: string, step: string, values: map<string, real>): Parsed {
    match Search(line, ProgressOf)
    case Some(digits) => Metric(Train, DigitsValue(digits), values)
    case None => if Digit.HasAll(step) then Metric(Train, DigitsValue(step), values) else RoundedStep
  }

  function ParseEval(line: string): Parsed {
    match Search(line, EvalOf)
    case Some(hit) => Metric(Eval, DigitsValue(hit.step), map["eval/eval_loss" := FloatValue(hit.loss)])
    case None => NoMetric
  }

  /** parse_metric itself, with the loop that fills its dictionary. */
  method ParseMetric(line: string) returns (r: Parsed)
    ensures r == ParseLine(line)
  {
    hide Search, Scan, Amount, IsFinite, DigitsValue, FloatValue, Alias;
    var train := Search(line, TrainOf);
    if train.Some? {
      var pairs := Scan(train.value.rest);
      var values: map<string, real> := map[];
      for n := 0 to |pairs|
        invariant values == Collect(pairs[..n])
      {
        var number := Amount(pairs[n].number, pairs[n].suffix);
        if IsFinite(number) {
          values := values["train/" + Alias(pairs[n].key) := number];
        }
        assert pairs[..n + 1][..n] == pairs[..n];
      }
      assert pairs[..|pairs|] == pairs;
      if LOSS in values {
        var progress := Search(line, ProgressOf);
        if progress == None && !Digit.HasAll(train.value.step) {
          return RoundedStep;
        }
        var digits := if progress.Some? then progress.value else train.value.step;
        return Metric(Train, DigitsValue(digits), values);
      }
    }
    var evaluation := Search(line, EvalOf);
    if evaluation.Some? {
      return Metric(Eval, DigitsValue(evaluation.value.step),
                    map["eval/eval_loss" := FloatValue(evaluation.value.loss)]);
    }
    return NoMetric;
  }

  // ---------------------------------------------------------------- meaning

  ghost predicate TrainAt(line: string, p: nat, c: TrainCuts) {
    p <= |line| && Boundary(line, p) && TrainHead(line[p..], c)
  }

  /** (p, c) is the match that re.search returns: leftmost, then greedy. */
  ghost predicate TrainSearch(line: string, p: nat, c: TrainCuts) {
    && TrainAt(line, p, c)
    && (forall q: nat, d: TrainCuts :: q < p ==> !TrainAt(line, q, d))
    && (forall d: TrainCuts :: TrainAt(line, p, d) ==> c.PreferredTo(d))
  }

  ghost predicate ProgressAt(line: string, p: nat, c: ProgressCuts) {
    p <= |line| && Boundary(line, p) && ProgressHead(line[p..], c)
  }

  /** Matches of this pattern at one position are unique, so leftmost is all there is to choose. */
  ghost predicate ProgressSearch(line: string, p: nat, c: ProgressCuts) {
    && ProgressAt(line, p, c)
    && (forall q: nat, d: ProgressCuts :: q < p ==> !ProgressAt(line, q, d))
  }

  ghost predicate EvalAt(line: string, p: nat, c: EvalCuts) {
    p <= |line| && Boundary(line, p) && EvalHead(line[p..], c)
  }

  ghost predicate EvalSearch(line: string, p: nat, c: EvalCuts) {
    && EvalAt(line, p, c)
    && (forall q: nat, d: EvalCuts :: q < p ==> !EvalAt(line, q, d))
    && (forall d: EvalCuts :: EvalAt(line, p, d) ==> c.PreferredTo(d))
  }

  /** The two ways a training match with a loss ends, read off the patterns. */
  ghost predicate TrainMeans(line: string, step: string, values: map<string, real>, r: Parsed) {
    || (exists p: nat, c: ProgressCuts ::
          ProgressSearch(line, p, c) && r == Metric(Train, DigitsValue(c.DoneText(line[p..])), values))
    || ((forall p: nat, c: ProgressCuts :: !ProgressAt(line, p, c))
        && r == if Digit.HasAll(step) then Metric(Train, DigitsValue(step), values) else RoundedStep)
  }

  ghost predicate EvalMeans(line: string, r: Parsed) {
    || (exists p: nat, c: EvalCuts ::
          && EvalSearch(line, p, c)
          && r == Metric(Eval, DigitsValue(c.StepText(line[p..])),
                         map["eval/eval_loss" := FloatValue(c.LossText(line[p..]))]))
    || ((forall p: nat, c: EvalCuts :: !EvalAt(line, p, c)) && r == NoMetric)
  }

  /** A training match whose metrics, found by re.findall, include a finite loss. */
  ghost predicate LossAt(line: string, p: nat, c: TrainCuts, pairs: seq<Pair>) {
    TrainSearch(line, p, c) && FindAll(c.RestText(line[p..]), pairs) && LOSS in Collect(pairs)
  }

  ghost predicate LossMeans(line: string, p: nat, c: TrainCuts, pairs: seq<Pair>, r: Parsed) {
    LossAt(line, p, c, pairs) && TrainMeans(line, c.StepText(line[p..]), Collect(pairs), r)
  }

  /** r is a result of parse_metric on the line, in terms of what the patterns match. */
  ghost predicate Means(line: string, r: Parsed) {
    || (exists p: nat, c: TrainCuts, pairs: seq<Pair> :: LossMeans(line, p, c, pairs, r))
    || ((forall p: nat, c: TrainCuts, pairs: seq<Pair> :: !LossAt(line, p, c, pairs)) && EvalMeans(line, r))
  }

  // ---------------------------------------------------------------- proofs

  lemma SearchAt<T>(line: string, p: nat, head: string -> Option<T>)
    requires p <= |line| && Hit(line, p, head).Some?
    requires forall q :: 0 <= q < p ==> Hit(line, q, head) == None
    ensures Search(line, head) == Hit(line, p, head)
  {
  }

  lemma TrainHits(line: string, p: nat)
    requires p <= |line|
    ensures Hit(line, p, TrainOf).Some? <==> exists c :: TrainAt(line, p, c)
    ensures Hit(line, p, TrainOf).Some? ==> TrainAt(line, p, TrainCutsOf(line[p..]).value)
  {
    hide TrainHead, TrainCutsOf, Boundary;
    TrainCutsArePreferred(line[p..]);
    if Hit(line, p, TrainOf).Some? {
      assert TrainAt(line, p, TrainCutsOf(line[p..]).value);
    }
    assert TrainOf(line[p..]).Some? <==> TrainCutsOf(line[p..]).Some?;
  }

  lemma SearchTrain(line: string)
    ensures match Search(line, TrainOf)
            case Some(hit) => exists p: nat, c: TrainCuts ::
              TrainSearch(line, p, c) && hit == TrainHit(c.StepText(line[p..]), c.RestText(line[p..]))
            case None => forall p: nat, c: TrainCuts :: !TrainAt(line, p, c)
  {
    hide TrainHead, TrainCutsOf, Boundary;
    var i := First(line, 0, TrainOf);
    forall q: nat, d: TrainCuts | q < i
      ensures !TrainAt(line, q, d)
    {
      if q <= |line| {
        TrainHits(line, q);
      }
    }
    if i <= |line| {
      TrainHits(line, i);
      TrainCutsArePreferred(line[i..]);
      assert TrainSearch(line, i, TrainCutsOf(line[i..]).value);
    }
  }

  lemma SearchTrainAt(line: string, p: nat, c: TrainCuts)
    requires TrainSearch(line, p, c)
    ensures c.Fit(line[p..])
    ensures Search(line, TrainOf) == Some(TrainHit(c.StepText(line[p..]), c.RestText(line[p..])))
  {
    hide Boundary, Search, InLang;
    SearchTrain(line);
    assert TrainAt(line, p, c);
    var q: nat, d :| TrainSearch(line, q, d)
                     && Search(line, TrainOf) == Some(TrainHit(d.StepText(line[q..]), d.RestText(line[q..])));
    assert TrainAt(line, q, d);
  }

  lemma ProgressHits(line: string, p: nat)
    requires p <= |line|
    ensures Hit(line, p, ProgressOf).Some? <==> exists c :: ProgressAt(line, p, c)
  {
    hide ProgressHead, ProgressOf, Boundary;
    var u := line[p..];
    if Hit(line, p, ProgressOf).Some? {
      var c := ProgressMatches(u);
      assert ProgressAt(line, p, c);
    }
    if c :| ProgressAt(line, p, c) {
      ProgressIsUnique(u, c);
    }
  }

  lemma SearchProgress(line: string)
    ensures match Search(line, ProgressOf)
            case Some(done) => exists p: nat, c: ProgressCuts ::
              ProgressSearch(line, p, c) && done == c.DoneText(line[p..])
            case None => forall p: nat, c: ProgressCuts :: !ProgressAt(line, p, c)
  {
    hide ProgressHead, ProgressOf, Boundary;
    var i := First(line, 0, ProgressOf);
    forall q: nat, d: ProgressCuts | q < i
      ensures !ProgressAt(line, q, d)
    {
      if q <= |line| {
        ProgressHits(line, q);
      }
    }
    if i <= |line| {
      var c := ProgressMatches(line[i..]);
      ProgressIsUnique(line[i..], c);
      assert ProgressSearch(line, i, c);
    }
  }

  lemma SearchProgressAt(line: string, p: nat, c: ProgressCuts)
    requires ProgressSearch(line, p, c)
    ensures c.Fit(line[p..])
    ensures Search(line, ProgressOf) == Some(c.DoneText(line[p..]))
  {
    hide Boundary, Search, ProgressOf;
    SearchProgress(line);
    assert ProgressAt(line, p, c);
    var q: nat, d :| ProgressSearch(line, q, d) && Search(line, ProgressOf) == Some(d.DoneText(line[q..]));
    assert ProgressAt(line, q, d);
    ProgressIsUnique(line[p..], c);
    ProgressIsUnique(line[q..], d);
  }

  lemma EvalHits(line: string, p: nat)
    requires p <= |line|
    ensures Hit(line, p, EvalOf).Some? <==> exists c :: EvalAt(line, p, c)
    ensures Hit(line, p, EvalOf).Some? ==> EvalAt(line, p, EvalCutsOf(line[p..]).value)
  {
    hide EvalHead, EvalCutsOf, Boundary;
    EvalCutsArePreferred(line[p..]);
    if Hit(line, p, EvalOf).Some? {
      assert EvalAt(line, p, EvalCutsOf(line[p..]).value);
    }
    assert EvalOf(line[p..]).Some? <==> EvalCutsOf(line[p..]).Some?;
  }

  lemma SearchEval(line: string)
    ensures match Search(line, EvalOf)
            case Some(hit) => exists p: nat, c: EvalCuts ::
              EvalSearch(line, p, c) && hit == EvalHit(c.StepText(line[p..]), c.LossText(line[p..]))
            case None => forall p: nat, c: EvalCuts :: !EvalAt(line, p, c)
  {
    hide EvalHead, EvalCutsOf, Boundary;
    var i := First(line, 0, EvalOf);
    forall q: nat, d: EvalCuts | q < i
      ensures !EvalAt(line, q, d)
    {
      if q <= |line| {
        EvalHits(line, q);
      }
    }
    if i <= |line| {
      EvalHits(line, i);
      EvalCutsArePreferred(line[i..]);
      assert EvalSearch(line, i, EvalCutsOf(line[i..]).value);
    }
  }

  lemma SearchEvalAt(line: string, p: nat, c: EvalCuts)
    requires EvalSearch(line, p, c)
    ensures c.Fit(line[p..])
    ensures Search(line, EvalOf) == Some(EvalHit(c.StepText(line[p..]), c.LossText(line[p..])))
  {
    hide Boundary, Search, InLang;
    SearchEval(line);
    assert EvalAt(line, p, c);
    var q: nat, d :| EvalSearch(line, q, d)
                     && Search(line, EvalOf) == Some(EvalHit(d.StepText(line[q..]), d.LossText(line[q..])));
    assert EvalAt(line, q, d);
  }

  lemma TrainMeansParseTrain(line: string, step: string, values: map<string, real>, r: Parsed)
    ensures TrainMeans(line, step, values, r) <==> r == ParseTrain(line, step, values)
  {
    hide Boundary, ProgressOf, Search, DigitsValue;
    SearchProgress(line);
    if TrainMeans(line, step, values, r) && Search(line, ProgressOf).Some? {
      var q: nat, d :| ProgressSearch(line, q, d);
      assert ProgressAt(line, q, d);
      var p: nat, c :| ProgressSearch(line, p, c) && r == Metric(Train, DigitsValue(c.DoneText(line[p..])), values);
      SearchProgressAt(line, p, c);
    }
  }

  lemma EvalMeansParseEval(line: string, r: Parsed)
    ensures EvalMeans(line, r) <==> r == ParseEval(line)
  {
    hide Boundary, EvalOf, Search, DigitsValue, FloatValue;
    SearchEval(line);
    if EvalMeans(line, r) && Search(line, EvalOf).Some? {
      var q: nat, d :| EvalSearch(line, q, d);
      assert EvalAt(line, q, d);
      var p: nat, c :|
        && EvalSearch(line, p, c)
        && r == Metric(Eval, DigitsValue(c.StepText(line[p..])),
                       map["eval/eval_loss" := FloatValue(c.LossText(line[p..]))]);
      SearchEvalAt(line, p, c);
    }
  }

  lemma LossParses(line: string, p: nat, c: TrainCuts, pairs: seq<Pair>, r: Parsed)
    requires LossAt(line, p, c, pairs)
    ensures LossMeans(line, p, c, pairs, r) <==> r == ParseLine(line)
  {
    hide Boundary, TrainHead, Search, Collect, Scan, TrainMeans, ParseTrain, ParseEval;
    SearchTrainAt(line, p, c);
    ScanIsFindAll(c.RestText(line[p..]), pairs);
    TrainMeansParseTrain(line, c.StepText(line[p..]), Collect(pairs), r);
  }

  lemma NoLossParses(line: string)
    requires forall p: nat, c: TrainCuts, pairs: seq<Pair> :: !LossAt(line, p, c, pairs)
    ensures ParseLine(line) == ParseEval(line)
  {
    hide Boundary, Search, Collect, Scan, ParseTrain, ParseEval;
    SearchTrain(line);
    if Search(line, TrainOf).Some? {
      var p: nat, c :| TrainSearch(line, p, c)
                       && Search(line, TrainOf) == Some(TrainHit(c.StepText(line[p..]), c.RestText(line[p..])));
      ScanIsFindAll(c.RestText(line[p..]), Scan(c.RestText(line[p..])));
      assert !LossAt(line, p, c, Scan(c.RestText(line[p..])));
    }
  }

  /** The scanner returns on every line exactly what the patterns of parse_metric mean. */
  lemma ParseLineIsParseMetric(line: string, r: Parsed)
    ensures Means(line, r) <==> r == ParseLine(line)
  {
    hide LossAt, LossMeans, EvalMeans, ParseLine, ParseEval;
    if p: nat, c: TrainCuts, pairs: seq<Pair> :| LossAt(line, p, c, pairs) {
      LossParses(line, p, c, pairs, r);
      forall q: nat, d: TrainCuts, others: seq<Pair> | LossMeans(line, q, d, others, r)
        ensures r == ParseLine(line)
      {
        LossMeansLoss(line, q, d, others, r);
        LossParses(line, q, d, others, r);
      }
    } else {
      NoLossParses(line);
      EvalMeansParseEval(line, r);
      forall q: nat, d: TrainCuts, others: seq<Pair>
        ensures !LossMeans(line, q, d, others, r)
      {
        if LossMeans(line, q, d, others, r) {
          LossMeansLoss(line, q, d, others, r);
        }
      }
    }
  }

  lemma LossMeansLoss(line: string, p: nat, c: TrainCuts, pairs: seq<Pair>, r: Parsed)
    requires LossMeans(line, p, c, pairs, r)
    ensures LossAt(line, p, c, pairs)
  {
  }
}
