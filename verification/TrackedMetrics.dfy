/** The training line that LeRobot's trainer logs, field by field, and the dictionary parse_metric makes of
    it (.lerobot-src/src/lerobot/scripts/lerobot_train.py:693-712,
    .lerobot-src/src/lerobot/utils/logging_utils.py:244-255, scripts/stream_smolvla_wandb.py:17-34). */
module TrackedMetrics {
  import opened Wrappers
  import opened Regex
  import opened NumberValue
  import opened MetricScan
  import opened MetricLine
  import opened MetricParser
  import opened TrackerLine
  import opened TrackerNumbers
  import opened PowersOfTwo

  /** The state of the tracker at one step.  The learning rate is given as it is shown; the memory of the
      graphics card is there when there is one. */
  datatype Readings = Readings(samples: nat, episodes: nat, epochs: real, loss: real, gradNorm: real, lr: Shown,
                               dataSeconds: real, prepSeconds: real, updateSeconds: real, stepSeconds: real,
                               samplesPerSecond: real, memory: Option<real>)
  {
    /** Counts that are formatted, and measures that a double can hold. */
    ghost predicate InRange() {
      && BigNumber(samples).Some? && BigNumber(episodes).Some?
      && lr.Scientific? && IsDouble(lr.Value())
      && IsDouble(epochs) && IsDouble(loss) && IsDouble(gradNorm)
      && IsDouble(dataSeconds) && IsDouble(prepSeconds) && IsDouble(updateSeconds) && IsDouble(stepSeconds)
      && IsDouble(samplesPerSecond) && (memory.Some? ==> IsDouble(memory.value))
    }

    /** What is printed behind the step count. */
    function Fields(): seq<Field>
      requires BigNumber(samples).Some? && BigNumber(episodes).Some?
    {
      [] + [Field("smpl", BigNumber(samples).value)]
      + [Field("ep", BigNumber(episodes).value)]
      + [Field("epch", FixedOf(epochs, 2))]
      + [Field("loss", FixedOf(loss, 3))]
      + [Field("grdn", FixedOf(gradNorm, 3))]
      + [Field("lr", lr)]
      + [Field("data_s", FixedOf(dataSeconds, 3))]
      + [Field("prep_s", FixedOf(prepSeconds, 3))]
      + [Field("updt_s", FixedOf(updateSeconds, 3))]
      + [Field("step_s", FixedOf(stepSeconds, 3))]
      + [Field("smp/s", FixedOf(samplesPerSecond, 0))]
      + (if memory.Some? then [Field("mem_gb", FixedOf(memory.value, 2))] else [])
    }

    /** What parse_metric returns: the shown values under their long names. */
    function Stored(): map<string, real>
      requires BigNumber(samples).Some? && BigNumber(episodes).Some?
    {
      var values :=
        map[]["train/samples" := BigNumber(samples).value.Value()]
             ["train/episodes" := BigNumber(episodes).value.Value()]
             ["train/epochs" := FixedOf(epochs, 2).Value()]
             ["train/loss" := FixedOf(loss, 3).Value()]
             ["train/grad_norm" := FixedOf(gradNorm, 3).Value()]
             ["train/lr" := lr.Value()]
             ["train/data_s" := FixedOf(dataSeconds, 3).Value()]
             ["train/prep_s" := FixedOf(prepSeconds, 3).Value()]
             ["train/updt_s" := FixedOf(updateSeconds, 3).Value()]
             ["train/step_s" := FixedOf(stepSeconds, 3).Value()]
             ["train/samples_per_s" := FixedOf(samplesPerSecond, 0).Value()];
      if memory.Some? then values["train/mem_gb" := FixedOf(memory.value, 2).Value()] else values
    }
  }

  // ---------------------------------------------------------------- what is shown is finite

  /** At most the largest double, 2^1024 - 2^971, in magnitude. */
  ghost predicate IsDouble(x: real) {
    -(PowerOfTwo(1024) - PowerOfTwo(971)) <= x <= PowerOfTwo(1024) - PowerOfTwo(971)
  }

  lemma NearDouble(x: real, y: real)
    requires IsDouble(x) && x - 1.0 <= y <= x + 1.0
    ensures IsFinite(y)
  {
    hide IsFinite;
    FiniteExactly(y);
    assert PowerOfTwo(971) == 2.0 * PowerOfTwo(970);
    BigPower();
  }

  lemma BigPower()
    ensures PowerOfTwo(970) > 2000000000000000000.0
  {
    hide PowerOfTwo;
    PowerUpTo970();
  }

  lemma FixedIsFinite(x: real, places: nat)
    requires IsDouble(x)
    ensures FixedOf(x, places).Valid() && IsFinite(FixedOf(x, places).Value())
  {
    hide IsFinite, IsDouble, FixedOf, LastPlace, Shown.Value;
    FixedIsNear(x, places);
    SmallPlace(places);
    NearDouble(x, FixedOf(x, places).Value());
  }

  lemma SmallPlace(places: nat)
    ensures 0.0 < LastPlace(places) <= 1.0
  {
    var p := PowerOfTen(places);
    assert 1.0 / p * p == 1.0;
    assert 1.0 / p > 1.0 ==> 1.0 / p * p > p;
  }

  lemma BigIsFinite(n: nat)
    requires BigNumber(n).Some?
    ensures BigNumber(n).value.Big? && BigNumber(n).value.Valid() && IsFinite(BigNumber(n).value.Value())
  {
    hide IsFinite, BigNumber, Unit, Shown.Value;
    BigNumberIsNear(n);
    UnitsInOrder(BigNumber(n).value.thousands, 6);
    SixUnits();
    SmallIsFinite(BigNumber(n).value.Value());
  }

  lemma SixUnits()
    ensures Unit(6) == 1000000000000000000.0
  {
    hide Unit;
    FirstUnits();
    ThousandMore(1);
    ThousandMore(2);
    ThousandMore(3);
    ThousandMore(4);
    ThousandMore(5);
  }

  lemma SmallIsFinite(x: real)
    requires -2000000000000000000.0 <= x <= 2000000000000000000.0
    ensures IsFinite(x)
  {
    hide IsFinite;
    FiniteExactly(x);
    PowerOfSum(1, 970);
    PowerOfSum(54, 970);
    assert PowerOfTwo(1) == 2.0;
    PowersGrow();
    BigPower();
  }

  lemma PowersGrow()
    ensures PowerOfTwo(1024) >= 2.0 * PowerOfTwo(970)
  {
    hide PowerOfTwo;
    PowerOfSum(54, 970);
    PowerUpTo54();
    PowerUpTo970();
  }

  // ---------------------------------------------------------------- every field is stored

  /** Exactly five short names are spelled out; every other name stays as it is. */
  lemma AliasesAre(key: string)
    ensures Alias("smpl") == "samples" && Alias("ep") == "episodes" && Alias("epch") == "epochs"
    ensures Alias("grdn") == "grad_norm" && Alias("smp/s") == "samples_per_s"
    ensures key != "smpl" && key != "ep" && key != "epch" && key != "grdn" && key != "smp/s" ==> Alias(key) == key
  {
  }

  lemma KeysAreNames()
    ensures KeyChar.HasAll("smpl") && KeyChar.HasAll("ep") && KeyChar.HasAll("epch") && KeyChar.HasAll("loss")
    ensures KeyChar.HasAll("grdn") && KeyChar.HasAll("lr") && KeyChar.HasAll("data_s") && KeyChar.HasAll("prep_s")
    ensures KeyChar.HasAll("updt_s") && KeyChar.HasAll("step_s") && KeyChar.HasAll("smp/s") && KeyChar.HasAll("mem_gb")
  {
  }

  lemma CountNames()
    ensures "train/" + Alias("smpl") == "train/samples" && "train/" + Alias("ep") == "train/episodes"
    ensures "train/" + Alias("epch") == "train/epochs"
  {
    hide Alias;
    AliasesAre("");
  }

  lemma LossNames()
    ensures "train/" + Alias("loss") == "train/loss" && "train/" + Alias("grdn") == "train/grad_norm"
    ensures "train/" + Alias("lr") == "train/lr"
  {
    hide Alias;
    AliasesAre("loss");
    AliasesAre("lr");
  }

  lemma TimeNames()
    ensures "train/" + Alias("data_s") == "train/data_s" && "train/" + Alias("prep_s") == "train/prep_s"
    ensures "train/" + Alias("updt_s") == "train/updt_s"
  {
    hide Alias;
    AliasesAre("data_s");
    AliasesAre("prep_s");
    AliasesAre("updt_s");
  }

  lemma RateNames()
    ensures "train/" + Alias("step_s") == "train/step_s" && "train/" + Alias("smp/s") == "train/samples_per_s"
    ensures "train/" + Alias("mem_gb") == "train/mem_gb"
  {
    hide Alias;
    AliasesAre("step_s");
    AliasesAre("mem_gb");
  }

  /** One more field puts one more value under its long name. */
  lemma StoreMore(fields: seq<Field>, name: string, shown: Shown, long: string, values: map<string, real>)
    requires (forall f :: f in fields ==> f.Valid()) && Collect(Captures(fields)) == values
    requires name != "" && KeyChar.HasAll(name) && shown.Valid() && IsFinite(shown.Value())
    requires "train/" + Alias(name) == long
    ensures forall f :: f in fields + [Field(name, shown)] ==> f.Valid()
    ensures Collect(Captures(fields + [Field(name, shown)])) == values[long := shown.Value()]
  {
    hide Amount, IsFinite, Alias, Shown.Value, Shown.NumberText, Shown.Suffix, Shown.Valid;
    var f := Field(name, shown);
    ShownReadsBack(shown);
    CapturesMore(fields, f);
    CollectMore(Captures(fields), f.Captured());
  }

  lemma CapturesMore(fields: seq<Field>, f: Field)
    ensures Captures(fields + [f]) == Captures(fields) + [f.Captured()]
  {
    hide Field.Captured;
  }

  lemma CollectMore(pairs: seq<Pair>, p: Pair)
    ensures Collect(pairs + [p]) == Store(Collect(pairs), p)
  {
    hide Store;
    assert (pairs + [p])[..|pairs|] == pairs;
  }

  lemma NoMore(fields: seq<Field>)
    ensures fields + [] == fields
  {
  }

  lemma NothingStored()
    ensures Collect(Captures([])) == map[]
  {
  }

  /** Everything the trainer prints is stored: every count and every measure, under its long name. */
  lemma AllIsStored(t: Readings)
    requires t.InRange()
    ensures forall f :: f in t.Fields() ==> f.Valid()
    ensures Collect(Captures(t.Fields())) == t.Stored()
  {
    hide Collect, Captures, Alias, IsFinite, IsDouble, BigNumber, FixedOf, Shown.Value, Field.Valid, Class.HasAll;
    KeysAreNames();
    CountNames();
    LossNames();
    TimeNames();
    RateNames();
    NothingStored();
    BigIsFinite(t.samples);
    BigIsFinite(t.episodes);
    FixedIsFinite(t.epochs, 2);
    FixedIsFinite(t.loss, 3);
    FixedIsFinite(t.gradNorm, 3);
    NearDouble(t.lr.Value(), t.lr.Value());
    FixedIsFinite(t.dataSeconds, 3);
    FixedIsFinite(t.prepSeconds, 3);
    FixedIsFinite(t.updateSeconds, 3);
    FixedIsFinite(t.stepSeconds, 3);
    FixedIsFinite(t.samplesPerSecond, 0);
    var fs, vs := [], map[];
    StoreMore(fs, "smpl", BigNumber(t.samples).value, "train/samples", vs);
    fs, vs := fs + [Field("smpl", BigNumber(t.samples).value)], vs["train/samples" := BigNumber(t.samples).value.Value()];
    StoreMore(fs, "ep", BigNumber(t.episodes).value, "train/episodes", vs);
    fs, vs := fs + [Field("ep", BigNumber(t.episodes).value)], vs["train/episodes" := BigNumber(t.episodes).value.Value()];
    StoreMore(fs, "epch", FixedOf(t.epochs, 2), "train/epochs", vs);
    fs, vs := fs + [Field("epch", FixedOf(t.epochs, 2))], vs["train/epochs" := FixedOf(t.epochs, 2).Value()];
    StoreMore(fs, "loss", FixedOf(t.loss, 3), "train/loss", vs);
    fs, vs := fs + [Field("loss", FixedOf(t.loss, 3))], vs["train/loss" := FixedOf(t.loss, 3).Value()];
    StoreMore(fs, "grdn", FixedOf(t.gradNorm, 3), "train/grad_norm", vs);
    fs, vs := fs + [Field("grdn", FixedOf(t.gradNorm, 3))], vs["train/grad_norm" := FixedOf(t.gradNorm, 3).Value()];
    StoreMore(fs, "lr", t.lr, "train/lr", vs);
    fs, vs := fs + [Field("lr", t.lr)], vs["train/lr" := t.lr.Value()];
    StoreMore(fs, "data_s", FixedOf(t.dataSeconds, 3), "train/data_s", vs);
    fs, vs := fs + [Field("data_s", FixedOf(t.dataSeconds, 3))], vs["train/data_s" := FixedOf(t.dataSeconds, 3).Value()];
    StoreMore(fs, "prep_s", FixedOf(t.prepSeconds, 3), "train/prep_s", vs);
    fs, vs := fs + [Field("prep_s", FixedOf(t.prepSeconds, 3))], vs["train/prep_s" := FixedOf(t.prepSeconds, 3).Value()];
    StoreMore(fs, "updt_s", FixedOf(t.updateSeconds, 3), "train/updt_s", vs);
    fs, vs := fs + [Field("updt_s", FixedOf(t.updateSeconds, 3))], vs["train/updt_s" := FixedOf(t.updateSeconds, 3).Value()];
    StoreMore(fs, "step_s", FixedOf(t.stepSeconds, 3), "train/step_s", vs);
    fs, vs := fs + [Field("step_s", FixedOf(t.stepSeconds, 3))], vs["train/step_s" := FixedOf(t.stepSeconds, 3).Value()];
    StoreMore(fs, "smp/s", FixedOf(t.samplesPerSecond, 0), "train/samples_per_s", vs);
    fs, vs := fs + [Field("smp/s", FixedOf(t.samplesPerSecond, 0))],
              vs["train/samples_per_s" := FixedOf(t.samplesPerSecond, 0).Value()];
    if t.memory.Some? {
      FixedIsFinite(t.memory.value, 2);
      StoreMore(fs, "mem_gb", FixedOf(t.memory.value, 2), "train/mem_gb", vs);
    } else {
      NoMore(fs);
    }
  }

  /** Round trip of the trainer's line, for every state of the tracker: it parses back to exactly the values
      it shows under their long names.  The step is the exact one of a progress display in the line; without
      one it is the count itself below a thousand, and an error from there on. */
  lemma TrainingLineReadsBack(line: string, head: string, n: nat, t: Readings)
    requires BigNumber(n).Some? && t.InRange() && CarriesMessage(line, head, BigNumber(n).value, t.Fields())
    ensures ParseLine(line) == match Search(line, ProgressOf)
                               case Some(done) => Metric(Train, DigitsValue(done), t.Stored())
                               case None => if n < 1000 then Metric(Train, n, t.Stored()) else RoundedStep
  {
    hide Search, Scan, Collect, Captures, BigNumber, Readings.Fields, Readings.Stored, CarriesMessage, ParseEval,
         Shown.NumberText, Shown.Suffix, Shown.Value, DigitsValue, IsDouble, FixedOf, ShownNear, Unit, Class.HasAll;
    var steps := BigNumber(n).value;
    MessageFields(line, head, steps, t.Fields());
    SearchMessage(line, head, steps, t.Fields());
    ScanJoined(t.Fields());
    AllIsStored(t);
    LossIsStored(t);
    BigNumberIsNear(n);
    StepTextOf(steps);
  }

  lemma MessageFields(line: string, head: string, steps: Shown, fields: seq<Field>)
    requires CarriesMessage(line, head, steps, fields)
    ensures steps.Big? && steps.Valid() && forall f :: f in fields ==> f.Valid()
  {
    hide Field.Valid, Message;
  }

  lemma LossIsStored(t: Readings)
    requires BigNumber(t.samples).Some? && BigNumber(t.episodes).Some?
    ensures LOSS in t.Stored()
  {
    hide BigNumber, FixedOf, Shown.Value;
  }
}
