/** The training line as LeRobot's tracker prints it (.lerobot-src/src/lerobot/utils/logging_utils.py:
    63-65, 244-255 and utils.py:103-112), and the round trip through parse_metric. */
module TrackerLine {
  import opened Wrappers
  import opened Regex
  import opened NumberScan
  import opened NumberValue
  import opened MetricScan
  import opened TokenDecode
  import opened MetricLine
  import opened MetricParser
  import opened MetricFacts

  function DigitChar(d: nat): char
    requires d < 10
  {
    (d + '0' as nat) as char
  }

  /** str() of a natural number. */
  function DigitText(n: nat): (t: string)
    ensures t != "" && Digit.HasAll(t)
  {
    (if n < 10 then "" else DigitText(n / 10)) + [DigitChar(n % 10)]
  }

  /** n as exactly w digits. */
  function PaddedText(n: nat, w: nat): (t: string)
    ensures |t| == w && Digit.HasAll(t)
  {
    if w == 0 then "" else PaddedText(n / 10, w - 1) + [DigitChar(n % 10)]
  }

  function Ten(w: nat): (n: nat)
    ensures n >= 1 && n as real == PowerOfTen(w)
  {
    if w == 0 then 1 else 10 * Ten(w - 1)
  }

  /** A number as the tracker formats it: with a fixed number of decimals (":.3f"), in scientific
      notation (":0.1e"), or rounded to thousands by format_big_number.  The digits that are shown
      are whole numbers: scaled/10^places is the value before the exponent. */
  datatype Shown =
    | Fixed(negative: bool, scaled: nat, places: nat)
    | Scientific(negative: bool, scaled: nat, places: nat, exponent: int)
    | Big(count: nat, thousands: nat)
  {
    predicate Valid() {
      Big? ==> thousands <= 5
    }

    function Suffix(): string {
      if Big? && 1 <= thousands <= 5 then ["KMBTQ"[thousands - 1]] else ""
    }

    function NumberText(): string {
      match this
      case Fixed(negative, scaled, places) => SignText(negative) + MantissaText(scaled, places)
      case Scientific(negative, scaled, places, exponent) =>
        SignText(negative) + MantissaText(scaled, places) + PowerText(exponent)
      case Big(count, _) => DigitText(count)
    }

    function Value(): real {
      match this
      case Fixed(negative, scaled, places) => Signed(negative, scaled as real / PowerOfTen(places))
      case Scientific(negative, scaled, places, exponent) =>
        var size := scaled as real / PowerOfTen(places);
        Signed(negative, if exponent < 0 then size / PowerOfTen(-exponent) else size * PowerOfTen(exponent))
      case Big(count, thousands) => count as real * PowerOfTen(3 * thousands)
    }
  }

  function SignText(negative: bool): string {
    if negative then "-" else ""
  }

  function Signed(negative: bool, size: real): real {
    if negative then -size else size
  }

  function Divide(n: nat, d: nat): (nat, nat)
    requires d > 0
  {
    (n / d, n % d)
  }

  function WholePart(scaled: nat, places: nat): nat {
    Divide(scaled, Ten(places)).0
  }

  function DecimalPart(scaled: nat, places: nat): nat {
    Divide(scaled, Ten(places)).1
  }

  function FractionText(scaled: nat, places: nat): string {
    if places == 0 then "" else "." + PaddedText(DecimalPart(scaled, places), places)
  }

  function MantissaText(scaled: nat, places: nat): string {
    DigitText(WholePart(scaled, places)) + FractionText(scaled, places)
  }

  /** Python prints the exponent with a sign and at least two digits. */
  function PowerText(exponent: int): string {
    var size := if exponent < 0 then -exponent else exponent;
    "e" + (if exponent < 0 then "-" else "+") + (if size < 10 then "0" else "") + DigitText(size)
  }

  datatype Field = Field(name: string, shown: Shown)
  {
    predicate Valid() {
      name != "" && KeyChar.HasAll(name) && shown.Valid()
    }

    function Text(): string {
      name + ":" + shown.NumberText() + shown.Suffix()
    }

    function Captured(): Pair {
      Pair(name, shown.NumberText(), shown.Suffix())
    }
  }

  function Joined(fields: seq<Field>): string {
    if fields == [] then ""
    else if |fields| == 1 then fields[0].Text()
    else fields[0].Text() + " " + Joined(fields[1..])
  }

  function Captures(fields: seq<Field>): seq<Pair> {
    seq(|fields|, i requires 0 <= i < |fields| => fields[i].Captured())
  }

  /** The message: the rounded step count, then the other fields. */
  function Message(steps: Shown, fields: seq<Field>): string
    requires steps.Big?
  {
    "step:" + steps.NumberText() + steps.Suffix() + " " + Joined(fields)
  }

  // ---------------------------------------------------------------- digits

  lemma {:induction false} DigitTextValue(n: nat)
    ensures DigitsValue(DigitText(n)) == n
  {
    var t := DigitText(n);
    assert t[..|t| - 1] == if n < 10 then "" else DigitText(n / 10);
    if n < 10 {
    } else {
      DigitTextValue(n / 10);
    }
  }

  lemma TenthBelow(n: nat, w: nat)
    requires w > 0 && n < Ten(w)
    ensures n / 10 < Ten(w - 1)
  {
  }

  lemma {:induction false} PaddedTextValue(n: nat, w: nat)
    requires n < Ten(w)
    ensures DigitsValue(PaddedText(n, w)) == n
  {
    hide Ten;
    if w == 0 {
      TenToZero();
    } else {
      var t := PaddedText(n, w);
      assert t[..w - 1] == PaddedText(n / 10, w - 1);
      TenthBelow(n, w);
      PaddedTextValue(n / 10, w - 1);
    }
  }

  lemma LeadingZero(t: string)
    ensures DigitsValue("0" + t) == DigitsValue(t)
  {
    if t != "" {
      assert ("0" + t)[..|t|] == "0" + t[..|t| - 1];
      LeadingZero(t[..|t| - 1]);
    } else {
      assert "0" + t == "0";
      assert DigitsValue("0") == 10 * DigitsValue("0"[..0]) + DigitValue('0');
    }
  }

  // ---------------------------------------------------------------- one number

  predicate EndsMantissa(rest: string) {
    rest == "" || rest[0] == 'e'
  }

  lemma MantissaTextLen(scaled: nat, places: nat, rest: string)
    requires EndsMantissa(rest)
    ensures MantissaLen(MantissaText(scaled, places) + rest) == |MantissaText(scaled, places)|
  {
    hide DigitText, PaddedText, WholePart, DecimalPart;
    var a, f := DigitText(WholePart(scaled, places)), FractionText(scaled, places);
    var t := a + f + rest;
    Digit.RunIs(t, |a|);
    assert t[|a|..] == f + rest;
    if places > 0 {
      var b := PaddedText(DecimalPart(scaled, places), places);
      assert (f + rest)[1..] == b + rest;
      Digit.RunIs(b + rest, places);
    }
  }

  lemma PartsAddUp(scaled: nat, places: nat)
    ensures DecimalPart(scaled, places) < Ten(places)
    ensures WholePart(scaled, places) as real + DecimalPart(scaled, places) as real / PowerOfTen(places)
            == scaled as real / PowerOfTen(places)
    ensures places == 0 ==> DecimalPart(scaled, places) == 0
  {
    hide Ten, PowerOfTen;
    var n, q, r := Ten(places), WholePart(scaled, places), DecimalPart(scaled, places);
    assert scaled == q * n + r;
    QuotientAndRest(q, r, n, scaled);
    if places == 0 {
      TenToZero();
    }
  }

  lemma TenToZero()
    ensures Ten(0) == 1
  {
  }

  lemma QuotientAndRest(q: nat, r: nat, n: nat, scaled: nat)
    requires n >= 1 && scaled == q * n + r
    ensures q as real + r as real / n as real == scaled as real / n as real
  {
    assert scaled as real == q as real * n as real + r as real;
  }

  lemma MantissaTextSplits(scaled: nat, places: nat)
    ensures var a, b := DigitText(WholePart(scaled, places)), PaddedText(DecimalPart(scaled, places), places);
            var t := MantissaText(scaled, places);
            && Digit.Run(t) == |a| && t[..|a|] == a
            && (if places > 0 then |t| == |a| + 1 + places && t[|a| + 1..] == b else t == a)
  {
    hide DigitText, PaddedText, WholePart, DecimalPart, Class.Run;
    var a, b := DigitText(WholePart(scaled, places)), PaddedText(DecimalPart(scaled, places), places);
    RunBeforePoint(a, b);
    Digit.RunIs(a, |a|);
  }

  lemma RunBeforePoint(a: string, b: string)
    requires Digit.HasAll(a)
    ensures Digit.Run(a + ("." + b)) == |a| && (a + ("." + b))[..|a|] == a && (a + ("." + b))[|a| + 1..] == b
    ensures a + "" == a
  {
    hide Class.Run;
    Digit.RunIs(a + ("." + b), |a|);
  }

  lemma MantissaTextValue(scaled: nat, places: nat)
    ensures MantissaValue(MantissaText(scaled, places)) == scaled as real / PowerOfTen(places)
  {
    hide DigitText, PaddedText, DigitsValue, WholePart, DecimalPart, Ten, PowerOfTen, Class.Run, MantissaText;
    MantissaTextSplits(scaled, places);
    DigitTextValue(WholePart(scaled, places));
    PartsAddUp(scaled, places);
    PaddedTextValue(DecimalPart(scaled, places), places);
    NoDecimals(scaled);
  }

  lemma NoDecimals(scaled: nat)
    ensures WholePart(scaled, 0) as real == scaled as real / PowerOfTen(0)
  {
    TenToZero();
  }

  lemma PowerTextLen(exponent: int)
    ensures PowerLen(PowerText(exponent)) == |PowerText(exponent)|
  {
    hide DigitText;
    var t := PowerText(exponent);
    assert Digit.HasAll(t[2..]);
    Digit.RunIs(t[2..], |t| - 2);
    assert t[1..][0] == t[1];
  }

  lemma ShiftedByText(mantissa: real, exponent: int)
    ensures Shifted(mantissa, PowerText(exponent))
            == if exponent < 0 then mantissa / PowerOfTen(-exponent) else mantissa * PowerOfTen(exponent)
  {
    hide DigitText, DigitsValue;
    var size := if exponent < 0 then -exponent else exponent;
    var t := PowerText(exponent)[1..];
    assert t[0] == if exponent < 0 then '-' else '+';
    assert t[1..] == if size < 10 then "0" + DigitText(size) else DigitText(size);
    LeadingZero(DigitText(size));
    DigitTextValue(size);
  }

  /** Sign, mantissa and exponent, as NumberText puts them together. */
  lemma NumberOfParts(negative: bool, scaled: nat, places: nat, power: string)
    requires power == "" || (power[0] == 'e' && PowerLen(power) == |power|)
    ensures var t := SignText(negative) + MantissaText(scaled, places) + power;
            && NumberLen(t) == |t| > 0
            && FloatValue(t) == Signed(negative, Shifted(scaled as real / PowerOfTen(places), power))
  {
    hide PowerLen, Shifted, MantissaLen, MantissaValue, MantissaText, DigitText;
    var m := MantissaText(scaled, places);
    var t := SignText(negative) + m + power;
    MantissaTextLen(scaled, places, power);
    MantissaTextValue(scaled, places);
    MantissaTextStarts(scaled, places);
    assert SignLen(t) == |SignText(negative)|;
    assert t[SignLen(t)..] == m + power;
    assert (m + power)[..|m|] == m && (m + power)[|m|..] == power && t[SignLen(t) + |m|..] == power;
    assert power == "" ==> PowerLen(power) == 0;
  }

  lemma MantissaTextStarts(scaled: nat, places: nat)
    ensures MantissaText(scaled, places) != "" && IsDigit(MantissaText(scaled, places)[0])
  {
    hide DigitText, WholePart;
    assert Digit.Has(DigitText(WholePart(scaled, places))[0]);
  }

  /** What is shown reads back as the value it shows. */
  lemma ShownReadsBack(x: Shown)
    requires x.Valid()
    ensures NumberLen(x.NumberText()) == |x.NumberText()| > 0
    ensures Amount(x.NumberText(), x.Suffix()) == x.Value()
  {
    hide NumberLen, FloatValue, MantissaText, PowerText, DigitText, Shifted, Amount, PowerOfTen;
    match x
    case Fixed(negative, scaled, places) =>
      NumberOfParts(negative, scaled, places, "");
      assert SignText(negative) + MantissaText(scaled, places) + "" == x.NumberText();
      NoShift(scaled as real / PowerOfTen(places));
      PlainAmount(x.NumberText());
    case Scientific(negative, scaled, places, exponent) =>
      PowerTextLen(exponent);
      PowerTextStarts(exponent);
      NumberOfParts(negative, scaled, places, PowerText(exponent));
      ShiftedByText(scaled as real / PowerOfTen(places), exponent);
      PlainAmount(x.NumberText());
    case Big(count, thousands) =>
      NumberOfParts(false, count, 0, "");
      WholeMantissa(count);
      NoShift(count as real / PowerOfTen(0));
      assert SignText(false) + MantissaText(count, 0) + "" == x.NumberText();
      ScaledAmount(x);
  }

  lemma PlainAmount(number: string)
    ensures Amount(number, "") == FloatValue(number)
  {
    hide FloatValue;
  }

  lemma ScaledAmount(x: Shown)
    requires x.Big? && x.Valid() && FloatValue(x.NumberText()) == x.count as real / PowerOfTen(0)
    ensures Amount(x.NumberText(), x.Suffix()) == x.Value()
  {
    hide FloatValue, DigitText;
    assert Thousands(x.Suffix()) == x.thousands;
    assert PowerOfTen(0) == 1.0;
  }

  lemma NoShift(size: real)
    ensures Shifted(size, "") == size
  {
  }

  lemma PowerTextStarts(exponent: int)
    ensures PowerText(exponent) != "" && PowerText(exponent)[0] == 'e'
  {
  }

  lemma WholeMantissa(count: nat)
    ensures MantissaText(count, 0) == DigitText(count)
  {
  }

  // ---------------------------------------------------------------- the message

  lemma SuffixIsMagnitude(x: Shown)
    ensures x.Suffix() == "" || (|x.Suffix()| == 1 && IsMagnitude(x.Suffix()[0]) && !IsNumberChar(x.Suffix()[0]))
  {
  }

  lemma ScanField(f: Field)
    requires f.Valid()
    ensures Scan(f.Text()) == [f.Captured()]
  {
    hide NumberLen, Shown.NumberText, Shown.Suffix, Amount, Shown.Value, HeadCuts;
    var s, num, suf := f.Text(), f.shown.NumberText(), f.shown.Suffix();
    HeadOfField(f);
    var c := HeadCuts(s).value;
    assert c.Value(s) == num + suf;
    assert c.Value(s)[..|num|] == num && c.Value(s)[|num|..] == suf && s[..|f.name|] == f.name;
    assert c.Captured(s) == f.Captured() && c.Rest(s) == "";
    ScanNothing();
    assert Scan(s) == [c.Captured(s)] + Scan(c.Rest(s));
  }

  lemma HeadOfField(f: Field)
    requires f.Valid()
    ensures var num, suf := f.shown.NumberText(), f.shown.Suffix();
            HeadCuts(f.Text()) == Some(Cuts(|f.name|, |num|, |num| + |suf|))
  {
    hide NumberLen, Shown.NumberText, Shown.Suffix, Amount, Shown.Value, Class.Run;
    var s, num, suf := f.Text(), f.shown.NumberText(), f.shown.Suffix();
    ShownReadsBack(f.shown);
    SuffixIsMagnitude(f.shown);
    KeyChar.RunIs(s, |f.name|);
    assert s[|f.name| + 1..] == num + suf;
    NumberLenLocal(num, suf);
    assert AmountLen(num + suf) == |num + suf|;
  }

  lemma {:induction false} ScanJoined(fields: seq<Field>)
    requires forall f :: f in fields ==> f.Valid()
    ensures Scan(Joined(fields)) == Captures(fields)
  {
    hide Scan, Field.Text, Field.Captured, Field.Valid;
    if fields == [] {
      ScanNothing();
    } else if |fields| == 1 {
      ScanField(fields[0]);
    } else {
      ScanField(fields[0]);
      ScanJoined(fields[1..]);
      ScanOfParts(fields[0].Text(), ' ', Joined(fields[1..]));
      CapturesFirst(fields);
    }
  }

  lemma CapturesFirst(fields: seq<Field>)
    requires fields != []
    ensures Captures(fields) == [fields[0].Captured()] + Captures(fields[1..])
  {
    hide Field.Captured;
  }

  lemma ScanNothing()
    ensures Scan("") == []
  {
  }

  /** No text of a field contains a newline, and the first starts with a key character. */
  lemma FieldText(f: Field)
    requires f.Valid()
    ensures f.Text() != "" && !IsSpace(f.Text()[0]) && '\n' !in f.Text()
  {
    hide NumberLen, Shown.NumberText, Amount, Shown.Value;
    ShownReadsBack(f.shown);
    forall i | 0 <= i < |f.shown.NumberText()|
      ensures f.shown.NumberText()[i] != '\n'
    {
      NumberChars(f.shown.NumberText(), i);
    }
  }

  lemma {:induction false} JoinedText(fields: seq<Field>)
    requires fields != [] && forall f :: f in fields ==> f.Valid()
    ensures Joined(fields) != "" && !IsSpace(Joined(fields)[0]) && '\n' !in Joined(fields)
  {
    hide Field.Text;
    FieldText(fields[0]);
    if |fields| <= 1 {
    } else {
      JoinedText(fields[1..]);
    }
  }

  /** The training pattern matches the message from its start to its end. */
  lemma MessageHead(steps: Shown, fields: seq<Field>)
    requires steps.Big? && steps.Valid() && fields != [] && forall f :: f in fields ==> f.Valid()
    ensures TrainOf(Message(steps, fields))
            == Some(TrainHit(steps.NumberText() + steps.Suffix(), Joined(fields)))
  {
    hide DigitText, Joined, Shown.Suffix, Shown.NumberText, Class.Run, StepLen;
    JoinedText(fields);
    var u, t, j := Message(steps, fields), steps.NumberText() + steps.Suffix(), Joined(fields);
    var w := u[5..];
    assert "step:" <= u && w == t + (" " + j);
    StepTextEnds(steps, " " + j);
    assert w[|t|..] == " " + j && w[..|t|] == t;
    GapAndRest(j);
  }

  lemma StepTextEnds(steps: Shown, rest: string)
    requires steps.Big? && rest != "" && IsSpace(rest[0])
    ensures StepLen(steps.NumberText() + steps.Suffix() + rest) == |steps.NumberText() + steps.Suffix()| > 0
  {
    hide DigitText, Shown.Suffix;
    SuffixIsMagnitude(steps);
    Digit.RunIs(steps.NumberText() + steps.Suffix() + rest, |steps.NumberText()|);
  }

  lemma GapAndRest(j: string)
    requires j != "" && !IsSpace(j[0]) && '\n' !in j
    ensures Space.Run(" " + j) == 1 && (" " + j)[1..] == j && NotNewline.Run(j) == |j| && j[..|j|] == j
  {
    Space.RunIs(" " + j, 1);
    NotNewline.RunIs(j, |j|);
  }

  /** A log line whose message starts at the first "step:" of the line. */
  ghost predicate CarriesMessage(line: string, head: string, steps: Shown, fields: seq<Field>) {
    && steps.Big? && steps.Valid()
    && fields != [] && (forall f :: f in fields ==> f.Valid())
    && line == head + Message(steps, fields)
    && (head == "" || !IsWord(head[|head| - 1]))
    && (forall p :: 0 <= p < |head| ==> !("step:" <= line[p..]))
  }

  lemma NoStepNoHit(u: string)
    ensures !("step:" <= u) ==> TrainOf(u) == None
  {
  }

  lemma MessageStarts(steps: Shown, fields: seq<Field>)
    requires steps.Big?
    ensures Message(steps, fields) != "" && Message(steps, fields)[0] == 's'
  {
  }

  lemma SearchMessage(line: string, head: string, steps: Shown, fields: seq<Field>)
    requires CarriesMessage(line, head, steps, fields)
    ensures Search(line, TrainOf) == Some(TrainHit(steps.NumberText() + steps.Suffix(), Joined(fields)))
  {
    hide Shown.NumberText, Shown.Suffix, Joined, Message, TrainOf, Field.Valid;
    MessageHead(steps, fields);
    MessageStarts(steps, fields);
    assert line[|head|..] == Message(steps, fields);
    assert line[|head|] == 's';
    forall p | 0 <= p < |head|
      ensures Hit(line, p, TrainOf) == None
    {
      NoStepNoHit(line[p..]);
    }
    SearchAt(line, |head|, TrainOf);
  }

  /** Every field whose shown value a double can hold is stored, under its long name. */
  ghost predicate Stores(values: map<string, real>, fields: seq<Field>) {
    && (forall name :: name in values <==> exists f :: f in fields && "train/" + Alias(f.name) == name)
    && (forall f :: f in fields ==> "train/" + Alias(f.name) in values
                                    && values["train/" + Alias(f.name)] == f.shown.Value())
  }

  lemma CollectStores(fields: seq<Field>)
    requires forall f :: f in fields ==> f.Valid() && IsFinite(f.shown.Value())
    requires forall i, j :: 0 <= i < j < |fields| ==> Alias(fields[i].name) != Alias(fields[j].name)
    ensures Stores(Collect(Captures(fields)), fields)
  {
    hide Collect, Amount, Alias, IsFinite, Shown.Value, Shown.NumberText, Shown.Suffix;
    var pairs := Captures(fields);
    forall i | 0 <= i < |fields|
      ensures Writes(pairs[i], "train/" + Alias(fields[i].name))
      ensures Amount(pairs[i].number, pairs[i].suffix) == fields[i].shown.Value()
    {
      ShownReadsBack(fields[i].shown);
    }
    forall name
      ensures name in Collect(pairs) <==> exists n: nat :: LastWrite(pairs, name, n)
      ensures forall n: nat :: LastWrite(pairs, name, n) ==>
                Collect(pairs)[name] == Amount(pairs[n].number, pairs[n].suffix)
    {
      CollectKeepsLast(pairs, name);
    }
    forall i: nat | i < |fields|
      ensures LastWrite(pairs, "train/" + Alias(fields[i].name), i)
    {
      forall m | i < m < |fields|
        ensures !Writes(pairs[m], "train/" + Alias(fields[i].name))
      {
        TrainNameInjective(Alias(fields[i].name), Alias(fields[m].name));
      }
    }
  }

  lemma TrainNameInjective(a: string, b: string)
    requires a != b
    ensures "train/" + a != "train/" + b
  {
    assert ("train/" + a)[6..] == a && ("train/" + b)[6..] == b;
  }

  /** Round trip: a line that carries a tracker message with distinct names, one of them the loss,
      parses back to the values it shows.  The step is the exact one of a progress display in the
      line; without one it is the printed step, and an error if that is rounded to thousands. */
  lemma MessageReadsBack(line: string, head: string, steps: Shown, fields: seq<Field>)
    requires CarriesMessage(line, head, steps, fields)
    requires forall f :: f in fields ==> IsFinite(f.shown.Value())
    requires forall i, j :: 0 <= i < j < |fields| ==> Alias(fields[i].name) != Alias(fields[j].name)
    requires exists f :: f in fields && f.name == "loss"
    ensures match ParseLine(line)
            case Metric(mode, step, values) =>
              && mode == Train
              && Stores(values, fields)
              && (match Search(line, ProgressOf)
                  case Some(done) => step == DigitsValue(done)
                  case None => step == steps.count && steps.thousands == 0)
            case RoundedStep => Search(line, ProgressOf) == None && steps.thousands > 0
            case NoMetric => false
  {
    hide Search, Collect, Shown.Value, Shown.NumberText, Shown.Suffix, DigitsValue, IsFinite, Captures, Class.HasAll;
    MessageParses(line, head, steps, fields);
    StepTextOf(steps);
  }

  lemma MessageParses(line: string, head: string, steps: Shown, fields: seq<Field>)
    requires CarriesMessage(line, head, steps, fields)
    requires forall f :: f in fields ==> IsFinite(f.shown.Value())
    requires forall i, j :: 0 <= i < j < |fields| ==> Alias(fields[i].name) != Alias(fields[j].name)
    requires exists f :: f in fields && f.name == "loss"
    ensures Stores(Collect(Captures(fields)), fields)
    ensures ParseLine(line) == ParseTrain(line, steps.NumberText() + steps.Suffix(), Collect(Captures(fields)))
  {
    hide Search, Collect, Scan, Shown.Value, Shown.NumberText, Shown.Suffix, IsFinite, Joined, Captures, ParseTrain, ParseEval, Alias, Message;
    SearchMessage(line, head, steps, fields);
    ScanJoined(fields);
    CollectStores(fields);
    LossName();
  }

  lemma LossName()
    ensures "train/" + Alias("loss") == LOSS
  {
  }

  lemma StepTextOf(steps: Shown)
    requires steps.Big? && steps.Valid()
    ensures Digit.HasAll(steps.NumberText() + steps.Suffix()) <==> steps.thousands == 0
    ensures steps.thousands == 0 ==> DigitsValue(steps.NumberText() + steps.Suffix()) == steps.count
  {
    hide DigitText, DigitsValue;
    var t := steps.NumberText() + steps.Suffix();
    if steps.thousands == 0 {
      assert t == steps.NumberText();
      DigitTextValue(steps.count);
    } else {
      assert t[|t| - 1] == "KMBTQ"[steps.thousands - 1];
    }
  }
}
