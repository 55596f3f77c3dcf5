/** How LeRobot's tracker comes by the digits it prints (.lerobot-src/src/lerobot/utils/utils.py:103-112
    and logging_utils.py:63-65), and what a printed step count therefore says. */
module TrackerNumbers {
  import opened Wrappers
  import opened Rounding
  import opened NumberValue
  import opened MetricLine
  import opened MetricParser
  import opened TrackerLine

  /** format_big_number without decimals: divide by a thousand until the number is below a thousand.
      A number that never gets there is returned unformatted. */
  function Shortened(num: real, thousands: nat): Option<Shown>
    requires num >= 0.0
    decreases 6 - thousands
  {
    if thousands > 5 then None
    else if num < 1000.0 then
      RoundOfWhole(0);
      RoundIsMonotone(0.0, num);
      Some(Big(Round(num), thousands))
    else Shortened(num / 1000.0, thousands + 1)
  }

  function BigNumber(n: nat): Option<Shown> {
    Shortened(n as real, 0)
  }

  function Scaled(size: real, places: nat): (r: real)
    ensures size >= 0.0 ==> r >= 0.0
  {
    size * PowerOfTen(places)
  }

  function Placed(scaled: nat, places: nat): real {
    scaled as real / PowerOfTen(places)
  }

  /** x with a fixed number of decimals. */
  function FixedOf(x: real, places: nat): Shown {
    var size := if x < 0.0 then -x else x;
    RoundedScale(size, places);
    Fixed(x < 0.0, Round(Scaled(size, places)), places)
  }

  /** What one unit of a suffix is worth. */
  function Unit(thousands: nat): (u: real)
    ensures u >= 1.0
  {
    PowerOfTen(3 * thousands)
  }

  /** The value is off by at most half a unit. */
  predicate Within(value: real, n: real, unit: real) {
    n - unit / 2.0 <= value <= n + unit / 2.0
  }

  lemma ThousandMore(thousands: nat)
    ensures Unit(thousands + 1) == 1000.0 * Unit(thousands)
  {
    assert PowerOfTen(3 * thousands + 1) == 10.0 * PowerOfTen(3 * thousands);
    assert PowerOfTen(3 * thousands + 2) == 10.0 * PowerOfTen(3 * thousands + 1);
    assert PowerOfTen(3 * thousands + 3) == 10.0 * PowerOfTen(3 * thousands + 2);
  }

  lemma ScaledDistance(count: real, num: real, unit: real)
    requires unit >= 1.0 && num - 0.5 <= count <= num + 0.5
    ensures Within(count * unit, num * unit, unit)
  {
  }

  /** The count that a number of units stands for. */
  function Worth(num: real, thousands: nat): real {
    num * Unit(thousands)
  }

  lemma WorthStays(num: real, thousands: nat)
    ensures Worth(num / 1000.0, thousands + 1) == Worth(num, thousands)
  {
    hide Unit;
    ThousandMore(thousands);
    assert num / 1000.0 * (1000.0 * Unit(thousands)) == num * Unit(thousands);
  }

  lemma WorthBounds(num: real, thousands: nat)
    ensures num >= 1.0 ==> Worth(num, thousands) >= Unit(thousands)
    ensures num < 1000.0 ==> Worth(num, thousands) < Unit(thousands + 1)
  {
    hide Unit;
    ThousandMore(thousands);
  }

  lemma BigValue(count: nat, thousands: nat)
    ensures Big(count, thousands).Value() == Worth(count as real, thousands)
  {
  }

  lemma RoundedIsNear(num: real, thousands: nat)
    requires num >= 0.0 && Round(num) >= 0
    ensures Within(Big(Round(num), thousands).Value(), Worth(num, thousands), Unit(thousands))
  {
    hide Round, Unit, Shown.Value;
    RoundIsNear(num);
    ScaledDistance(Round(num) as real, num, Unit(thousands));
    BigValue(Round(num), thousands);
  }

  /** n is shown with the suffix of its size, off by at most half a unit of it. */
  ghost predicate ShownNear(x: Shown, n: real) {
    && x.Big? && x.Valid()
    && Within(x.Value(), n, Unit(x.thousands))
    && (x.thousands > 0 ==> n >= Unit(x.thousands))
    && n < Unit(x.thousands + 1)
  }

  lemma {:induction false} ShortenedIsNear(num: real, thousands: nat)
    requires num >= 0.0 && thousands <= 6
    requires thousands > 0 ==> num >= 1.0
    ensures match Shortened(num, thousands)
            case Some(x) => ShownNear(x, Worth(num, thousands))
            case None => Worth(num, thousands) >= Unit(6)
    decreases 6 - thousands
  {
    hide Unit, Worth, Round, Within, Shown.Value;
    WorthBounds(num, thousands);
    if thousands == 6 {
    } else if num < 1000.0 {
      RoundOfWhole(0);
      RoundIsMonotone(0.0, num);
      RoundedIsNear(num, thousands);
    } else {
      WorthStays(num, thousands);
      ShortenedIsNear(num / 1000.0, thousands + 1);
    }
  }

  /** Exactly the counts below 10^18 are formatted, each with the suffix of its size and off by at most
      half a unit of it; below a thousand the count is shown exactly. */
  lemma BigNumberIsNear(n: nat)
    ensures BigNumber(n).Some? <==> n as real < Unit(6)
    ensures match BigNumber(n)
            case Some(x) => && ShownNear(x, n as real)
                            && (x.thousands == 0 <==> n < 1000)
                            && (n < 1000 ==> x.count == n)
            case None => true
  {
    hide Unit, Within, Shown.Value;
    FirstUnits();
    ShortenedIsNear(n as real, 0);
    assert Worth(n as real, 0) == n as real;
    RoundOfWhole(n);
    if BigNumber(n).Some? {
      UnitsInOrder(1, BigNumber(n).value.thousands);
      UnitsInOrder(BigNumber(n).value.thousands + 1, 6);
    }
  }

  lemma FirstUnits()
    ensures Unit(0) == 1.0 && Unit(1) == 1000.0
  {
    assert PowerOfTen(0) == 1.0;
    ThousandMore(0);
  }

  lemma {:induction false} UnitsInOrder(a: nat, b: nat)
    ensures a <= b ==> Unit(a) <= Unit(b)
    decreases b
  {
    hide Unit;
    if a >= b {
    } else {
      UnitsInOrder(a, b - 1);
      ThousandMore(b - 1);
    }
  }

  /** The place value of the last decimal. */
  function LastPlace(places: nat): real {
    1.0 / PowerOfTen(places)
  }

  lemma DividedDistance(count: real, size: real, scale: real)
    requires scale > 0.0 && size * scale - 0.5 <= count <= size * scale + 0.5
    ensures Within(count / scale, size, 1.0 / scale)
  {
    var q, u := count / scale, 1.0 / scale;
    assert q * scale == count && u * scale == 1.0;
    assert (q - size) * scale == count - size * scale;
    BelowHalf(q - size, u, scale);
    BelowHalf(size - q, u, scale);
  }

  lemma BelowHalf(d: real, u: real, scale: real)
    requires scale > 0.0 && d * scale <= 0.5 && u * scale == 1.0
    ensures d <= u / 2.0
  {
    assert (u / 2.0 - d) * scale >= 0.0;
  }

  /** With a fixed number of decimals the value shown is off by at most half a unit of the last one. */
  lemma FixedIsNear(x: real, places: nat)
    ensures FixedOf(x, places).Valid()
    ensures Within(FixedOf(x, places).Value(), x, LastPlace(places))
  {
    hide Round, Scaled, Placed, LastPlace;
    var size := if x < 0.0 then -x else x;
    ScaledIsNear(size, places);
    FixedValue(FixedOf(x, places));
  }

  lemma FixedValue(x: Shown)
    requires x.Fixed?
    ensures x.Value() == Signed(x.negative, Placed(x.scaled, x.places))
  {
  }

  lemma ScaledIsNear(size: real, places: nat)
    requires size >= 0.0
    ensures Round(Scaled(size, places)) >= 0
    ensures Within(Placed(Round(Scaled(size, places)), places), size, LastPlace(places))
  {
    hide Round, Within;
    RoundedScale(size, places);
    DividedDistance(Round(Scaled(size, places)) as real, size, PowerOfTen(places));
  }

  lemma RoundedScale(size: real, places: nat)
    requires size >= 0.0
    ensures Round(Scaled(size, places)) >= 0
    ensures Scaled(size, places) - 0.5 <= Round(Scaled(size, places)) as real <= Scaled(size, places) + 0.5
  {
    hide Round;
    RoundIsNear(Scaled(size, places));
    RoundOfWhole(0);
    RoundIsMonotone(0.0, Scaled(size, places));
  }

  /** The step of a tracker line without a progress display: the count itself below a thousand, an
      error from there on.  A rounded count is never taken for a step. */
  lemma PrintedStepIsExact(line: string, head: string, n: nat, fields: seq<Field>)
    requires BigNumber(n).Some? && CarriesMessage(line, head, BigNumber(n).value, fields)
    requires forall f :: f in fields ==> IsFinite(f.shown.Value())
    requires forall i, j :: 0 <= i < j < |fields| ==> Alias(fields[i].name) != Alias(fields[j].name)
    requires exists f :: f in fields && f.name == "loss"
    requires Search(line, ProgressOf) == None
    ensures if n < 1000 then ParseLine(line).Metric? && ParseLine(line).mode == Train && ParseLine(line).step == n
            else ParseLine(line) == RoundedStep
  {
    hide ParseLine, Search, Stores, Shown.Value, CarriesMessage, BigNumber, IsFinite, Alias, ShownNear, Unit;
    BigNumberIsNear(n);
    MessageReadsBack(line, head, BigNumber(n).value, fields);
  }
}
