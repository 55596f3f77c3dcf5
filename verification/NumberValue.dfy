/** What float() and int() make of the captured texts, over the reals. */
module NumberValue {
  import opened Regex
  import opened NumberScan

  function DigitValue(c: char): nat {
    if IsDigit(c) then c as nat - '0' as nat else 0
  }

  /** int() of a run of decimal digits. */
  function DigitsValue(t: string): nat {
    if t == "" then 0 else 10 * DigitsValue(t[..|t| - 1]) + DigitValue(t[|t| - 1])
  }

  function PowerOfTen(n: nat): (r: real)
    ensures r >= 1.0
  {
    if n == 0 then 1.0 else 10.0 * PowerOfTen(n - 1)
  }

  /** Digits, optionally followed by a point and more digits. */
  function MantissaValue(t: string): real {
    var d := Digit.Run(t);
    if d + 1 < |t|
    then DigitsValue(t[..d]) as real + DigitsValue(t[d + 1..]) as real / PowerOfTen(|t| - d - 1)
    else DigitsValue(t[..d]) as real
  }

  function Negated(t: string): bool {
    t != "" && t[0] == '-'
  }

  function Shifted(mantissa: real, power: string): real {
    if power == "" then mantissa
    else
      var t := power[1..];
      var n := DigitsValue(t[SignLen(t)..]);
      if Negated(t) then mantissa / PowerOfTen(n) else mantissa * PowerOfTen(n)
  }

  /** float() of a text in the language of NUMBER. */
  function FloatValue(t: string): real {
    var u := t[SignLen(t)..];
    var m := MantissaLen(u);
    var size := Shifted(MantissaValue(u[..m]), u[m..]);
    if Negated(t) then -size else size
  }

  /** The position of a suffix letter in " KMBTQ"; 0 without a letter. */
  function Thousands(suffix: string): (k: nat)
    ensures k <= 5
  {
    if suffix == "K" then 1
    else if suffix == "M" then 2
    else if suffix == "B" then 3
    else if suffix == "T" then 4
    else if suffix == "Q" then 5
    else 0
  }

  /** A number scaled by 1000 to the power of its suffix. */
  function Amount(number: string, suffix: string): real {
    FloatValue(number) * PowerOfTen(3 * Thousands(suffix))
  }

  /** 2^1024 - 2^970: the least magnitude that rounds to an infinite double. */
  const OVERFLOW: real := 179769313486231580793728971405303415079934132710037826936173778980444968292764750946649017977587207096330286416692887910946555547851940402630657488671505820681908902000708383676273854845817711531764475730270069855571366959622842914819860834936475292719074168444365510704342711559699508093042880177904174497792.0

  predicate IsFinite(x: real) {
    -OVERFLOW < x < OVERFLOW
  }
}
