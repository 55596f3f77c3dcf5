/** Every way a number can be written (scripts/stream_smolvla_wandb.py:24), the characters it and its
    surroundings are made of, and the value it reads back as. */
module NumberForms {
  import opened Wrappers
  import opened Regex
  import opened NumberScan
  import opened NumberValue

  // ---------------------------------------------------------------- characters

  lemma DigitsAre(c: char)
    ensures IsDigit(c) <==> c in "0123456789"
  {
    if IsDigit(c) {
      assert "0123456789"[c as int - '0' as int] == c;
    }
  }

  lemma SmallLettersAre(c: char)
    ensures 'a' <= c <= 'z' <==> c in "abcdefghijklm" || c in "nopqrstuvwxyz"
  {
    if 'a' <= c <= 'm' {
      assert "abcdefghijklm"[c as int - 'a' as int] == c;
    } else if 'n' <= c <= 'z' {
      assert "nopqrstuvwxyz"[c as int - 'n' as int] == c;
    }
  }

  lemma CapitalLettersAre(c: char)
    ensures 'A' <= c <= 'Z' <==> c in "ABCDEFGHIJKLM" || c in "NOPQRSTUVWXYZ"
  {
    if 'A' <= c <= 'M' {
      assert "ABCDEFGHIJKLM"[c as int - 'A' as int] == c;
    } else if 'N' <= c <= 'Z' {
      assert "NOPQRSTUVWXYZ"[c as int - 'N' as int] == c;
    }
  }

  /** A word character is a letter, a digit or an underscore; a key may hold slashes, too. */
  lemma WordCharactersAre(c: char)
    ensures IsWord(c) <==> c in "abcdefghijklm" || c in "nopqrstuvwxyz" || c in "ABCDEFGHIJKLM"
                           || c in "NOPQRSTUVWXYZ" || c in "0123456789" || c == '_'
    ensures IsKeyChar(c) <==> IsWord(c) || c == '/'
  {
    SmallLettersAre(c);
    CapitalLettersAre(c);
    DigitsAre(c);
  }

  /** White space: tab, newline, vertical tab, form feed, carriage return, the four separators, blank. */
  lemma SpacesAre(c: char)
    ensures IsSpace(c) <==> c in "\t\n\U{0B}\U{0C}\r" || c in "\U{1C}\U{1D}\U{1E}\U{1F} "
  {
    if 9 <= c as int <= 13 {
      assert "\t\n\U{0B}\U{0C}\r"[c as int - 9] == c;
    } else if 28 <= c as int <= 32 {
      assert "\U{1C}\U{1D}\U{1E}\U{1F} "[c as int - 28] == c;
    }
  }

  lemma MagnitudesAre(c: char)
    ensures IsMagnitude(c) <==> c == 'K' || c == 'M' || c == 'B' || c == 'T' || c == 'Q'
    ensures Thousands("K") == 1 && Thousands("M") == 2 && Thousands("B") == 3 && Thousands("T") == 4
    ensures Thousands("Q") == 5 && Thousands("") == 0
  {
  }

  lemma NumberCharactersAre(c: char)
    ensures IsNumberChar(c) <==> c in "0123456789" || c == '+' || c == '-' || c == '.' || c == 'e' || c == 'E'
  {
    DigitsAre(c);
  }

  lemma DigitValuesAre(d: nat)
    requires d < 10
    ensures DigitValue("0123456789"[d]) == d
  {
  }

  // ---------------------------------------------------------------- numbers

  predicate IsSignText(t: string) {
    t == "" || t == "+" || t == "-"
  }

  predicate AreDigits(t: string) {
    forall i :: 0 <= i < |t| ==> '0' <= t[i] <= '9'
  }

  datatype Exponent = Exponent(letter: char, sign: string, digits: string)
  {
    predicate Valid() {
      (letter == 'e' || letter == 'E') && IsSignText(sign) && digits != "" && AreDigits(digits)
    }

    function Text(): string {
      [letter] + (sign + digits)
    }
  }

  /** A sign or none, digits, a point with digits or none, and an exponent or none; there is a digit in
      front of the point or behind it. */
  datatype Form = Form(sign: string, whole: string, fraction: Option<string>, exponent: Option<Exponent>)
  {
    predicate Valid() {
      && IsSignText(sign) && AreDigits(whole)
      && (fraction.Some? ==> AreDigits(fraction.value))
      && (whole == "" ==> fraction.Some? && fraction.value != "")
      && (exponent.Some? ==> exponent.value.Valid())
    }

    function Mantissa(): string {
      match fraction
      case None => whole
      case Some(b) => whole + ("." + b)
    }

    function Power(): string {
      match exponent
      case None => ""
      case Some(p) => p.Text()
    }

    function Text(): string {
      sign + (Mantissa() + Power())
    }

    function Size(): real {
      match fraction
      case None => DigitsValue(whole) as real
      case Some(b) => DigitsValue(whole) as real + DigitsValue(b) as real / PowerOfTen(|b|)
    }

    /** The number that is written. */
    function Value(): real {
      var size := match exponent
                  case None => Size()
                  case Some(p) => if p.sign == "-" then Size() / PowerOfTen(DigitsValue(p.digits))
                                  else Size() * PowerOfTen(DigitsValue(p.digits));
      if sign == "-" then -size else size
    }
  }

  lemma RunOf(a: string, rest: string)
    requires AreDigits(a) && (rest == "" || !IsDigit(rest[0]))
    ensures Digit.Run(a + rest) == |a| && (a + rest)[..|a|] == a && (a + rest)[|a|..] == rest
  {
    hide Class.Run;
    assert (a + rest)[..|a|] == a;
    Digit.RunIs(a + rest, |a|);
  }

  lemma PointRun(b: string, rest: string)
    requires AreDigits(b) && (rest == "" || !IsDigit(rest[0]))
    ensures FractionLen("." + b + rest) == 1 + |b|
  {
    hide Class.Run;
    assert ("." + b + rest)[1..] == b + rest;
    RunOf(b, rest);
  }

  lemma MantissaLenOf(x: Form)
    requires x.Valid()
    ensures MantissaLen(x.Mantissa() + x.Power()) == |x.Mantissa()| > 0
  {
    hide AreDigits, MantissaLen, Form.Power;
    PowerStarts(x);
    match x.fraction
    case None =>
      WholeLen(x.whole, x.Power());
    case Some(b) =>
      PointLen(x.whole, b, x.Power());
  }

  lemma WholeLen(a: string, rest: string)
    requires a != "" && AreDigits(a) && (rest == "" || rest[0] in "eE")
    ensures MantissaLen(a + rest) == |a|
  {
    hide Class.Run, AreDigits;
    RunOf(a, rest);
  }

  lemma PointLen(a: string, b: string, rest: string)
    requires AreDigits(a) && AreDigits(b) && (a != "" || b != "") && (rest == "" || rest[0] in "eE")
    ensures MantissaLen(a + ("." + b) + rest) == |a| + 1 + |b|
  {
    hide Class.Run, AreDigits, FractionLen;
    Regroup(a, "." + b, rest);
    RunOf(a, "." + b + rest);
    PointRun(b, rest);
  }

  lemma Regroup(a: string, b: string, c: string)
    ensures (a + b) + c == a + (b + c)
  {
  }

  lemma SplitAt(t: string, i: nat)
    requires i <= |t|
    ensures t == t[..i] + t[i..]
  {
  }

  lemma PowerStarts(x: Form)
    requires x.Valid()
    ensures x.Power() == "" || x.Power()[0] in "eE"
  {
  }

  lemma MantissaValueOf(x: Form)
    requires x.Valid()
    ensures MantissaValue(x.Mantissa()) == x.Size()
  {
    hide Class.Run, AreDigits, DigitsValue, PowerOfTen;
    NoDigits();
    match x.fraction
    case None =>
      RunOf(x.whole, "");
      assert x.whole + "" == x.whole;
    case Some(b) =>
      RunOf(x.whole, "." + b);
      assert x.Mantissa()[|x.whole| + 1..] == b;
  }

  lemma NoDigits()
    ensures DigitsValue("") == 0 && PowerOfTen(0) == 1.0
  {
  }

  lemma SignOf(sign: string, rest: string)
    requires IsSignText(sign) && (sign == "" ==> rest == "" || !IsSign(rest[0]))
    ensures SignLen(sign + rest) == |sign| && (sign + rest)[|sign|..] == rest
    ensures Negated(sign + rest) <==> sign == "-"
  {
    if sign == "" && rest != "" {
      assert (sign + rest)[0] == rest[0];
    }
  }

  lemma ExponentOf(p: Exponent, m: real)
    requires p.Valid()
    ensures PowerLen(p.Text()) == |p.Text()|
    ensures Shifted(m, p.Text()) == if p.sign == "-" then m / PowerOfTen(DigitsValue(p.digits))
                                    else m * PowerOfTen(DigitsValue(p.digits))
  {
    hide Class.Run, AreDigits, DigitsValue, PowerOfTen, SignLen, Negated;
    var t := p.sign + p.digits;
    assert p.Text()[1..] == t;
    FirstIsDigit(p.digits);
    SignOf(p.sign, p.digits);
    RunOf(p.digits, "");
    assert p.digits + "" == p.digits;
    assert p.Text()[1 + |p.sign|..] == p.digits;
  }

  lemma FirstIsDigit(t: string)
    requires AreDigits(t)
    ensures t != "" ==> IsDigit(t[0]) && !IsSign(t[0])
  {
  }

  lemma MantissaStarts(x: Form)
    requires x.Valid()
    ensures x.Mantissa() != "" && !IsSign(x.Mantissa()[0])
  {
    FirstIsDigit(x.whole);
  }

  lemma FloatOf(sign: string, m: string, power: string)
    requires IsSignText(sign) && m != "" && !IsSign(m[0])
    requires MantissaLen(m + power) == |m| && PowerLen(power) == |power|
    ensures var t := sign + (m + power);
            && NumberLen(t) == |t|
            && FloatValue(t) == if sign == "-" then -Shifted(MantissaValue(m), power) else Shifted(MantissaValue(m), power)
  {
    hide MantissaLen, MantissaValue, Shifted, PowerLen, SignLen, Negated;
    SignOf(sign, m + power);
    assert (m + power)[..|m|] == m && (m + power)[|m|..] == power;
    assert (sign + (m + power))[|sign| + |m|..] == power;
  }

  /** However a number is written, the scanner takes all of it and reads the value it stands for. */
  lemma FormReadsBack(x: Form)
    requires x.Valid()
    ensures NumberLen(x.Text()) == |x.Text()| > 0
    ensures FloatValue(x.Text()) == x.Value()
  {
    hide MantissaLen, MantissaValue, Form.Mantissa, Shifted, PowerLen, NumberLen, FloatValue, AreDigits, Form.Size;
    MantissaStarts(x);
    MantissaLenOf(x);
    MantissaValueOf(x);
    match x.exponent
    case None =>
      NoExponent(x.Size());
      FloatOf(x.sign, x.Mantissa(), "");
    case Some(p) =>
      ExponentOf(p, x.Size());
      FloatOf(x.sign, x.Mantissa(), p.Text());
  }

  lemma NoExponent(m: real)
    ensures PowerLen("") == 0 && Shifted(m, "") == m
  {
  }

  // ---------------------------------------------------------------- there are no other numbers

  lemma ExponentFrom(t: string) returns (p: Exponent)
    requires t != "" && PowerLen(t) == |t|
    ensures p.Valid() && p.Text() == t
  {
    hide PowerLen, SignLen, AreDigits, IsSignText;
    var g := SignLen(t[1..]);
    PowerParts(t);
    p := Exponent(t[0], t[1..][..g], t[1..][g..]);
    Reassembled(t, g);
  }

  lemma Reassembled(t: string, g: nat)
    requires 1 + g < |t|
    ensures [t[0]] + (t[1..][..g] + t[1..][g..]) == t && t[1..][g..] != ""
  {
  }

  lemma PowerParts(t: string)
    requires t != "" && PowerLen(t) == |t|
    ensures var g := SignLen(t[1..]);
            && 1 + g < |t| && t[0] in "eE"
            && IsSignText(t[1..][..g]) && AreDigits(t[1..][g..])
  {
    hide Class.Run;
    var g := SignLen(t[1..]);
    assert t[1 + g..] == t[1..][g..];
  }

  lemma MantissaFrom(u: string) returns (whole: string, fraction: Option<string>)
    requires MantissaLen(u) > 0
    ensures Form("", whole, fraction, None).Valid()
    ensures Form("", whole, fraction, None).Mantissa() == u[..MantissaLen(u)]
  {
    hide Class.Run;
    var m, d := MantissaLen(u), Digit.Run(u);
    whole := u[..d];
    if m == d {
      fraction := None;
    } else {
      var v := u[d..];
      fraction := Some(v[1..][..Digit.Run(v[1..])]);
      SplitAt(u[..m], d);
      assert u[..m][d..] == "." + fraction.value;
    }
  }

  /** Every text that NUMBER matches is written in one of these forms, so the value of each is fixed. */
  lemma NumbersAreForms(t: string)
    ensures InLang(NUMBER, t) <==> exists x: Form :: x.Valid() && x.Text() == t
  {
    hide InLang, NumberLen, Form.Text, Form.Valid;
    if InLang(NUMBER, t) {
      assert t[..|t|] == t;
      NumberLenIsLongest(t);
      var x := FormFrom(t);
    }
    if x: Form :| x.Valid() && x.Text() == t {
      FormReadsBack(x);
      assert t[..|t|] == t;
      NumberMatches(t);
    }
  }

  lemma FormFrom(t: string) returns (x: Form)
    requires NumberLen(t) == |t| > 0
    ensures x.Valid() && x.Text() == t
  {
    hide MantissaLen, PowerLen, AreDigits;
    var g := SignLen(t);
    var u := t[g..];
    var m := MantissaLen(u);
    var whole, fraction := MantissaFrom(u);
    var exponent := None;
    if u[m..] != "" {
      var p := ExponentFrom(u[m..]);
      exponent := Some(p);
    }
    x := Form(t[..g], whole, fraction, exponent);
    SplitAt(u, m);
    SplitAt(t, g);
    assert x.Mantissa() == Form("", whole, fraction, None).Mantissa();
  }
}
