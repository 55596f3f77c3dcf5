/** NUMBER (scripts/stream_smolvla_wandb.py:24) as a pattern, and the deterministic scan that finds
    its longest match. */
module NumberScan {
  import opened Regex

  const DIGITS := Many(Digit, 1)
  const SIGN := Maybe(One(OneOf("+-")))
  const POINT := One(OneOf("."))
  const FRACTION := Maybe(Then(POINT, Many(Digit, 0)))
  const MANTISSA := Or(Then(DIGITS, FRACTION), Then(POINT, DIGITS))
  const POWER := Then(One(OneOf("eE")), Then(SIGN, DIGITS))
  const NUMBER := Then(SIGN, Then(MANTISSA, Maybe(POWER)))

  /** The characters a number is written with. */
  predicate IsNumberChar(c: char) {
    IsDigit(c) || c in "+-.eE"
  }

  /** The characters at which a shorter match of NUMBER can be extended to a longer one. */
  predicate Extends(c: char) {
    IsDigit(c) || c in ".eE"
  }

  function SignLen(t: string): (n: nat)
    ensures n <= |t|
  {
    if t != "" && IsSign(t[0]) then 1 else 0
  }

  function FractionLen(t: string): (n: nat)
    ensures n <= |t|
  {
    if t != "" && t[0] == '.' then 1 + Digit.Run(t[1..]) else 0
  }

  /** 0 stands for "no match": a mantissa is never empty. */
  function MantissaLen(t: string): (n: nat)
    ensures n <= |t|
  {
    var d := Digit.Run(t);
    if d > 0 then d + FractionLen(t[d..])
    else if FractionLen(t) > 1 then FractionLen(t) else 0
  }

  /** 0 stands for "no exponent". */
  function PowerLen(t: string): (n: nat)
    ensures n <= |t|
  {
    if t == "" || t[0] !in "eE" then 0
    else
      var g := SignLen(t[1..]);
      var d := Digit.Run(t[1 + g..]);
      if d == 0 then 0 else 1 + g + d
  }

  /** Length of the number at the head of t; 0 when there is none. */
  function NumberLen(t: string): (n: nat)
    ensures n <= |t|
  {
    var g := SignLen(t);
    var m := MantissaLen(t[g..]);
    if m == 0 then 0 else g + m + PowerLen(t[g + m..])
  }

  lemma FractionBounds(t: string, m: nat)
    requires m <= |t| && InLang(FRACTION, t[..m])
    ensures m <= FractionLen(t)
    ensures m < FractionLen(t) ==> Extends(t[m])
  {
    var u := t[..m];
    if u != "" {
      assert InLang(Then(POINT, Many(Digit, 0)), u);
      var k := ThenCut(POINT, Many(Digit, 0), u);
      assert u[1..] == t[1..][..m - 1];
      Digit.RunBounds(t[1..], m - 1);
    }
  }

  lemma FractionMatches(t: string)
    ensures InLang(FRACTION, t[..FractionLen(t)])
  {
    var n := FractionLen(t);
    if n > 0 {
      var u := t[..n];
      assert u[1..] == t[1..][..n - 1];
      ThenAt(POINT, Many(Digit, 0), u, 1);
    }
  }

  /** The first alternative of MANTISSA, cut after k digits. */
  lemma DecimalBounds(t: string, k: nat, m: nat)
    requires 0 < k <= m <= |t| && Digit.HasAll(t[..k]) && InLang(FRACTION, t[k..][..m - k])
    ensures m <= MantissaLen(t)
    ensures m < MantissaLen(t) ==> Extends(t[m])
  {
    Digit.RunBounds(t, k);
    FractionBounds(t[k..], m - k);
    assert m < |t| ==> t[m] == t[k..][m - k];
  }

  lemma MantissaBounds(t: string, m: nat)
    requires m <= |t| && InLang(MANTISSA, t[..m])
    ensures 0 < m <= MantissaLen(t)
    ensures m < MantissaLen(t) ==> Extends(t[m])
  {
    var u := t[..m];
    if InLang(Then(DIGITS, FRACTION), u) {
      var k := ThenCut(DIGITS, FRACTION, u);
      assert u[..k] == t[..k] && u[k..] == t[k..][..m - k];
      DecimalBounds(t, k, m);
    } else {
      var k := ThenCut(POINT, DIGITS, u);
      assert u[1..] == t[1..][..m - 1];
      Digit.RunBounds(t[1..], m - 1);
    }
  }

  lemma MantissaMatches(t: string)
    requires MantissaLen(t) > 0
    ensures InLang(MANTISSA, t[..MantissaLen(t)])
  {
    var n := MantissaLen(t);
    var u := t[..n];
    var d := Digit.Run(t);
    if d > 0 {
      FractionMatches(t[d..]);
      assert u[..d] == t[..d] && u[d..] == t[d..][..n - d];
      ThenAt(DIGITS, FRACTION, u, d);
    } else {
      assert u[1..] == t[1..][..n - 1];
      ThenAt(POINT, DIGITS, u, 1);
    }
  }

  lemma SignBounds(t: string, m: nat)
    requires m <= |t| && InLang(SIGN, t[..m])
    ensures m <= SignLen(t)
    ensures m < SignLen(t) ==> t[m] in "+-"
  {
  }

  lemma PowerBounds(t: string, m: nat)
    requires m <= |t| && InLang(POWER, t[..m])
    ensures 0 < m <= PowerLen(t)
    ensures m < PowerLen(t) ==> IsDigit(t[m])
  {
    var j, g := ThenCuts(One(OneOf("eE")), SIGN, DIGITS, t, m);
    assert j == 1;
    var w := t[1 + g..];
    SignBounds(t[1..], g);
    Digit.RunBounds(w, m - 1 - g);
    assert w[..m - 1 - g][0] == w[0] == t[1 + g];
    assert m < |t| ==> w[m - 1 - g] == t[m];
  }

  lemma PowerMatches(t: string)
    requires PowerLen(t) > 0
    ensures InLang(POWER, t[..PowerLen(t)])
  {
    var n := PowerLen(t);
    var u := t[..n];
    var g := SignLen(t[1..]);
    var w := u[1..];
    assert w[..g] == t[1..][..g] && w[g..] == t[1 + g..][..n - 1 - g];
    ThenAt(SIGN, DIGITS, w, g);
    ThenAt(One(OneOf("eE")), Then(SIGN, DIGITS), u, 1);
  }

  /** A match of NUMBER is cut after its sign and after its mantissa. */
  lemma NumberCuts(t: string, m: nat) returns (g: nat, k: nat)
    requires m <= |t| && InLang(NUMBER, t[..m])
    ensures g + k <= m && InLang(SIGN, t[..g]) && InLang(MANTISSA, t[g..][..k])
    ensures m == g + k || InLang(POWER, t[g + k..][..m - g - k])
  {
    g, k := ThenCuts(SIGN, MANTISSA, Maybe(POWER), t, m);
  }

  /** Every match of NUMBER at the head of t is at most NumberLen(t) long, and a shorter one stops
      in front of a character that extends it. */
  lemma NumberBounds(t: string, m: nat)
    requires m <= |t| && InLang(NUMBER, t[..m])
    ensures 0 < m <= NumberLen(t)
    ensures m < NumberLen(t) ==> Extends(t[m])
  {
    hide MantissaLen, Class.Run;
    var g, k := NumberCuts(t, m);
    SignBounds(t, g);
    MantissaBounds(t[g..], k);
    MantissaStart(t[g..]);
    assert g + k < |t| ==> t[g..][k] == t[g + k..][0];
    if m > g + k {
      BehindMantissa(t, g, k, m);
    }
  }

  /** The case with an exponent. */
  lemma BehindMantissa(t: string, g: nat, k: nat, m: nat)
    requires g == SignLen(t) && g + k < m <= |t|
    requires InLang(MANTISSA, t[g..][..k]) && InLang(POWER, t[g + k..][..m - g - k])
    ensures m <= NumberLen(t)
    ensures m < NumberLen(t) ==> Extends(t[m])
  {
    hide MantissaLen, Class.Run;
    var w, p := t[g + k..], m - g - k;
    PowerBounds(w, p);
    assert t[g..][k] == w[0] && w[0] in "eE";
    MantissaBounds(t[g..], k);
    MantissaStops(t[g..], k);
    assert m < |t| ==> t[m] == w[p];
  }

  lemma MantissaStart(t: string)
    requires MantissaLen(t) > 0
    ensures IsDigit(t[0]) || t[0] == '.'
  {
    if Digit.Run(t) > 0 {
      assert t[..Digit.Run(t)][0] == t[0];
    }
  }

  /** A mantissa in front of an exponent letter is a longest one. */
  lemma MantissaStops(t: string, m: nat)
    requires m < |t| && InLang(MANTISSA, t[..m]) && t[m] in "eE"
    ensures m == MantissaLen(t)
  {
    MantissaBounds(t, m);
    if m < MantissaLen(t) {
      MantissaChars(t, m);
    }
  }

  lemma MantissaChars(t: string, i: nat)
    requires i < MantissaLen(t)
    ensures IsDigit(t[i]) || t[i] == '.'
  {
    var d := Digit.Run(t);
    if i < d {
      assert t[..d][i] == t[i];
    } else if i > d {
      var f := t[d..];
      assert f[1..][..FractionLen(f) - 1][i - d - 1] == t[i];
    }
  }

  lemma TailMatches(t: string)
    ensures InLang(Maybe(POWER), t[..PowerLen(t)])
  {
    if PowerLen(t) > 0 {
      PowerMatches(t);
    }
  }

  lemma NumberMatches(t: string)
    requires NumberLen(t) > 0
    ensures InLang(NUMBER, t[..NumberLen(t)])
  {
    hide MantissaLen, PowerLen, Class.Run;
    var g := SignLen(t);
    var m := MantissaLen(t[g..]);
    var p := PowerLen(t[g + m..]);
    PrefixOfThree(t, t[..g], t[g..][..m], t[g + m..][..p], g, m, NumberLen(t));
    PartsMatch(t, g, m, p);
  }

  lemma PartsMatch(t: string, g: nat, m: nat, p: nat)
    requires g == SignLen(t) && m == MantissaLen(t[g..]) > 0 && p == PowerLen(t[g + m..])
    ensures InLang(NUMBER, t[..g] + t[g..][..m] + t[g + m..][..p])
  {
    hide MantissaLen, PowerLen, Class.Run;
    MantissaMatches(t[g..]);
    TailMatches(t[g + m..]);
    ThenAll(SIGN, MANTISSA, Maybe(POWER), t[..g], t[g..][..m], t[g + m..][..p]);
  }

  lemma PowerChars(t: string, i: nat)
    requires i < PowerLen(t)
    ensures IsNumberChar(t[i])
  {
    var g := SignLen(t[1..]);
    var w := t[1 + g..];
    if i > g {
      Digit.HasAllBelow(w, Digit.Run(w));
      assert t[i] == w[i - 1 - g];
    }
  }

  lemma NumberChars(t: string, i: nat)
    requires i < NumberLen(t)
    ensures IsNumberChar(t[i])
  {
    hide MantissaLen, PowerLen, Class.Run;
    var g := SignLen(t);
    var m := MantissaLen(t[g..]);
    if g <= i < g + m {
      MantissaChars(t[g..], i - g);
    } else if i >= g + m {
      PowerChars(t[g + m..], i - g - m);
    }
  }

  /** The scan returns the longest match of NUMBER at the head of t, or 0 when there is none: the
      match that Python's greedy quantifiers prefer. */
  lemma NumberLenIsLongest(t: string)
    ensures NumberLen(t) > 0 ==> InLang(NUMBER, t[..NumberLen(t)])
    ensures forall m :: 0 <= m <= |t| && InLang(NUMBER, t[..m]) ==> 0 < m <= NumberLen(t)
  {
    if NumberLen(t) > 0 {
      NumberMatches(t);
    }
    forall m | 0 <= m <= |t| && InLang(NUMBER, t[..m])
      ensures 0 < m <= NumberLen(t)
    {
      NumberBounds(t, m);
    }
  }

  /** What follows the text cannot change its number when it starts with a non-number character. */
  lemma NumberLenLocal(t: string, rest: string)
    requires rest == "" || !IsNumberChar(rest[0])
    ensures NumberLen(t + rest) == NumberLen(t)
  {
    hide NumberLen;
    var n, m := NumberLen(t + rest), NumberLen(t);
    assert n <= |t| by {
      if n > |t| {
        NumberChars(t + rest, |t|);
      }
    }
    if n > 0 {
      NumberMatches(t + rest);
      assert (t + rest)[..n] == t[..n];
      NumberBounds(t, n);
    }
    if m > 0 {
      NumberMatches(t);
      assert (t + rest)[..m] == t[..m];
      NumberBounds(t + rest, m);
    }
  }
}
