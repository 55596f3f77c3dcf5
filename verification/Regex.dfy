/** The part of Python's regular expressions that the log forwarder uses, with the language of a
    pattern as its meaning.  Lookaround ("\b", "(?=\s|$)") is not part of a pattern here: the
    modules that search a line state it beside the pattern. */
module Regex {
  predicate IsDigit(c: char) {
    '0' <= c <= '9'
  }

  predicate IsWord(c: char) {
    'a' <= c <= 'z' || 'A' <= c <= 'Z' || IsDigit(c) || c == '_'
  }

  predicate IsKeyChar(c: char) {
    IsWord(c) || c == '/'
  }

  predicate IsSpace(c: char) {
    9 <= c as int <= 13 || 28 <= c as int <= 32
  }

  predicate IsMagnitude(c: char) {
    c in "KMBTQ"
  }

  predicate IsSign(c: char) {
    c in "+-"
  }

  datatype Class = Digit | KeyChar | Space | NotSpace | NotNewline | OneOf(chars: string)
  {
    predicate Has(c: char) {
      match this
      case Digit => IsDigit(c)
      case KeyChar => IsKeyChar(c)
      case Space => IsSpace(c)
      case NotSpace => !IsSpace(c)
      case NotNewline => c != '\n'
      case OneOf(chars) => c in chars
    }

    predicate HasAll(t: string) {
      forall i :: 0 <= i < |t| ==> Has(t[i])
    }

    /** Length of the longest prefix of t whose characters are all in this class. */
    function Run(t: string): (n: nat)
      ensures n <= |t| && HasAll(t[..n])
      ensures n < |t| ==> !Has(t[n])
    {
      if t == "" || !Has(t[0]) then 0
      else
        assert forall i :: 1 <= i < 1 + Run(t[1..]) ==> t[i] == t[1..][i - 1];
        1 + Run(t[1..])
    }

    lemma HasAllBelow(t: string, n: nat)
      requires n <= |t| && HasAll(t[..n])
      ensures forall i :: 0 <= i < n ==> Has(t[i])
    {
      forall i | 0 <= i < n
        ensures Has(t[i])
      {
        assert t[..n][i] == t[i];
      }
    }

    /** A run is the only prefix of its class that cannot be extended. */
    lemma RunIs(t: string, n: nat)
      requires n <= |t| && HasAll(t[..n])
      requires n < |t| ==> !Has(t[n])
      ensures Run(t) == n
    {
      HasAllBelow(t, n);
      HasAllBelow(t, Run(t));
    }

    /** A shorter prefix stops in front of a character of the class. */
    lemma RunBounds(t: string, m: nat)
      requires m <= |t| && HasAll(t[..m])
      ensures m <= Run(t)
      ensures m < Run(t) ==> Has(t[m])
    {
      HasAllBelow(t, m);
      HasAllBelow(t, Run(t));
    }
  }

  datatype Re =
    | One(cls: Class)
    | Many(cls: Class, least: nat)
    | Maybe(body: Re)
    | Then(first: Re, second: Re)
    | Or(left: Re, right: Re)

  /** t is in the language of r. */
  ghost predicate InLang(r: Re, t: string)
    decreases r, |t|
  {
    match r
    case One(cls) => |t| == 1 && cls.Has(t[0])
    case Many(cls, least) => least <= |t| && cls.HasAll(t)
    case Maybe(body) => t == "" || InLang(body, t)
    case Then(first, second) => exists k :: 0 <= k <= |t| && InLang(first, t[..k]) && InLang(second, t[k..])
    case Or(left, right) => InLang(left, t) || InLang(right, t)
  }

  /** A cut at which a text of a concatenation divides. */
  lemma ThenCut(first: Re, second: Re, t: string) returns (k: nat)
    requires InLang(Then(first, second), t)
    ensures k <= |t| && InLang(first, t[..k]) && InLang(second, t[k..])
  {
    k :| 0 <= k <= |t| && InLang(first, t[..k]) && InLang(second, t[k..]);
  }

  lemma SlicesOfPrefix(t: string, j: nat, k: nat, m: nat)
    requires j + k <= m <= |t|
    ensures t[..m][..j] == t[..j]
    ensures t[..m][j..][..k] == t[j..][..k]
    ensures t[..m][j..][k..] == t[j + k..][..m - j - k]
  {
  }

  /** The two cuts of a concatenation of three at the head of t. */
  lemma ThenCuts(first: Re, second: Re, third: Re, t: string, m: nat) returns (j: nat, k: nat)
    requires m <= |t| && InLang(Then(first, Then(second, third)), t[..m])
    ensures j + k <= m && InLang(first, t[..j])
    ensures InLang(second, t[j..][..k]) && InLang(third, t[j + k..][..m - j - k])
  {
    var u := t[..m];
    j := ThenCut(first, Then(second, third), u);
    k := ThenCut(second, third, u[j..]);
    SlicesOfPrefix(t, j, k, m);
  }

  lemma PrefixOfThree(t: string, a: string, b: string, c: string, j: nat, k: nat, m: nat)
    requires j + k <= m <= |t|
    requires a == t[..j] && b == t[j..][..k] && c == t[j + k..][..m - j - k]
    ensures t[..m] == a + b + c
  {
  }

  lemma ThenAll(first: Re, second: Re, third: Re, a: string, b: string, c: string)
    requires InLang(first, a) && InLang(second, b) && InLang(third, c)
    ensures InLang(Then(first, Then(second, third)), a + b + c)
  {
    hide InLang;
    var u := a + b + c;
    assert u[..|a|] == a && u[|a|..] == b + c && (b + c)[..|b|] == b && (b + c)[|b|..] == c;
    ThenAt(second, third, b + c, |b|);
    ThenAt(first, Then(second, third), u, |a|);
  }

  /** One choice of cut that shows a concatenation is in the language. */
  lemma ThenAt(first: Re, second: Re, t: string, k: nat)
    requires k <= |t| && InLang(first, t[..k]) && InLang(second, t[k..])
    ensures InLang(Then(first, second), t)
  {
  }
}
