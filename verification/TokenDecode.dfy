/** The meaning of the metric search, token by token: every white-space separated token gives at
    most one pair, found from its last colon. */
module TokenDecode {
  import opened Wrappers
  import opened Regex
  import opened NumberScan
  import opened MetricScan

  function Tokens(s: string): seq<string>
    decreases |s|
  {
    if s == "" then []
    else if IsSpace(s[0]) then Tokens(s[1..])
    else
      var n := NotSpace.Run(s);
      [s[..n]] + Tokens(s[n..])
  }

  /** Position of the last colon, or -1. */
  function LastColon(t: string): (q: int)
    ensures -1 <= q < |t|
    ensures q >= 0 ==> t[q] == ':'
    ensures forall i :: q < i < |t| ==> t[i] != ':'
  {
    if t == "" then -1
    else if t[|t| - 1] == ':' then |t| - 1
    else LastColon(t[..|t| - 1])
  }

  /** Where the longest tail of key characters starts. */
  function KeyStart(t: string): (a: nat)
    ensures a <= |t|
    ensures forall i :: a <= i < |t| ==> IsKeyChar(t[i])
    ensures a > 0 ==> !IsKeyChar(t[a - 1])
  {
    if t == "" || !IsKeyChar(t[|t| - 1]) then |t| else KeyStart(t[..|t| - 1])
  }

  /** The longest run of key characters in front of the last colon, if a number with an optional
      magnitude letter fills the rest of the token. */
  function DecodeToken(t: string): seq<Pair>
  {
    var q := LastColon(t);
    if q < 0 then []
    else
      var key, w := t[..q][KeyStart(t[..q])..], t[q + 1..];
      if key != "" && NumberLen(w) > 0 && AmountLen(w) == |w|
      then [Pair(key, w[..NumberLen(w)], w[NumberLen(w)..])]
      else []
  }

  function DecodeTokens(ts: seq<string>): seq<Pair> {
    if ts == [] then [] else DecodeToken(ts[0]) + DecodeTokens(ts[1..])
  }

  /** The left-to-right search decodes token by token. */
  lemma {:induction false} ScanIsTokenwise(s: string)
    ensures Scan(s) == DecodeTokens(Tokens(s))
    decreases |s|
  {
    hide HeadCuts, DecodeToken, Class.Run;
    if s == "" {
    } else if IsSpace(s[0]) {
      NoHeadAtSpace(s);
      ScanIsTokenwise(s[1..]);
    } else {
      var n := NotSpace.Run(s);
      FirstRun(s);
      ScanToken(s[..n], s[n..]);
      ScanIsTokenwise(s[n..]);
      assert Tokens(s)[0] == s[..n] && Tokens(s)[1..] == Tokens(s[n..]);
    }
  }

  lemma NoHeadAtSpace(s: string)
    requires s != "" && IsSpace(s[0])
    ensures HeadCuts(s) == None
  {
  }

  lemma FirstRun(s: string)
    requires s != "" && !IsSpace(s[0])
    ensures var n := NotSpace.Run(s); n > 0 && s == s[..n] + s[n..] && (s[n..] == "" || IsSpace(s[n..][0]))
  {
  }

  /** A token in front of white space or the end is decoded on its own. */
  lemma {:induction false} ScanToken(t: string, rest: string)
    requires NotSpace.HasAll(t) && (rest == "" || IsSpace(rest[0]))
    ensures Scan(t + rest) == DecodeToken(t) + Scan(rest)
    decreases |t|
  {
    hide HeadCuts, DecodeToken, Class.HasAll, Cuts.Captured, Cuts.Rest;
    if t == "" {
      assert t + rest == rest;
      EmptyToken();
    } else {
      HeadCutsLocal(t, rest);
      if HeadCuts(t).Some? {
        HeadOfToken(t, rest);
        DecodeAtHead(t);
      } else {
        TailOfToken(t, rest);
        ScanToken(t[1..], rest);
        DecodeSkips(t);
      }
    }
  }

  lemma TailOfToken(t: string, rest: string)
    requires NotSpace.HasAll(t) && t != ""
    ensures (t + rest)[1..] == t[1..] + rest && NotSpace.HasAll(t[1..])
  {
  }

  lemma PartsBehind(t: string, rest: string, k: nat, n: nat, e: nat)
    requires n <= e && k + 1 + e == |t|
    ensures (t + rest)[..k] == t[..k]
    ensures (t + rest)[k + 1..][..n] == t[k + 1..][..n]
    ensures (t + rest)[k + 1..][n..e] == t[k + 1..][n..e]
    ensures (t + rest)[k + 1..][e..] == rest
  {
    assert (t + rest)[k + 1..] == t[k + 1..] + rest;
  }

  /** A match at the head of a token captures the same behind it and leaves the rest. */
  lemma HeadOfToken(t: string, rest: string)
    requires NotSpace.HasAll(t) && HeadCuts(t).Some?
    ensures var c := HeadCuts(t).value;
            c.Fit(t + rest) && c.Captured(t + rest) == c.Captured(t) && c.Rest(t + rest) == rest
  {
    hide HeadCuts, Class.HasAll;
    var c := HeadCuts(t).value;
    HeadFillsToken(t);
    PartsBehind(t, rest, c.colon, c.number, c.amount);
  }

  lemma EmptyToken()
    ensures DecodeToken("") == []
  {
  }

  lemma AmountLenLocal(w: string, rest: string)
    requires rest == "" || IsSpace(rest[0])
    ensures NumberLen(w + rest) == NumberLen(w) && AmountLen(w + rest) == AmountLen(w)
  {
    hide NumberLen;
    NumberLenLocal(w, rest);
  }

  /** Whether a match starts at the head of a token does not depend on what follows the token. */
  lemma HeadCutsLocal(t: string, rest: string)
    requires NotSpace.HasAll(t) && (rest == "" || IsSpace(rest[0]))
    ensures HeadCuts(t + rest) == HeadCuts(t)
  {
    hide NumberLen, AmountLen, Class.Run, Class.HasAll, IsSpace;
    var k := KeyChar.Run(t);
    KeyRunLocal(t, rest);
    if k < |t| {
      var w := t[k + 1..];
      assert (t + rest)[k + 1..] == w + rest;
      AmountLenLocal(w, rest);
      EndsLocal(t, rest, k, AmountLen(w));
    }
  }

  lemma KeyRunLocal(t: string, rest: string)
    requires rest == "" || IsSpace(rest[0])
    ensures KeyChar.Run(t + rest) == KeyChar.Run(t)
    ensures KeyChar.Run(t) < |t| ==> (t + rest)[KeyChar.Run(t)] == t[KeyChar.Run(t)]
    ensures KeyChar.Run(t) == |t| ==> rest == "" || rest[0] != ':'
  {
    hide Class.Run;
    KeyChar.HasAllBelow(t, KeyChar.Run(t));
    KeyChar.RunIs(t + rest, KeyChar.Run(t));
  }

  /** Behind a token there is the end or white space; inside it there is neither. */
  lemma EndsLocal(t: string, rest: string, k: nat, e: nat)
    requires NotSpace.HasAll(t) && (rest == "" || IsSpace(rest[0])) && k + 1 + e <= |t|
    ensures var w := t[k + 1..];
            (e == |w + rest| || IsSpace((w + rest)[e])) <==> e == |w|
    ensures var w := t[k + 1..]; e < |w| ==> !IsSpace(w[e])
  {
  }

  /** A match inside a token fills it. */
  lemma HeadFillsToken(t: string)
    requires NotSpace.HasAll(t) && HeadCuts(t).Some?
    ensures HeadCuts(t).value.Rest(t) == ""
  {
    hide NumberLen, AmountLen;
    var c := HeadCuts(t).value;
    assert forall i :: 0 <= i < |c.Value(t)| ==> c.Value(t)[i] == t[c.colon + 1 + i];
  }

  lemma AmountHasNoColon(w: string, i: nat)
    requires i < AmountLen(w)
    ensures w[i] != ':'
  {
    hide NumberLen;
    if i < NumberLen(w) {
      NumberChars(w, i);
    }
  }

  lemma LastColonIs(t: string, k: nat)
    requires k < |t| && t[k] == ':' && forall i :: k < i < |t| ==> t[i] != ':'
    ensures LastColon(t) == k
  {
  }

  lemma KeyStartIs(t: string, a: nat)
    requires a <= |t| && forall i :: a <= i < |t| ==> IsKeyChar(t[i])
    requires a > 0 ==> !IsKeyChar(t[a - 1])
    ensures KeyStart(t) == a
  {
  }

  lemma DecodeAtHead(t: string)
    requires NotSpace.HasAll(t) && HeadCuts(t).Some?
    ensures DecodeToken(t) == [HeadCuts(t).value.Captured(t)]
  {
    hide NumberLen, AmountLen, Class.Run;
    var c := HeadCuts(t).value;
    var k, w := c.colon, c.Value(t);
    HeadFillsToken(t);
    forall i | k < i < |t|
      ensures t[i] != ':'
    {
      AmountHasNoColon(w, i - k - 1);
      assert t[i] == w[i - k - 1];
    }
    LastColonIs(t, k);
    KeyStartIs(t[..k], 0);
    assert t[..k][0..] == t[..k] && w[c.number..c.amount] == w[c.number..];
  }

  lemma DecodeSkips(t: string)
    requires NotSpace.HasAll(t) && t != "" && HeadCuts(t) == None
    ensures DecodeToken(t) == DecodeToken(t[1..])
  {
    hide NumberLen, AmountLen, Class.Run, Class.HasAll, LastColon, KeyStart;
    var q := LastColon(t);
    LastColonSkips(t);
    if q >= 1 {
      assert t[1..][q..] == t[q + 1..] && t[1..][..q - 1] == t[..q][1..];
      KeySkips(t, q);
    }
  }

  lemma LastColonSkips(t: string)
    requires t != ""
    ensures LastColon(t) >= 1 ==> LastColon(t[1..]) == LastColon(t) - 1
    ensures LastColon(t) < 1 ==> LastColon(t[1..]) == -1
  {
    var q := LastColon(t);
    if q >= 1 {
      LastColonIs(t[1..], q - 1);
    } else {
      assert forall i :: 0 <= i < |t[1..]| ==> t[1..][i] == t[i + 1];
      assert forall i :: 0 <= i < |t[1..]| ==> t[1..][i] != ':';
    }
  }

  /** Dropping the first character shortens the key at most when a match could have started there. */
  lemma KeySkips(t: string, q: nat)
    requires 1 <= q < |t| && t[q] == ':'
    ensures if KeyStart(t[..q]) == 0 then KeyChar.Run(t) == q
            else t[..q][KeyStart(t[..q])..] == t[..q][1..][KeyStart(t[..q][1..])..]
  {
    var a := KeyStart(t[..q]);
    if a >= 1 {
      KeyStartIs(t[..q][1..], a - 1);
    } else {
      KeyChar.RunIs(t, q);
    }
  }

  /** White space separates: the pairs of two parts are found independently. */
  lemma {:induction false} TokensOfParts(a: string, sep: char, b: string)
    requires IsSpace(sep)
    ensures Tokens(a + [sep] + b) == Tokens(a) + Tokens(b)
    decreases |a|
  {
    hide Class.Run;
    var s := a + [sep] + b;
    if a == "" {
      assert s[1..] == b;
    } else if IsSpace(a[0]) {
      assert s[1..] == a[1..] + [sep] + b;
      TokensOfParts(a[1..], sep, b);
    } else {
      var n := NotSpace.Run(a);
      FirstTokenOfParts(a, sep, b);
      TokensOfParts(a[n..], sep, b);
    }
  }

  lemma FirstTokenOfParts(a: string, sep: char, b: string)
    requires IsSpace(sep) && a != "" && !IsSpace(a[0])
    ensures var s, n := a + [sep] + b, NotSpace.Run(a);
            && Tokens(s) == [a[..n]] + Tokens(a[n..] + [sep] + b)
            && Tokens(a) == [a[..n]] + Tokens(a[n..])
  {
    var s := a + [sep] + b;
    var n := NotSpace.Run(a);
    NotSpace.HasAllBelow(a, n);
    NotSpace.RunIs(s, n);
    assert s[..n] == a[..n] && s[n..] == a[n..] + [sep] + b;
  }

  lemma {:induction false} DecodeTokensOfParts(ts: seq<string>, us: seq<string>)
    ensures DecodeTokens(ts + us) == DecodeTokens(ts) + DecodeTokens(us)
  {
    if ts == [] {
      assert ts + us == us;
    } else {
      assert (ts + us)[1..] == ts[1..] + us;
      DecodeTokensOfParts(ts[1..], us);
    }
  }

  /** The search distributes over white space. */
  lemma ScanOfParts(a: string, sep: char, b: string)
    requires IsSpace(sep)
    ensures Scan(a + [sep] + b) == Scan(a) + Scan(b)
  {
    ScanIsTokenwise(a + [sep] + b);
    ScanIsTokenwise(a);
    ScanIsTokenwise(b);
    TokensOfParts(a, sep, b);
    DecodeTokensOfParts(Tokens(a), Tokens(b));
  }
}
