/** re.findall over the part of a training line behind its step
    (scripts/stream_smolvla_wandb.py:31): what a left-to-right, non-overlapping search finds, the
    scan that computes it, and the token-by-token decoding it amounts to. */
module MetricScan {
  import opened Wrappers
  import opened Regex
  import opened NumberScan

  const KEY := Many(KeyChar, 1)
  const MAGNITUDE := Maybe(One(OneOf("KMBTQ")))

  /** The three captured texts of one match; suffix is empty or one magnitude letter. */
  datatype Pair = Pair(key: string, number: string, suffix: string)

  /** Where a match at the head of a text is cut: its colon, and behind the colon the lengths of its
      number and of its number with the magnitude letter. */
  datatype Cuts = Cuts(colon: nat, number: nat, amount: nat)
  {
    predicate Fit(s: string) {
      colon + 1 + amount <= |s| && number <= amount
    }

    function Value(s: string): string
      requires Fit(s)
    {
      s[colon + 1..]
    }

    /** What the groups of the pattern capture. */
    function Captured(s: string): Pair
      requires Fit(s)
    {
      Pair(s[..colon], Value(s)[..number], Value(s)[number..amount])
    }

    function Rest(s: string): string
      requires Fit(s)
    {
      Value(s)[amount..]
    }
  }

  /** The pattern matches the head of s, cut at c. */
  ghost predicate HeadMatch(s: string, c: Cuts) {
    && c.Fit(s)
    && InLang(KEY, s[..c.colon])
    && s[c.colon] == ':'
    && InLang(NUMBER, c.Value(s)[..c.number])
    && InLang(MAGNITUDE, c.Value(s)[c.number..c.amount])
    && (c.Rest(s) == "" || IsSpace(c.Rest(s)[0]))
  }

  /** A match of the pattern at position i, and none before it. */
  ghost predicate IsLeftmost(s: string, i: nat, c: Cuts) {
    && i <= |s|
    && HeadMatch(s[i..], c)
    && (forall h, d :: 0 <= h < i ==> !HeadMatch(s[h..], d))
  }

  /** pairs is a result of re.findall on s: each next match is any match at the leftmost position
      that has one, and the search goes on behind it. */
  ghost predicate FindAll(s: string, pairs: seq<Pair>)
    decreases |pairs|
  {
    if pairs == [] then
      forall i, c :: 0 <= i <= |s| ==> !HeadMatch(s[i..], c)
    else
      exists i: nat, c: Cuts ::
        && IsLeftmost(s, i, c)
        && pairs[0] == c.Captured(s[i..])
        && FindAll(c.Rest(s[i..]), pairs[1..])
  }

  /** Length of the number with its optional magnitude letter; 0 when there is no number. */
  function AmountLen(t: string): (n: nat)
    ensures n <= |t|
  {
    var n := NumberLen(t);
    if 0 < n < |t| && IsMagnitude(t[n]) then n + 1 else n
  }

  function HeadCuts(s: string): (r: Option<Cuts>)
    ensures r.Some? ==> r.value.Fit(s)
  {
    var k := KeyChar.Run(s);
    if k == 0 || k == |s| || s[k] != ':' then None
    else
      var w := s[k + 1..];
      var n, e := NumberLen(w), AmountLen(w);
      if n > 0 && (e == |w| || IsSpace(w[e])) then Some(Cuts(k, n, e)) else None
  }

  function Scan(s: string): seq<Pair>
    decreases |s|
  {
    if s == "" then []
    else match HeadCuts(s)
         case None => Scan(s[1..])
         case Some(c) => [c.Captured(s)] + Scan(c.Rest(s))
  }

  lemma KeyLang(t: string)
    ensures InLang(KEY, t) <==> t != "" && KeyChar.HasAll(t)
  {
  }

  lemma MagnitudeLang(t: string)
    ensures InLang(MAGNITUDE, t) <==> t == "" || (|t| == 1 && IsMagnitude(t[0]))
  {
  }

  lemma HeadCutsMatch(s: string)
    requires HeadCuts(s).Some?
    ensures HeadMatch(s, HeadCuts(s).value)
  {
    var c := HeadCuts(s).value;
    KeyLang(s[..c.colon]);
    NumberMatches(c.Value(s));
    MagnitudeLang(c.Value(s)[c.number..c.amount]);
  }

  /** At one position the pattern matches in at most one way, so it does not matter in which order
      a regular-expression engine tries the ways. */
  lemma HeadMatchIsHeadCuts(s: string, c: Cuts)
    requires HeadMatch(s, c)
    ensures HeadCuts(s) == Some(c)
  {
    hide InLang, NumberLen, AmountLen, IsSpace;
    KeyLang(s[..c.colon]);
    MagnitudeLang(c.Value(s)[c.number..c.amount]);
    KeyChar.RunIs(s, c.colon);
    AmountIs(c.Value(s), c.number, c.amount);
  }

  /** A number in front of an optional magnitude letter and then white space or the end. */
  lemma AmountIs(w: string, n: nat, e: nat)
    requires n <= e <= |w| && InLang(NUMBER, w[..n]) && (e == n || (e == n + 1 && IsMagnitude(w[n])))
    requires e == |w| || IsSpace(w[e])
    ensures 0 < n == NumberLen(w) && e == AmountLen(w)
  {
    hide InLang, NumberLen;
    NumberBounds(w, n);
  }

  /** The scan is re.findall: it is a result, and there is no other. */
  lemma {:induction false} ScanIsFindAll(s: string, pairs: seq<Pair>)
    ensures FindAll(s, pairs) <==> pairs == Scan(s)
    decreases |s|
  {
    hide HeadMatch, HeadCuts, Cuts.Captured;
    if exists i, c :: 0 <= i <= |s| && HeadMatch(s[i..], c) {
      var i, c := Leftmost(s);
      ScanSkips(s, i);
      HeadMatchIsHeadCuts(s[i..], c);
      assert Scan(s) == [c.Captured(s[i..])] + Scan(c.Rest(s[i..]));
      if pairs == [] {
      } else {
        ScanIsFindAll(c.Rest(s[i..]), pairs[1..]);
        FindAllAt(s, pairs, i, c);
        assert pairs == [pairs[0]] + pairs[1..];
      }
    } else {
      ScanSkips(s, |s|);
    }
  }

  lemma Leftmost(s: string) returns (i: nat, c: Cuts)
    requires exists i, c :: 0 <= i <= |s| && HeadMatch(s[i..], c)
    ensures IsLeftmost(s, i, c)
  {
    hide HeadMatch;
    i := 0;
    while !exists c :: HeadMatch(s[i..], c)
      invariant i <= |s|
      invariant forall h, d :: 0 <= h < i ==> !HeadMatch(s[h..], d)
      decreases |s| - i
    {
      i := i + 1;
    }
    c :| HeadMatch(s[i..], c);
  }

  lemma LeftmostIsUnique(s: string, i: nat, c: Cuts, j: nat, d: Cuts)
    requires IsLeftmost(s, i, c) && IsLeftmost(s, j, d)
    ensures i == j && c == d
  {
    hide HeadMatch, HeadCuts;
    HeadMatchIsHeadCuts(s[i..], c);
    HeadMatchIsHeadCuts(s[j..], d);
  }

  /** The leftmost match fixes the first step of a search. */
  lemma FindAllAt(s: string, pairs: seq<Pair>, i: nat, c: Cuts)
    requires IsLeftmost(s, i, c) && pairs != []
    ensures c.Fit(s[i..])
    ensures FindAll(s, pairs) <==> pairs[0] == c.Captured(s[i..]) && FindAll(c.Rest(s[i..]), pairs[1..])
  {
    hide HeadCuts;
    assert c.Fit(s[i..]);
    if FindAll(s, pairs) {
      hide HeadMatch;
      var j: nat, d: Cuts :|
        && IsLeftmost(s, j, d)
        && pairs[0] == d.Captured(s[j..])
        && FindAll(d.Rest(s[j..]), pairs[1..]);
      LeftmostIsUnique(s, i, c, j, d);
    }
  }

  /** Positions without a match contribute nothing to the scan. */
  lemma ScanSkips(s: string, i: nat)
    requires i <= |s|
    requires forall h, d :: 0 <= h < i ==> !HeadMatch(s[h..], d)
    ensures Scan(s) == Scan(s[i..])
  {
    hide HeadMatch, HeadCuts, Scan;
    forall h | 0 <= h < i
      ensures HeadCuts(s[h..]) == None
    {
      NoHead(s[h..]);
    }
    ScanDrops(s, i);
  }

  lemma {:induction false} ScanDrops(s: string, i: nat)
    requires i <= |s|
    requires forall h :: 0 <= h < i ==> HeadCuts(s[h..]) == None
    ensures Scan(s) == Scan(s[i..])
    decreases i
  {
    hide HeadCuts;
    if i == 0 {
      assert s[0..] == s;
    } else {
      ScanDrops(s, i - 1);
      assert s[i - 1..][1..] == s[i..];
    }
  }

  lemma NoHead(t: string)
    requires forall d :: !HeadMatch(t, d)
    ensures HeadCuts(t) == None
  {
    hide HeadMatch, HeadCuts;
    if HeadCuts(t).Some? {
      HeadCutsMatch(t);
    }
  }
}
