/** The log file as the follower sees it (scripts/stream_smolvla_wandb.py:91-96): text that another
    process appends to, and a cursor that a half-written line does not move. */
module LogTail {
  import opened Regex

  /** Length of the first line, without its newline. */
  function LineLen(text: string): (n: nat)
    ensures n <= |text| && '\n' !in text[..n]
    ensures n < |text| ==> text[n] == '\n'
  {
    NotNewline.Run(text)
  }

  /** What readline() returns at the head of a text: up to and including a newline, or all of it. */
  function LineAtHead(text: string): string {
    var n := LineLen(text);
    if n < |text| then text[..n + 1] else text
  }

  predicate Ended(line: string) {
    line != "" && line[|line| - 1] == '\n'
  }

  /** The lines of a text that end in a newline. */
  function CompleteLines(text: string): seq<string>
    decreases |text|
  {
    var n := LineLen(text);
    if n < |text| then [text[..n + 1]] + CompleteLines(text[n + 1..]) else []
  }

  /** What is left behind the last newline. */
  function Unfinished(text: string): string
    decreases |text|
  {
    var n := LineLen(text);
    if n < |text| then Unfinished(text[n + 1..]) else text
  }

  function Concat(lines: seq<string>): string {
    if lines == [] then "" else lines[0] + Concat(lines[1..])
  }

  class LogFile {
    var content: string
    var cursor: nat

    constructor (content: string)
      ensures this.content == content && cursor == 0
    {
      this.content := content;
      cursor := 0;
    }

    /** The writer appends: the content becomes an extension of what it was. */
    method Grow(content: string)
      requires this.content <= content
      modifies this`content
      ensures this.content == content
    {
      this.content := content;
    }

    method ReadLine() returns (line: string)
      requires cursor <= |content|
      modifies this`cursor
      ensures line == LineAtHead(content[old(cursor)..])
      ensures cursor == old(cursor) + |line| <= |content|
    {
      line := LineAtHead(content[cursor..]);
      cursor := cursor + |line|;
    }

    method Seek(position: nat)
      modifies this`cursor
      ensures cursor == position
    {
      cursor := position;
    }
  }

  lemma LinesFirst(text: string)
    ensures var n := LineLen(text);
            CompleteLines(text) == if n < |text| then [text[..n + 1]] + CompleteLines(text[n + 1..]) else []
  {
    hide LineLen;
  }

  lemma UnfinishedFirst(text: string)
    ensures var n := LineLen(text);
            Unfinished(text) == if n < |text| then Unfinished(text[n + 1..]) else text
  {
    hide LineLen;
  }

  lemma {:induction false} ConcatParts(a: seq<string>, b: seq<string>)
    ensures Concat(a + b) == Concat(a) + Concat(b)
  {
    if a == [] {
      assert a + b == b;
    } else {
      assert (a + b)[1..] == a[1..] + b;
      ConcatParts(a[1..], b);
    }
  }

  lemma ConcatOneMore(lines: seq<string>, line: string)
    ensures Concat(lines + [line]) == Concat(lines) + line
  {
    ConcatParts(lines, [line]);
    assert [line][1..] == [];
  }

  lemma ConcatFirst(line: string, lines: seq<string>)
    ensures Concat([line] + lines) == line + Concat(lines)
  {
    assert ([line] + lines)[1..] == lines;
  }

  lemma Rejoined(text: string, n: nat, a: string, b: string)
    requires n <= |text| && a + b == text[n..]
    ensures text[..n] + a + b == text
  {
  }

  lemma NoLines(text: string)
    ensures Concat([]) + text == text
  {
  }

  /** Splitting into lines loses and repeats no character. */
  lemma {:induction false} LinesRejoin(text: string)
    ensures Concat(CompleteLines(text)) + Unfinished(text) == text
    decreases |text|
  {
    hide LineLen, Concat, CompleteLines, Unfinished;
    var n := LineLen(text);
    LinesFirst(text);
    UnfinishedFirst(text);
    if n < |text| {
      var rest := text[n + 1..];
      LinesRejoin(rest);
      ConcatFirst(text[..n + 1], CompleteLines(rest));
      Rejoined(text, n + 1, Concat(CompleteLines(rest)), Unfinished(rest));
    } else {
      NoLines(text);
    }
  }

  lemma RunOfExtension(text: string, more: string)
    ensures var n := LineLen(text); n < |text| ==> LineLen(text + more) == n
  {
    var n := LineLen(text);
    if n < |text| {
      NotNewline.HasAllBelow(text, n);
      NotNewline.RunIs(text + more, n);
    }
  }

  /** A complete line stays what it is, however the text grows. */
  lemma {:induction false} LinesOfExtension(text: string, more: string)
    ensures CompleteLines(text) <= CompleteLines(text + more)
    decreases |text|
  {
    hide LineLen;
    var n := LineLen(text);
    if n >= |text| {
    } else {
      RunOfExtension(text, more);
      assert (text + more)[..n + 1] == text[..n + 1] && (text + more)[n + 1..] == text[n + 1..] + more;
      LinesOfExtension(text[n + 1..], more);
    }
  }

  lemma LinesGrow(text: string, longer: string)
    requires text <= longer
    ensures CompleteLines(text) <= CompleteLines(longer)
  {
    assert longer == text + longer[|text|..];
    LinesOfExtension(text, longer[|text|..]);
  }

  /** Every complete line ends in its only newline. */
  lemma {:induction false} LineShape(text: string, m: nat)
    requires m < |CompleteLines(text)|
    ensures Ended(CompleteLines(text)[m])
    ensures '\n' !in CompleteLines(text)[m][..|CompleteLines(text)[m]| - 1]
    decreases |text|
  {
    hide LineLen;
    var n := LineLen(text);
    if m > 0 {
      LineShape(text[n + 1..], m - 1);
    } else {
      assert text[..n + 1][..n] == text[..n];
    }
  }

  /** The text up to line m, and the text from there on. */
  function Before(text: string, m: nat): string
    requires m <= |CompleteLines(text)|
  {
    Concat(CompleteLines(text)[..m])
  }

  /** Reading line by line, the text behind the first m complete lines is what is still unread. */
  lemma {:induction false} Unread(text: string, m: nat) returns (rest: string)
    requires m <= |CompleteLines(text)|
    ensures text == Before(text, m) + rest
    ensures CompleteLines(rest) == CompleteLines(text)[m..] && Unfinished(rest) == Unfinished(text)
    decreases |text|
  {
    hide Before, CompleteLines, Unfinished;
    if m == 0 {
      NothingBefore(text);
      return text;
    }
    var n := FirstLine(text, m);
    rest := Unread(text[n..], m - 1);
    assert text == text[..n] + text[n..];
  }

  lemma NothingBefore(text: string)
    ensures Before(text, 0) == ""
  {
  }

  lemma FirstLine(text: string, m: nat) returns (n: nat)
    requires 0 < m <= |CompleteLines(text)|
    ensures 0 < n <= |text| && CompleteLines(text) == [text[..n]] + CompleteLines(text[n..])
    ensures Unfinished(text) == Unfinished(text[n..])
    ensures Before(text, m) == text[..n] + Before(text[n..], m - 1)
  {
    hide LineLen;
    n := LineLen(text) + 1;
    var lines, more := CompleteLines(text), CompleteLines(text[n..]);
    assert lines[..m][1..] == more[..m - 1] && lines[..m][0] == text[..n];
  }

  lemma HeadLine(text: string)
    ensures var line := LineAtHead(text);
            if CompleteLines(text) != [] then line == CompleteLines(text)[0] && Ended(line)
            else line == Unfinished(text) && !Ended(line)
  {
    hide LineLen;
    LinesFirst(text);
    UnfinishedFirst(text);
  }

  /** Behind the first m complete lines, readline() returns line m; behind all of them it returns
      the unfinished rest, which does not end in a newline. */
  lemma NextLine(text: string, m: nat)
    requires m <= |CompleteLines(text)|
    ensures Before(text, m) <= text
    ensures var line := LineAtHead(text[|Before(text, m)|..]);
            if m < |CompleteLines(text)| then line == CompleteLines(text)[m] && Ended(line)
            else line == Unfinished(text) && !Ended(line)
  {
    hide Before, CompleteLines, LineAtHead, Unfinished;
    var rest := Unread(text, m);
    assert text[|Before(text, m)|..] == rest;
    HeadLine(rest);
  }

  /** The first "taken" complete lines of the content are read, and the cursor stands behind them. */
  ghost predicate ReadUpTo(content: string, cursor: nat, lines: seq<string>, taken: nat) {
    && taken <= |CompleteLines(content)|
    && lines == CompleteLines(content)[..taken]
    && cursor == |Concat(lines)|
    && Concat(lines) <= content
  }

  lemma NothingRead()
    ensures ReadUpTo("", 0, [], 0)
  {
  }

  /** The next readline(), after the content has grown: a complete line, if there is one, is the next
      one in order; otherwise what it returns does not end in a newline. */
  lemma ReadOn(content: string, longer: string, cursor: nat, lines: seq<string>, taken: nat)
    requires ReadUpTo(content, cursor, lines, taken) && content <= longer
    ensures ReadUpTo(longer, cursor, lines, taken)
    ensures cursor <= |longer|
    ensures var line := LineAtHead(longer[cursor..]);
            && (Ended(line) <==> taken < |CompleteLines(longer)|)
            && (Ended(line) ==> ReadUpTo(longer, cursor + |line|, lines + [line], taken + 1))
  {
    hide CompleteLines, LineAtHead, Unfinished, Concat;
    LinesGrow(content, longer);
    assert lines == CompleteLines(longer)[..taken];
    NextLine(longer, taken);
    if taken < |CompleteLines(longer)| {
      var line := CompleteLines(longer)[taken];
      assert lines + [line] == CompleteLines(longer)[..taken + 1];
      ConcatOneMore(lines, line);
      NextLine(longer, taken + 1);
    }
  }
}
