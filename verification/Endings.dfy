/** Which lines end the follower, in terms of the texts they contain
    (scripts/stream_smolvla_wandb.py:102-112). */
module Endings {
  import opened MetricParser
  import opened Delivery

  /** The part stands somewhere in the line. */
  ghost predicate Says(line: string, part: string) {
    exists before: string, behind: string :: line == before + part + behind
  }

  lemma HasTextIsSays(line: string, part: string)
    ensures HasText(line, part) <==> Says(line, part)
  {
    if HasText(line, part) {
      var i :| 0 <= i <= |line| && part <= line[i..];
      CutAt(line, part, i);
    }
    if Says(line, part) {
      var before: string, behind: string :| line == before + part + behind;
      FoundBehind(before, part, behind);
    }
  }

  lemma CutAt(line: string, part: string, i: nat)
    requires i <= |line| && part <= line[i..]
    ensures line == line[..i] + part + line[i..][|part|..]
  {
    assert line[i..] == part + line[i..][|part|..];
  }

  lemma FoundBehind(before: string, part: string, behind: string)
    ensures part <= (before + part + behind)[|before|..]
  {
    assert (before + part + behind)[|before|..] == part + behind;
  }

  /** A line ends the reading with its metric, or with what it says. */
  ghost predicate Terminal(line: string) {
    || ParseLine(line) == RoundedStep
    || Says(line, "End of training")
    || Says(line, "Traceback (most recent call last)")
  }

  lemma EndingIs(line: string)
    ensures Ending(line) == if Says(line, "End of training") then Finished
                            else if Says(line, "Traceback (most recent call last)") then TrainingFailed
                            else Reading
  {
    hide HasText, Says;
    HasTextIsSays(line, "End of training");
    HasTextIsSays(line, "Traceback (most recent call last)");
  }

  /** Wherever a line says so, the training is finished. */
  lemma FinishedAnywhere(before: string, behind: string)
    ensures Ending(before + "End of training" + behind) == Finished
  {
    EndingIs(before + "End of training" + behind);
  }

  /** A traceback anywhere in a line that does not also say so is a failure. */
  lemma FailedAnywhere(before: string, behind: string)
    requires var line := before + "Traceback (most recent call last)" + behind;
             forall x: string, y: string :: line != x + "End of training" + y
    ensures Ending(before + "Traceback (most recent call last)" + behind) == TrainingFailed
  {
    EndingIs(before + "Traceback (most recent call last)" + behind);
  }

  /** Any other line says nothing about the end. */
  lemma ReadingOtherwise(line: string)
    requires forall x: string, y: string :: line != x + "End of training" + y
    requires forall x: string, y: string :: line != x + "Traceback (most recent call last)" + y
    ensures Ending(line) == Reading
  {
    EndingIs(line);
  }

  lemma TerminalStops(line: string)
    ensures Terminal(line) <==> Stops(line)
    ensures Terminal(line) ==>
              StopStatus(line) == if ParseLine(line) == RoundedStep then BadStep
                                  else if Says(line, "End of training") then Finished
                                  else TrainingFailed
  {
    hide ParseLine, Ending, Says;
    EndingIs(line);
  }

  /** A reading that is still going on has met no terminal line; one that has ended at the last line has
      met none before it, and ends as that line says. */
  lemma StatusSays(lines: seq<string>, marks: Marks)
    ensures Deliver(lines, marks).status == Reading <==> forall i :: 0 <= i < |lines| ==> !Terminal(lines[i])
    ensures lines != [] && Deliver(lines, marks).status != Reading
            && Deliver(lines[..|lines| - 1], marks).status == Reading ==>
              var last := lines[|lines| - 1];
              && Terminal(last)
              && (forall i :: 0 <= i < |lines| - 1 ==> !Terminal(lines[i]))
              && Deliver(lines, marks).status == (if ParseLine(last) == RoundedStep then BadStep
                                                  else if Says(last, "End of training") then Finished
                                                  else TrainingFailed)
  {
    hide Deliver, Terminal, Stops, StopStatus, ParseLine, Says;
    ReadingUnlessStopped(lines, marks);
    if lines != [] && Deliver(lines, marks).status != Reading
       && Deliver(lines[..|lines| - 1], marks).status == Reading {
      var n := |lines| - 1;
      ReadingUnlessStopped(lines[..n], marks);
      assert forall i :: 0 <= i < n ==> lines[..n][i] == lines[i];
      DeliverEndsAtStop(lines, n, marks);
      TerminalStops(lines[n]);
    }
  }

  lemma ReadingUnlessStopped(lines: seq<string>, marks: Marks)
    ensures Deliver(lines, marks).status == Reading <==> forall i :: 0 <= i < |lines| ==> !Terminal(lines[i])
    ensures Deliver(lines, marks).status == Reading <==> forall i :: 0 <= i < |lines| ==> !Stops(lines[i])
  {
    hide Deliver, Terminal, Stops, StopStatus;
    forall i | 0 <= i < |lines|
      ensures Terminal(lines[i]) <==> Stops(lines[i])
    {
      TerminalStops(lines[i]);
    }
    if forall i :: 0 <= i < |lines| ==> !Stops(lines[i]) {
      DeliverReadsOn(lines, marks);
    } else {
      var i := FirstStopOf(lines);
      DeliverEndsAtStop(lines, i, marks);
    }
  }

  lemma FirstStopOf(lines: seq<string>) returns (i: nat)
    requires exists h :: 0 <= h < |lines| && Stops(lines[h])
    ensures FirstStop(lines, i)
  {
    hide Stops;
    i := 0;
    while !Stops(lines[i])
      invariant i < |lines| && forall h :: 0 <= h < i ==> !Stops(lines[h])
      decreases |lines| - i
    {
      i := i + 1;
    }
  }
}
