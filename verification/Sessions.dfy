/** The follower over any number of crashes and restarts: every session starts at the top of a log
    that may have grown, resumes from the summary of what the sink kept, and may lose the end of what
    it forwarded. */
module Sessions {
  import opened NumberValue
  import opened MetricScan
  import opened MetricParser
  import opened MetricFacts
  import opened LogTail
  import opened Delivery

  /** One run of the follower: the log at its end, how many complete lines it handled before it ended
      for whatever reason, and how many entries the sink holds afterwards. */
  datatype Session = Session(log: string, handled: nat, kept: nat)

  /** The log only grows, and a session handles complete lines of it. */
  ghost predicate Plausible(sessions: seq<Session>) {
    && (forall i, j :: 0 <= i <= j < |sessions| ==> sessions[i].log <= sessions[j].log)
    && (forall i :: 0 <= i < |sessions| ==> sessions[i].handled <= |CompleteLines(sessions[i].log)|)
  }

  /** What the sink has received when the session ends. */
  function Received(before: seq<Entry>, s: Session): seq<Entry>
    requires s.handled <= |CompleteLines(s.log)|
  {
    before + Deliver(CompleteLines(s.log)[..s.handled], ResumeMarks(before)).entries
  }

  /** What the sink holds after the sessions: a crash may cut off any end. */
  function Durable(sessions: seq<Session>): seq<Entry>
    requires Plausible(sessions)
  {
    if sessions == [] then []
    else
      var s := sessions[|sessions| - 1];
      var all := Received(Durable(sessions[..|sessions| - 1]), s);
      if s.kept < |all| then all[..s.kept] else all
  }

  /** What a single uninterrupted follower forwards. */
  function Ideal(log: string): seq<Entry> {
    Deliver(CompleteLines(log), FRESH).entries
  }

  // ---------------------------------------------------------------- marks along the entries

  /** Every entry is above the mark of its mode at that point. */
  ghost predicate Rising(marks: Marks, entries: seq<Entry>)
    decreases |entries|
  {
    entries == [] ||
    (entries[0].step > marks.Of(entries[0].mode)
     && Rising(marks.With(entries[0].mode, entries[0].step), entries[1..]))
  }

  lemma {:induction false} MarksAfterParts(marks: Marks, a: seq<Entry>, b: seq<Entry>)
    ensures MarksAfter(marks, a + b) == MarksAfter(MarksAfter(marks, a), b)
    decreases |b|
  {
    if b == [] {
      assert a + b == a;
    } else {
      var n := |b| - 1;
      assert (a + b)[..|a + b| - 1] == a + b[..n];
      MarksAfterParts(marks, a, b[..n]);
    }
  }

  lemma MarksAfterFirst(marks: Marks, entries: seq<Entry>)
    requires entries != []
    ensures MarksAfter(marks, entries) == MarksAfter(marks.With(entries[0].mode, entries[0].step), entries[1..])
  {
    assert entries == [entries[0]] + entries[1..];
    MarksAfterParts(marks, [entries[0]], entries[1..]);
    assert [entries[0]][..0] == [];
  }

  lemma {:induction false} MarksRise(marks: Marks, entries: seq<Entry>)
    requires Rising(marks, entries)
    ensures forall mode :: marks.Of(mode) <= MarksAfter(marks, entries).Of(mode)
    decreases |entries|
  {
    if entries == [] {
    } else {
      var next := marks.With(entries[0].mode, entries[0].step);
      MarksAfterFirst(marks, entries);
      MarksRise(next, entries[1..]);
      assert forall mode :: marks.Of(mode) <= next.Of(mode);
      assert forall mode :: next.Of(mode) <= MarksAfter(next, entries[1..]).Of(mode);
    }
  }

  lemma {:induction false} RisingPrefix(marks: Marks, entries: seq<Entry>, k: nat)
    requires Rising(marks, entries) && k <= |entries|
    ensures Rising(marks, entries[..k])
    decreases k
  {
    if k == 0 {
    } else {
      RisingPrefix(marks.With(entries[0].mode, entries[0].step), entries[1..], k - 1);
      assert entries[..k][1..] == entries[1..][..k - 1];
    }
  }

  lemma {:induction false} DeliverRises(lines: seq<string>, marks: Marks)
    ensures Rising(marks, Deliver(lines, marks).entries)
  {
    hide ParseLine, Ending;
    if lines == [] {
    } else {
      var first := Handle(lines[0], marks);
      var rest := Deliver(lines[1..], first.marks);
      DeliverRises(lines[1..], first.marks);
      if first.entries == [] {
        assert first.entries + rest.entries == rest.entries;
      } else {
        assert (first.entries + rest.entries)[1..] == rest.entries;
        assert first.entries[1..] == [];
      }
    }
  }

  // ---------------------------------------------------------------- resuming

  /** A line whose metric is not above the marks passes without an entry. */
  lemma HandleAgain(line: string, marks: Marks, later: Marks)
    requires forall mode :: Handle(line, marks).marks.Of(mode) <= later.Of(mode)
    ensures Handle(line, later) == Delivered([], later, Handle(line, marks).status)
  {
    hide ParseLine, Ending;
  }

  /** The entries kept behind the first line, and the marks they leave. */
  lemma KeptBehindFirst(first: Delivered, rest: seq<Entry>, marks: Marks, k: nat)
    requires |first.entries| <= k <= |first.entries + rest|
    requires MarksAfter(marks, first.entries) == first.marks
    ensures var n := |first.entries|;
            && MarksAfter(marks, (first.entries + rest)[..k]) == MarksAfter(first.marks, rest[..k - n])
            && (first.entries + rest)[k..] == rest[k - n..]
  {
    hide MarksAfter;
    var n := |first.entries|;
    assert (first.entries + rest)[..k] == first.entries + rest[..k - n];
    MarksAfterParts(marks, first.entries, rest[..k - n]);
  }

  /** The marks that kept entries leave are not below the marks they started from. */
  lemma KeptMarksRise(lines: seq<string>, marks: Marks, k: nat)
    requires k <= |Deliver(lines, marks).entries|
    ensures forall mode :: marks.Of(mode) <= MarksAfter(marks, Deliver(lines, marks).entries[..k]).Of(mode)
  {
    hide Deliver, Rising, MarksAfter;
    var entries := Deliver(lines, marks).entries;
    DeliverRises(lines, marks);
    RisingPrefix(marks, entries, k);
    MarksRise(marks, entries[..k]);
  }

  /** Delivering lines of which the first gives what it gives. */
  lemma DeliverFirst(lines: seq<string>, marks: Marks)
    requires lines != []
    ensures var first := Handle(lines[0], marks);
            var rest := Deliver(lines[1..], first.marks);
            Deliver(lines, marks) == if first.status != Reading then first
                                     else Delivered(first.entries + rest.entries, rest.marks, rest.status)
  {
    hide Handle;
  }

  /** Handling the same lines again with the marks of the first k entries forwards exactly the rest,
      with the interleaving of the modes preserved. */
  lemma {:induction false} ResumeForwardsRest(lines: seq<string>, marks: Marks, k: nat)
    requires k <= |Deliver(lines, marks).entries|
    ensures var full := Deliver(lines, marks);
            Deliver(lines, MarksAfter(marks, full.entries[..k]))
            == Delivered(full.entries[k..], full.marks, full.status)
    decreases |lines|
  {
    hide Handle, Deliver, MarksAfter;
    if k == 0 {
      NothingKept(Deliver(lines, marks), marks);
    } else if lines == [] {
      NothingToDeliver(marks);
    } else {
      var first, rest := Handle(lines[0], marks), lines[1..];
      var n := |first.entries|;
      HandleShape(lines[0], marks);
      DeliverFirst(lines, marks);
      if first.status == Reading {
        var more := Deliver(rest, first.marks).entries;
        var later := MarksAfter(first.marks, more[..k - n]);
        KeptBehindFirst(first, more, marks, k);
        KeptMarksRise(rest, first.marks, k - n);
        HandleAgain(lines[0], marks, later);
        DeliverFirst(lines, later);
        ResumeForwardsRest(rest, first.marks, k - n);
        NothingBefore(more[k - n..]);
      } else {
        AllKept(first, k);
        HandleAgain(lines[0], marks, first.marks);
        DeliverFirst(lines, first.marks);
      }
    }
  }

  lemma NothingKept(full: Delivered, marks: Marks)
    ensures MarksAfter(marks, full.entries[..0]) == marks && full.entries[0..] == full.entries
  {
  }

  lemma NothingToDeliver(marks: Marks)
    ensures Deliver([], marks).entries == []
  {
  }

  lemma NothingBefore(entries: seq<Entry>)
    ensures [] + entries == entries
  {
  }

  lemma AllKept(full: Delivered, k: nat)
    requires k == |full.entries|
    ensures full.entries[..k] == full.entries && full.entries[k..] == []
  {
  }

  lemma HandleShape(line: string, marks: Marks)
    ensures |Handle(line, marks).entries| <= 1
    ensures MarksAfter(marks, Handle(line, marks).entries) == Handle(line, marks).marks
  {
    hide ParseLine, Ending;
    var h := Handle(line, marks);
    if h.entries != [] {
      assert h.entries[..0] == [];
    }
  }

  // ---------------------------------------------------------------- entries are plain

  lemma PlainMetric(line: string)
    requires ParseLine(line).Metric?
    ensures forall mode :: StepKey(mode) !in ParseLine(line).values
  {
    hide Search, Scan, Collect, DigitsValue, FloatValue, StepKey;
    StepKeysDiffer();
    assert forall mode :: StepKey(mode) != "" && StepKey(mode)[0] == 'f';
    if ParseLine(line).mode == Train {
      var pairs := Scan(Search(line, TrainOf).value.rest);
      forall mode
        ensures StepKey(mode) !in Collect(pairs)
      {
        CollectKeepsLast(pairs, StepKey(mode));
        NoPlainWrite(StepKey(mode), pairs);
      }
      assert ParseLine(line).values == Collect(pairs);
    } else {
      assert "eval/eval_loss"[0] == 'e';
    }
  }

  lemma NoPlainWrite(name: string, pairs: seq<Pair>)
    requires name != "" && name[0] == 'f'
    ensures forall n: nat :: !LastWrite(pairs, name, n)
  {
    hide Amount, IsFinite, Alias;
    forall n: nat | n < |pairs|
      ensures !Writes(pairs[n], name)
    {
      assert ("train/" + Alias(pairs[n].key))[0] == 't';
    }
  }

  lemma {:induction false} DeliverPlain(lines: seq<string>, marks: Marks)
    ensures forall e :: e in Deliver(lines, marks).entries ==> Plain(e)
  {
    hide ParseLine, Ending, StepKey;
    if lines == [] {
    } else {
      if ParseLine(lines[0]).Metric? {
        PlainMetric(lines[0]);
      }
      DeliverPlain(lines[1..], Handle(lines[0], marks).marks);
    }
  }

  // ---------------------------------------------------------------- all sessions

  /** A sink that holds the first k ideal entries resumes with the marks of these entries. */
  lemma ResumeMarksOfIdeal(log: string, k: nat)
    requires k <= |Ideal(log)|
    ensures ResumeMarks(Ideal(log)[..k]) == MarksAfter(FRESH, Ideal(log)[..k])
  {
    hide Deliver, CompleteLines, Plain, ResumeMarks, MarksAfter;
    DeliverPlain(CompleteLines(log), FRESH);
    SummaryIsLast(Ideal(log)[..k]);
  }

  /** Reading the whole log again after a crash forwards exactly the entries the sink lacks. */
  lemma RestartForwardsRest(log: string, k: nat)
    requires k <= |Ideal(log)|
    ensures Deliver(CompleteLines(log), ResumeMarks(Ideal(log)[..k])).entries == Ideal(log)[k..]
    ensures Deliver(CompleteLines(log), ResumeMarks(Ideal(log)[..k])).status
            == Deliver(CompleteLines(log), FRESH).status
  {
    hide Deliver, CompleteLines, ResumeMarks, MarksAfter;
    ResumeMarksOfIdeal(log, k);
    ResumeForwardsRest(CompleteLines(log), FRESH, k);
  }

  lemma IdealGrows(log: string, longer: string)
    requires log <= longer
    ensures Ideal(log) <= Ideal(longer)
  {
    hide Deliver, CompleteLines;
    LinesGrow(log, longer);
    DeliverGrows(CompleteLines(log), CompleteLines(longer), FRESH);
  }

  /** One session keeps "the sink holds a prefix of the ideal entries". */
  lemma SessionKeepsPrefix(before: seq<Entry>, s: Session)
    requires s.handled <= |CompleteLines(s.log)| && before <= Ideal(s.log)
    ensures Received(before, s) <= Ideal(s.log)
    ensures s.handled == |CompleteLines(s.log)| ==> Received(before, s) == Ideal(s.log)
    ensures Deliver(CompleteLines(s.log)[..s.handled], ResumeMarks(before)).status != Reading ==>
              Received(before, s) == Ideal(s.log)
  {
    hide Deliver, CompleteLines, ResumeMarks, Ideal;
    var lines, all := CompleteLines(s.log), Ideal(s.log);
    assert before == all[..|before|];
    RestartForwardsRest(s.log, |before|);
    assert lines[..|lines|] == lines;
    DeliverGrows(lines[..s.handled], lines, ResumeMarks(before));
    assert all == before + all[|before|..];
  }

  lemma NothingDurable()
    ensures Plausible([]) && Durable([]) == []
  {
  }

  lemma EarlierSessions(sessions: seq<Session>)
    requires Plausible(sessions) && sessions != []
    ensures var n := |sessions| - 1;
            && Plausible(sessions[..n])
            && sessions[n].handled <= |CompleteLines(sessions[n].log)|
            && forall i :: 0 <= i < n ==> sessions[..n][i].log <= sessions[n].log
  {
    hide CompleteLines;
  }

  /** The sink keeps a prefix of what it received. */
  lemma DurableIsReceived(sessions: seq<Session>)
    requires Plausible(sessions) && sessions != []
    ensures var n := |sessions| - 1;
            && Plausible(sessions[..n])
            && sessions[n].handled <= |CompleteLines(sessions[n].log)|
            && Durable(sessions) <= Received(Durable(sessions[..n]), sessions[n])
  {
    hide Received, CompleteLines;
    EarlierSessions(sessions);
  }

  /** Exactly once: whatever sessions there were, the sink holds a prefix of what one uninterrupted
      follower forwards. */
  lemma {:induction false} ExactlyOnce(sessions: seq<Session>, log: string)
    requires Plausible(sessions)
    requires forall i :: 0 <= i < |sessions| ==> sessions[i].log <= log
    ensures Durable(sessions) <= Ideal(log)
    decreases |sessions|
  {
    hide Ideal, Received, CompleteLines, Plausible;
    if sessions == [] {
      NothingDurable();
    } else {
      var n := |sessions| - 1;
      EarlierSessions(sessions);
      ExactlyOnce(sessions[..n], sessions[n].log);
      SessionKeepsPrefix(Durable(sessions[..n]), sessions[n]);
      IdealGrows(sessions[n].log, log);
      DurableIsReceived(sessions);
    }
  }

  /** A last session that handles all lines, or ends on a terminal line, and loses nothing leaves the
      sink with all ideal entries, whatever happened before it. */
  lemma LastSessionCompletes(sessions: seq<Session>, s: Session)
    requires Plausible(sessions) && s.handled <= |CompleteLines(s.log)|
    requires forall i :: 0 <= i < |sessions| ==> sessions[i].log <= s.log
    requires s.kept >= |Received(Durable(sessions), s)|
    requires s.handled == |CompleteLines(s.log)|
             || Deliver(CompleteLines(s.log)[..s.handled], ResumeMarks(Durable(sessions))).status != Reading
    ensures Plausible(sessions + [s]) && Durable(sessions + [s]) == Ideal(s.log)
  {
    hide Ideal, Received, CompleteLines, Deliver, ResumeMarks;
    var all := sessions + [s];
    assert all[..|sessions|] == sessions && all[|sessions|] == s;
    assert Plausible(all);
    ExactlyOnce(sessions, s.log);
    SessionKeepsPrefix(Durable(sessions), s);
  }

  /** No step is ever in the sink twice: the entries of a mode have strictly increasing steps. */
  lemma NoRepeats(sessions: seq<Session>, log: string, i: nat, j: nat)
    requires Plausible(sessions)
    requires forall n :: 0 <= n < |sessions| ==> sessions[n].log <= log
    requires i < j < |Durable(sessions)| && Durable(sessions)[i].mode == Durable(sessions)[j].mode
    ensures Durable(sessions)[i].step < Durable(sessions)[j].step
  {
    hide Deliver, CompleteLines, Durable, Plausible;
    ExactlyOnce(sessions, log);
    DeliverRises(CompleteLines(log), FRESH);
    RisingPairs(FRESH, Ideal(log), i, j);
  }

  lemma {:induction false} RisingPairs(marks: Marks, entries: seq<Entry>, i: nat, j: nat)
    requires Rising(marks, entries) && i < j < |entries| && entries[i].mode == entries[j].mode
    ensures entries[i].step < entries[j].step
    decreases i
  {
    var next := marks.With(entries[0].mode, entries[0].step);
    if i > 0 {
      RisingPairs(next, entries[1..], i - 1, j - 1);
    } else {
      RisingAbove(next, entries[1..], j - 1);
    }
  }

  lemma {:induction false} RisingAbove(marks: Marks, entries: seq<Entry>, j: nat)
    requires Rising(marks, entries) && j < |entries|
    ensures marks.Of(entries[j].mode) < entries[j].step
    decreases j
  {
    if j == 0 {
    } else {
      RisingAbove(marks.With(entries[0].mode, entries[0].step), entries[1..], j - 1);
    }
  }
}
