/** Which target frames the strided chunks reach, and how often
    (scripts/diagnose_smolvla_action_chunks.py:60-92). */
module ChunkCoverage {
  import opened ChunkErrors
  import opened Quotients

  // ---------------------------------------------------------------- the rows are exactly these

  /** The row of episode ep for chunk start i and offset o. */
  function RowAt(src: Source, ep: Episode, i: nat, o: nat): OutRow
    requires src.Valid() && o < src.chunk
  {
    OutRow(ep.id, i, o, src.truth(ep.start + i)[o], src.predict(ep.start + i)[o])
  }

  /** Chunk start i is on the stride, and offset o from it is inside the chunk and the episode. */
  predicate Emitted(src: Source, ep: Episode, stride: nat, i: nat, o: nat)
    requires stride > 0
  {
    i % stride == 0 && o < src.chunk && ep.start + i + o < ep.stop
  }

  lemma {:induction false} AllRowsOfParts(src: Source, a: seq<Visit>, b: seq<Visit>)
    requires src.Valid()
    ensures AllRows(src, a + b) == AllRows(src, a) + AllRows(src, b)
    decreases |b|
  {
    hide RowsOf;
    if b == [] {
      assert a + b == a;
    } else {
      var n := |b| - 1;
      assert (a + b)[..|a + b| - 1] == a + b[..n];
      AllRowsOfParts(src, a, b[..n]);
    }
  }

  lemma RowsFromFirst(src: Source, ep: Episode, index: nat, stride: nat)
    requires src.Valid() && stride > 0 && index < ep.stop
    ensures AllRows(src, VisitsFrom(ep, index, stride))
            == RowsOf(src, Visit(ep, index)) + AllRows(src, VisitsFrom(ep, index + stride, stride))
  {
    hide RowsOf;
    var v, rest := Visit(ep, index), VisitsFrom(ep, index + stride, stride);
    AllRowsOfParts(src, [v], rest);
    assert [v][..0] == [] && AllRows(src, [v]) == AllRows(src, []) + RowsOf(src, v);
  }

  lemma StrideStep(i: nat, j: nat, stride: nat)
    requires stride > 0 && i % stride == 0
    ensures (i + stride) % stride == 0
    ensures i < j < i + stride ==> j % stride != 0
  {
    var q := i / stride;
    assert i == q * stride;
    assert (q + 1) * stride == i + stride;
    QuotientIs(i + stride, q + 1, 0, stride);
    if i < j < i + stride {
      QuotientIs(j, q, j - i, stride);
    }
  }

  /** The rows from chunk start i on. */
  lemma {:induction false} RowsFromAre(src: Source, ep: Episode, i: nat, stride: nat, r: OutRow)
    requires src.Valid() && stride > 0 && i % stride == 0
    ensures r in AllRows(src, VisitsFrom(ep, ep.start + i, stride)) <==>
            exists j: nat, o: nat :: i <= j && Emitted(src, ep, stride, j, o) && r == RowAt(src, ep, j, o)
    decreases ep.stop - i
  {
    hide AllRows, VisitsFrom, Source.Valid;
    if ep.start + i < ep.stop {
      RowsFromFirst(src, ep, ep.start + i, stride);
      StrideStep(i, i, stride);
      RowsFromAre(src, ep, i + stride, stride, r);
      RowsOfAre(src, ep, i, r);
      forall j: nat, o: nat | i <= j && Emitted(src, ep, stride, j, o) && r == RowAt(src, ep, j, o)
        ensures r in AllRows(src, VisitsFrom(ep, ep.start + i, stride))
      {
        StrideStep(i, j, stride);
      }
    } else {
      NoVisits(src, ep, ep.start + i, stride);
    }
  }

  lemma NoVisits(src: Source, ep: Episode, index: nat, stride: nat)
    requires src.Valid() && stride > 0 && index >= ep.stop
    ensures AllRows(src, VisitsFrom(ep, index, stride)) == []
  {
  }

  lemma RowsOfAre(src: Source, ep: Episode, i: nat, r: OutRow)
    requires src.Valid() && ep.start + i < ep.stop
    ensures r in RowsOf(src, Visit(ep, ep.start + i)) <==>
            exists o: nat :: o < src.chunk && ep.start + i + o < ep.stop && r == RowAt(src, ep, i, o)
  {
    var v := Visit(ep, ep.start + i);
    forall o: nat | o < src.chunk && ep.start + i + o < ep.stop
      ensures RowAt(src, ep, i, o) in RowsOf(src, v)
    {
      assert o < v.Inside(src.chunk) && v.Frame() == i;
      assert RowsOf(src, v)[o] == RowAt(src, ep, i, o);
    }
    if r in RowsOf(src, v) {
      var o: nat :| o < |RowsOf(src, v)| && RowsOf(src, v)[o] == r;
      assert r == RowAt(src, ep, i, o);
    }
  }

  /** A row is written out exactly when it belongs to an episode of the list, a chunk start on the
      stride, and an offset inside the chunk and the episode. */
  lemma {:induction false} RowsAreTriples(src: Source, eps: seq<Episode>, stride: nat, r: OutRow)
    requires src.Valid() && stride > 0
    ensures r in AllRows(src, Visits(eps, stride)) <==>
            exists e: nat, i: nat, o: nat ::
              e < |eps| && Emitted(src, eps[e], stride, i, o) && r == RowAt(src, eps[e], i, o)
    decreases |eps|
  {
    hide RowsOf, VisitsFrom, RowAt, AllRows;
    if eps == [] {
      NoRowsAtAll(src, stride);
    } else {
      var n := |eps| - 1;
      RowsAreTriples(src, eps[..n], stride, r);
      ZeroOnStride(stride);
      RowsFromAre(src, eps[n], 0, stride, r);
      AllRowsOfParts(src, Visits(eps[..n], stride), VisitsFrom(eps[n], eps[n].start, stride));
      assert eps[n].start + 0 == eps[n].start;
      forall e: nat, i: nat, o: nat | e < |eps| && Emitted(src, eps[e], stride, i, o) && r == RowAt(src, eps[e], i, o)
        ensures r in AllRows(src, Visits(eps, stride))
      {
        if e < n {
          assert eps[..n][e] == eps[e];
        }
      }
    }
  }

  lemma ZeroOnStride(stride: nat)
    requires stride > 0
    ensures 0 % stride == 0
  {
  }

  lemma NoRowsAtAll(src: Source, stride: nat)
    requires src.Valid() && stride > 0
    ensures AllRows(src, Visits([], stride)) == []
  {
  }

  // ---------------------------------------------------------------- no repeats

  ghost predicate Before(a: OutRow, b: OutRow) {
    a.frame < b.frame || (a.frame == b.frame && a.offset < b.offset)
  }

  ghost predicate InOrder(rows: seq<OutRow>) {
    forall i, j :: 0 <= i < j < |rows| ==> Before(rows[i], rows[j])
  }

  /** The rows of one pass over an episode come in order of frame and offset; none is repeated. */
  lemma {:induction false} RowsAreInOrder(src: Source, ep: Episode, index: nat, stride: nat)
    requires src.Valid() && stride > 0
    ensures InOrder(AllRows(src, VisitsFrom(ep, index, stride)))
    ensures forall r :: r in AllRows(src, VisitsFrom(ep, index, stride)) ==> r.frame >= index - ep.start
    decreases ep.stop - index
  {
    hide AllRows, VisitsFrom, RowsOf;
    if index < ep.stop {
      RowsFromFirst(src, ep, index, stride);
      RowsAreInOrder(src, ep, index + stride, stride);
      var v, rest := Visit(ep, index), AllRows(src, VisitsFrom(ep, index + stride, stride));
      RowsOfShape(src, v);
      var rows := RowsOf(src, v) + rest;
      forall i, j | 0 <= i < j < |rows|
        ensures Before(rows[i], rows[j])
      {
        assert j >= |RowsOf(src, v)| ==> rows[j] in rest;
      }
    } else {
      NoVisits(src, ep, index, stride);
    }
  }

  lemma RowsOfShape(src: Source, v: Visit)
    requires src.Valid()
    ensures forall i :: 0 <= i < |RowsOf(src, v)| ==> RowsOf(src, v)[i].frame == v.Frame() && RowsOf(src, v)[i].offset == i
  {
  }

  // ---------------------------------------------------------------- how often a frame is hit

  /** How many rows have the target frame g. */
  function Hits(rows: seq<OutRow>, g: int): nat {
    if rows == [] then 0 else (if rows[0].frame + rows[0].offset == g then 1 else 0) + Hits(rows[1..], g)
  }

  lemma {:induction false} HitsOfParts(a: seq<OutRow>, b: seq<OutRow>, g: int)
    ensures Hits(a + b, g) == Hits(a, g) + Hits(b, g)
  {
    if a == [] {
      assert a + b == b;
    } else {
      assert (a + b)[1..] == a[1..] + b;
      HitsOfParts(a[1..], b, g);
    }
  }

  lemma {:induction false} HitsOfRun(rows: seq<OutRow>, frame: int, first: nat, g: int)
    requires forall i :: 0 <= i < |rows| ==> rows[i].frame == frame && rows[i].offset == first + i
    ensures Hits(rows, g) == if frame + first <= g < frame + first + |rows| then 1 else 0
  {
    if rows == [] {
    } else {
      HitsOfRun(rows[1..], frame, first + 1, g);
    }
  }

  /** The number of the first chunk that can reach frame g. */
  function FirstChunk(g: nat, chunk: nat, stride: nat): nat
    requires stride > 0
  {
    CeilDiv(if g + 1 >= chunk then g + 1 - chunk else 0, stride)
  }

  /** Chunk k reaches frame g exactly when k is between the two quotients. */
  lemma ReachesExactly(k: nat, g: nat, chunk: nat, stride: nat)
    requires stride > 0 && chunk > 0
    ensures k * stride <= g < k * stride + chunk <==> FirstChunk(g, chunk, stride) <= k <= g / stride
  {
    hide CeilDiv;
    AtMostQuotient(k, g, stride);
    AtLeastCeiling(k, if g + 1 >= chunk then g + 1 - chunk else 0, stride);
  }

  /** How many of the numbers from k on are between lo and hi. */
  function CountFrom(k: nat, lo: nat, hi: nat): nat {
    var first := if k < lo then lo else k;
    if first <= hi then hi - first + 1 else 0
  }

  lemma {:induction false} HitsFromChunk(src: Source, ep: Episode, stride: nat, k: nat, g: nat)
    requires src.Valid() && stride > 0 && ep.start + g < ep.stop
    ensures Hits(AllRows(src, VisitsFrom(ep, ep.start + k * stride, stride)), g)
            == CountFrom(k, FirstChunk(g, src.chunk, stride), g / stride)
    decreases ep.stop - k * stride
  {
    hide AllRows, VisitsFrom, Hits, FirstChunk;
    var index := ep.start + k * stride;
    ReachesExactly(k, g, src.chunk, stride);
    AtMostQuotient(k, g, stride);
    assert (k + 1) * stride == k * stride + stride;
    if index < ep.stop {
      var v := Visit(ep, index);
      RowsFromFirst(src, ep, index, stride);
      HitsFromChunk(src, ep, stride, k + 1, g);
      HitsOfParts(RowsOf(src, v), AllRows(src, VisitsFrom(ep, index + stride, stride)), g);
      HitsOfRun(RowsOf(src, v), v.Frame(), 0, g);
    } else {
      NoVisits(src, ep, index, stride);
      NoHits(g);
    }
  }

  lemma NoHits(g: int)
    ensures Hits([], g) == 0
  {
  }

  /** Exact coverage: a pass over an episode hits target frame g once for every chunk between the two
      quotients. */
  lemma HitsExactly(src: Source, ep: Episode, stride: nat, g: nat)
    requires src.Valid() && stride > 0 && ep.start + g < ep.stop
    ensures Hits(AllRows(src, VisitsFrom(ep, ep.start, stride)), g)
            == g / stride + 1 - FirstChunk(g, src.chunk, stride)
  {
    hide AllRows, VisitsFrom, Hits, FirstChunk;
    HitsFromChunk(src, ep, stride, 0, g);
    FirstChunkBound(g, src.chunk, stride);
    assert ep.start + 0 * stride == ep.start;
  }

  lemma FirstChunkBound(g: nat, chunk: nat, stride: nat)
    requires stride > 0 && chunk > 0
    ensures FirstChunk(g, chunk, stride) <= g / stride + 1
  {
    hide CeilDiv;
    var q := g / stride;
    assert g < (q + 1) * stride;
    AtLeastCeiling(q + 1, if g + 1 >= chunk then g + 1 - chunk else 0, stride);
  }

  /** A frame is hit at all exactly when it is less than a chunk behind the last chunk start at or
      before it. */
  lemma HitExactlyWhen(src: Source, ep: Episode, stride: nat, g: nat)
    requires src.Valid() && stride > 0 && ep.start + g < ep.stop
    ensures Hits(AllRows(src, VisitsFrom(ep, ep.start, stride)), g) >= 1 <==> g % stride < src.chunk
  {
    hide AllRows, VisitsFrom, Hits, FirstChunk;
    HitsExactly(src, ep, stride, g);
    ReachesExactly(g / stride, g, src.chunk, stride);
    assert g == g / stride * stride + g % stride;
  }

  /** Every frame of an episode is hit exactly when the stride is at most the chunk, or the episode is
      no longer than one chunk. */
  lemma CoversExactlyWhen(src: Source, ep: Episode, stride: nat)
    requires src.Valid() && stride > 0 && ep.start < ep.stop
    ensures (forall g: nat :: ep.start + g < ep.stop ==> Hits(AllRows(src, VisitsFrom(ep, ep.start, stride)), g) >= 1)
            <==> stride <= src.chunk || ep.stop - ep.start <= src.chunk
  {
    hide AllRows, VisitsFrom, Hits;
    forall g: nat | ep.start + g < ep.stop
      ensures Hits(AllRows(src, VisitsFrom(ep, ep.start, stride)), g) >= 1 <==> g % stride < src.chunk
      ensures g % stride <= g && g % stride < stride
    {
      HitExactlyWhen(src, ep, stride, g);
      Remainder(g, stride);
    }
    if src.chunk < stride && src.chunk < ep.stop - ep.start {
      SmallRemainder(src.chunk, stride);
      HitExactlyWhen(src, ep, stride, src.chunk);
    }
  }

  lemma Remainder(g: nat, stride: nat)
    requires stride > 0
    ensures g % stride <= g && g % stride < stride
  {
    assert g == g / stride * stride + g % stride;
  }

  lemma SmallRemainder(g: nat, stride: nat)
    requires g < stride
    ensures g % stride == g
  {
  }
}
