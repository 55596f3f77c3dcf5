/** The future-offset error table (scripts/diagnose_smolvla_action_chunks.py:59-107): strided chunk
    starts, errors masked in place behind the end of an episode, the rows that are written out, and
    the means by offset. */
module ChunkErrors {
  import opened Wrappers
  import opened RealSums

  /** A cell is absent where the source holds a NaN. */
  type Cell = Option<real>

  type Matrix = seq<seq<Cell>>

  datatype Episode = Episode(id: int, start: nat, stop: nat)

  /** The policy and the data set as far as they are used: for each data set index the predicted chunk
      and the chunk of recorded actions. */
  datatype Source = Source(chunk: nat, joints: nat, predict: nat -> seq<Row>, truth: nat -> seq<Row>)
  {
    ghost predicate Valid() {
      && chunk > 0 && joints > 0
      && (forall i: nat :: |predict(i)| == |truth(i)| == chunk)
      && (forall i: nat :: Rect(predict(i), joints))
      && (forall i: nat :: Rect(truth(i), joints))
    }
  }

  /** One evaluated chunk. */
  datatype Visit = Visit(episode: Episode, index: nat)
  {
    function Frame(): int {
      index - episode.start
    }

    /** How many offsets of the chunk are inside the episode. */
    function Inside(chunk: nat): nat {
      if index >= episode.stop then 0
      else if episode.stop - index < chunk then episode.stop - index
      else chunk
    }
  }

  datatype OutRow = OutRow(episode: int, frame: int, offset: nat, gt: Row, pred: Row)

  // ---------------------------------------------------------------- what is computed

  /** range(index, stop, stride) */
  function VisitsFrom(ep: Episode, index: nat, stride: nat): seq<Visit>
    requires stride > 0
    decreases ep.stop - index
  {
    if index >= ep.stop then [] else [Visit(ep, index)] + VisitsFrom(ep, index + stride, stride)
  }

  function Visits(eps: seq<Episode>, stride: nat): seq<Visit>
    requires stride > 0
  {
    if eps == [] then []
    else Visits(eps[..|eps| - 1], stride) + VisitsFrom(eps[|eps| - 1], eps[|eps| - 1].start, stride)
  }

  function AbsDiff(pred: Row, gt: Row): Row
    requires |pred| == |gt|
  {
    seq(|pred|, j requires 0 <= j < |pred| => Abs(pred[j] - gt[j]))
  }

  function Present(row: Row): seq<Cell> {
    seq(|row|, j requires 0 <= j < |row| => Some(row[j]))
  }

  function Absent(width: nat): seq<Cell> {
    seq(width, j => None)
  }

  /** The error matrix of a chunk with everything from row "inside" on blanked out. */
  function Masked(pred: seq<Row>, gt: seq<Row>, inside: nat): Matrix
    requires |pred| == |gt| && forall o :: 0 <= o < |pred| ==> |pred[o]| == |gt[o]|
  {
    seq(|pred|, o requires 0 <= o < |pred| =>
      if o < inside then Present(AbsDiff(pred[o], gt[o])) else Absent(|pred[o]|))
  }

  function ErrorOf(src: Source, v: Visit): Matrix
    requires src.Valid()
  {
    Masked(src.predict(v.index), src.truth(v.index), v.Inside(src.chunk))
  }

  function RowsOf(src: Source, v: Visit): seq<OutRow>
    requires src.Valid()
  {
    var pred, gt := src.predict(v.index), src.truth(v.index);
    seq(v.Inside(src.chunk), o requires 0 <= o < v.Inside(src.chunk) =>
      OutRow(v.episode.id, v.Frame(), o, gt[o], pred[o]))
  }

  function ErrorsOf(src: Source, vs: seq<Visit>): seq<Matrix>
    requires src.Valid()
  {
    if vs == [] then [] else ErrorsOf(src, vs[..|vs| - 1]) + [ErrorOf(src, vs[|vs| - 1])]
  }

  function AllRows(src: Source, vs: seq<Visit>): seq<OutRow>
    requires src.Valid()
  {
    if vs == [] then [] else AllRows(src, vs[..|vs| - 1]) + RowsOf(src, vs[|vs| - 1])
  }

  predicate IsActive(v: Visit) {
    v.Frame() < 360
  }

  function ActiveOf(vs: seq<Visit>): seq<Visit> {
    if vs == [] then []
    else ActiveOf(vs[..|vs| - 1]) + if IsActive(vs[|vs| - 1]) then [vs[|vs| - 1]] else []
  }

  function Known(cells: seq<Cell>): seq<real> {
    if cells == [] then []
    else (match cells[0] case Some(x) => [x] case None => []) + Known(cells[1..])
  }

  /** np.nanmean of some cells: absent when none is present. */
  function NanMean(cells: seq<Cell>): Cell {
    if Known(cells) == [] then None else Some(Mean(Known(cells)))
  }

  /** The cells at one offset, over all chunks and joints. */
  function CellsAt(errors: seq<Matrix>, o: nat): seq<Cell>
    requires forall s :: 0 <= s < |errors| ==> o < |errors[s]|
  {
    if errors == [] then [] else errors[0][o] + CellsAt(errors[1..], o)
  }

  /** The cells of one joint at one offset, over all chunks. */
  function JointCellsAt(errors: seq<Matrix>, o: nat, j: nat): seq<Cell>
    requires forall s :: 0 <= s < |errors| ==> o < |errors[s]| && j < |errors[s][o]|
  {
    if errors == [] then [] else [errors[0][o][j]] + JointCellsAt(errors[1..], o, j)
  }

  ghost predicate Shaped(errors: seq<Matrix>, chunk: nat, joints: nat) {
    forall s :: 0 <= s < |errors| ==> |errors[s]| == chunk && forall o :: 0 <= o < chunk ==> |errors[s][o]| == joints
  }

  datatype Table = Table(visits: seq<Visit>, rows: seq<OutRow>, mae: seq<Cell>, activeMae: seq<Cell>,
                         perJoint: seq<seq<Cell>>)

  datatype Error = BadStride | NothingSampled

  // ---------------------------------------------------------------- the loops

  /** error[~valid] = nan */
  method MaskTail(error: array<seq<Cell>>, inside: nat, width: nat)
    modifies error
    ensures forall o :: 0 <= o < error.Length ==> error[o] == if o < inside then old(error[o]) else Absent(width)
  {
    for o := 0 to error.Length
      invariant forall p :: 0 <= p < error.Length ==>
                  error[p] == if p < o && p >= inside then Absent(width) else old(error[p])
    {
      if o >= inside {
        error[o] := Absent(width);
      }
    }
  }

  /** One chunk: its masked error matrix and its rows. */
  method EvaluateChunk(src: Source, v: Visit) returns (error: Matrix, rows: seq<OutRow>)
    requires src.Valid()
    ensures error == ErrorOf(src, v) && rows == RowsOf(src, v)
  {
    var pred, gt := src.predict(v.index), src.truth(v.index);
    var inside := v.Inside(src.chunk);
    var buffer := new seq<Cell>[src.chunk](o requires 0 <= o < |pred| => Present(AbsDiff(pred[o], gt[o])));
    MaskTail(buffer, inside, src.joints);
    error := buffer[..];
    rows := [];
    for o := 0 to inside
      invariant rows == RowsOf(src, v)[..o]
    {
      rows := rows + [OutRow(v.episode.id, v.Frame(), o, gt[o], pred[o])];
    }
  }

  method Diagnose(src: Source, eps: seq<Episode>, stride: int) returns (r: Result<Table, Error>)
    requires src.Valid()
    ensures stride < 1 ==> r == Failure(BadStride)
    ensures stride >= 1 && Visits(eps, stride) == [] ==> r == Failure(NothingSampled)
    ensures stride >= 1 && Visits(eps, stride) != [] ==> r.Success? && r.value == TableOf(src, Visits(eps, stride))
  {
    hide ErrorsOf, AllRows, ActiveOf, Visits, ErrorOf, RowsOf, MeansAt, JointMeansAt, Shaped, Source.Valid;
    if stride < 1 {
      return Failure(BadStride);
    }
    NothingVisited(src, stride);
    var errors: seq<Matrix>, active: seq<Matrix>, visits: seq<Visit>, rows: seq<OutRow> := [], [], [], [];
    for e := 0 to |eps|
      invariant visits == Visits(eps[..e], stride)
      invariant errors == ErrorsOf(src, visits) && active == ErrorsOf(src, ActiveOf(visits))
      invariant rows == AllRows(src, visits)
    {
      var index := eps[e].start;
      EpisodeAdded(eps, e, stride);
      while index < eps[e].stop
        invariant visits + VisitsFrom(eps[e], index, stride) == Visits(eps[..e + 1], stride)
        invariant errors == ErrorsOf(src, visits) && active == ErrorsOf(src, ActiveOf(visits))
        invariant rows == AllRows(src, visits)
      {
        var v := Visit(eps[e], index);
        var error, more := EvaluateChunk(src, v);
        VisitAdded(src, visits, v);
        errors := errors + [error];
        if index - eps[e].start < 360 {
          active := active + [error];
        }
        visits := visits + [v];
        rows := rows + more;
        index := index + stride;
      }
    }
    assert eps[..|eps|] == eps;
    ErrorsAreShaped(src, visits);
    ErrorsAreShaped(src, ActiveOf(visits));
    if errors == [] {
      return Failure(NothingSampled);
    }
    ShapedHeights(errors, src.chunk, src.joints);
    ShapedHeights(active, src.chunk, src.joints);
    r := Success(Table(visits, rows, MeansAt(errors, src.chunk), MeansAt(active, src.chunk),
                       JointMeansAt(errors, src.chunk, src.joints)));
  }

  function MeansAt(errors: seq<Matrix>, chunk: nat): seq<Cell>
    requires forall s :: 0 <= s < |errors| ==> |errors[s]| == chunk
  {
    seq(chunk, o requires 0 <= o < chunk => NanMean(CellsAt(errors, o)))
  }

  function JointMeansAt(errors: seq<Matrix>, chunk: nat, joints: nat): seq<seq<Cell>>
    requires Shaped(errors, chunk, joints)
  {
    seq(chunk, o requires 0 <= o < chunk =>
      seq(joints, j requires 0 <= j < joints => NanMean(JointCellsAt(errors, o, j))))
  }

  function TableOf(src: Source, vs: seq<Visit>): Table
    requires src.Valid()
  {
    ErrorsAreShaped(src, vs);
    ErrorsAreShaped(src, ActiveOf(vs));
    Table(vs, AllRows(src, vs), MeansAt(ErrorsOf(src, vs), src.chunk), MeansAt(ErrorsOf(src, ActiveOf(vs)), src.chunk),
          JointMeansAt(ErrorsOf(src, vs), src.chunk, src.joints))
  }

  lemma {:induction false} ErrorsAreShaped(src: Source, vs: seq<Visit>)
    requires src.Valid()
    ensures |ErrorsOf(src, vs)| == |vs| && Shaped(ErrorsOf(src, vs), src.chunk, src.joints)
  {
    if vs == [] {
    } else {
      ErrorsAreShaped(src, vs[..|vs| - 1]);
    }
  }

  lemma ShapedHeights(errors: seq<Matrix>, chunk: nat, joints: nat)
    requires Shaped(errors, chunk, joints)
    ensures forall s :: 0 <= s < |errors| ==> |errors[s]| == chunk
  {
  }

  lemma NothingVisited(src: Source, stride: nat)
    requires src.Valid() && stride > 0
    ensures Visits([], stride) == [] && ErrorsOf(src, []) == [] && AllRows(src, []) == [] && ActiveOf([]) == []
  {
  }

  lemma EpisodeAdded(eps: seq<Episode>, e: nat, stride: nat)
    requires e < |eps| && stride > 0
    ensures Visits(eps[..e + 1], stride) == Visits(eps[..e], stride) + VisitsFrom(eps[e], eps[e].start, stride)
  {
    assert eps[..e + 1][..e] == eps[..e];
  }

  lemma VisitAdded(src: Source, vs: seq<Visit>, v: Visit)
    requires src.Valid()
    ensures ErrorsOf(src, vs + [v]) == ErrorsOf(src, vs) + [ErrorOf(src, v)]
    ensures AllRows(src, vs + [v]) == AllRows(src, vs) + RowsOf(src, v)
    ensures ActiveOf(vs + [v]) == if IsActive(v) then ActiveOf(vs) + [v] else ActiveOf(vs)
    ensures ErrorsOf(src, ActiveOf(vs) + [v]) == ErrorsOf(src, ActiveOf(vs)) + [ErrorOf(src, v)]
  {
    assert (vs + [v])[..|vs|] == vs;
    assert (ActiveOf(vs) + [v])[..|ActiveOf(vs)|] == ActiveOf(vs);
  }

  /** Whenever a chunk is evaluated, one in the first 360 frames is: the second mean is defined too. */
  lemma {:induction false} SomeActive(eps: seq<Episode>, stride: nat)
    requires stride > 0 && Visits(eps, stride) != []
    ensures ActiveOf(Visits(eps, stride)) != []
  {
    hide IsActive, Visit.Frame;
    var n := |eps| - 1;
    var before, more := Visits(eps[..n], stride), VisitsFrom(eps[n], eps[n].start, stride);
    if before != [] {
      SomeActive(eps[..n], stride);
      ActiveOfParts(before, more);
    } else {
      assert before + more == [more[0]] + more[1..];
      ActiveOfParts([more[0]], more[1..]);
      FirstIsActive(eps[n], stride);
      assert [more[0]][..0] == [];
    }
  }

  lemma FirstIsActive(ep: Episode, stride: nat)
    requires stride > 0 && VisitsFrom(ep, ep.start, stride) != []
    ensures IsActive(VisitsFrom(ep, ep.start, stride)[0])
  {
  }

  lemma {:induction false} ActiveOfParts(a: seq<Visit>, b: seq<Visit>)
    ensures ActiveOf(a + b) == ActiveOf(a) + ActiveOf(b)
    decreases |b|
  {
    hide IsActive;
    if b == [] {
      assert a + b == a;
    } else {
      var n := |b| - 1;
      assert (a + b)[..|a + b| - 1] == a + b[..n];
      ActiveOfParts(a, b[..n]);
    }
  }
}
