/** What the error table covers and why its two outputs agree
    (scripts/diagnose_smolvla_action_chunks.py:60-107). */
module ChunkFacts {
  import opened Wrappers
  import opened RealSums
  import opened ChunkErrors

  // ---------------------------------------------------------------- the two outputs agree

  /** Prediction and truth of every row have the same joints. */
  ghost predicate SameJoints(rows: seq<OutRow>) {
    forall i :: 0 <= i < |rows| ==> |rows[i].pred| == |rows[i].gt|
  }

  lemma SameJointsOfParts(a: seq<OutRow>, b: seq<OutRow>)
    requires SameJoints(a) && SameJoints(b)
    ensures SameJoints(a + b)
    ensures a != [] ==> SameJoints(a[1..])
  {
  }

  /** |pred - gt| of the rows written out for one offset. */
  function RowErrors(rows: seq<OutRow>, o: nat): seq<Row>
    requires SameJoints(rows)
  {
    if rows == [] then []
    else (if rows[0].offset == o then [AbsDiff(rows[0].pred, rows[0].gt)] else []) + RowErrors(rows[1..], o)
  }

  lemma {:induction false} RowErrorsOfParts(a: seq<OutRow>, b: seq<OutRow>, o: nat)
    requires SameJoints(a)
    requires SameJoints(b)
    ensures SameJoints(a + b)
    ensures RowErrors(a + b, o) == RowErrors(a, o) + RowErrors(b, o)
  {
    hide AbsDiff, SameJoints;
    SameJointsOfParts(a, b);
    if a == [] {
      assert a + b == b;
    } else {
      assert (a + b)[1..] == a[1..] + b;
      RowErrorsOfParts(a[1..], b, o);
    }
  }

  /** The rows of a list that have consecutive offsets from "first" on hold offset o at most once. */
  lemma {:induction false} RowErrorsOfRun(rows: seq<OutRow>, first: nat, o: nat)
    requires forall i :: 0 <= i < |rows| ==> |rows[i].pred| == |rows[i].gt| && rows[i].offset == first + i
    ensures RowErrors(rows, o)
            == if first <= o < first + |rows| then [AbsDiff(rows[o - first].pred, rows[o - first].gt)] else []
  {
    hide AbsDiff;
    if rows == [] {
    } else {
      RowErrorsOfRun(rows[1..], first + 1, o);
    }
  }

  lemma {:induction false} RowsAreAligned(src: Source, vs: seq<Visit>)
    requires src.Valid()
    ensures forall i :: 0 <= i < |AllRows(src, vs)| ==>
              |AllRows(src, vs)[i].pred| == |AllRows(src, vs)[i].gt| == src.joints
  {
    if vs == [] {
    } else {
      RowsAreAligned(src, vs[..|vs| - 1]);
    }
  }

  /** The error row of a visit at an offset inside its episode. */
  function DiffAt(src: Source, v: Visit, o: nat): Row
    requires src.Valid() && o < src.chunk
  {
    AbsDiff(src.predict(v.index)[o], src.truth(v.index)[o])
  }

  lemma RowErrorsOfVisit(src: Source, v: Visit, o: nat)
    requires src.Valid() && o < src.chunk
    ensures SameJoints(RowsOf(src, v))
    ensures RowErrors(RowsOf(src, v), o) == if o < v.Inside(src.chunk) then [DiffAt(src, v, o)] else []
    ensures |DiffAt(src, v, o)| == src.joints
  {
    hide RowErrors;
    RowErrorsOfRun(RowsOf(src, v), 0, o);
  }

  lemma {:induction false} KnownOfParts(a: seq<Cell>, b: seq<Cell>)
    ensures Known(a + b) == Known(a) + Known(b)
  {
    if a == [] {
      assert a + b == b;
    } else {
      assert (a + b)[1..] == a[1..] + b;
      KnownOfParts(a[1..], b);
    }
  }

  lemma {:induction false} KnownOfPresent(row: Row)
    ensures Known(Present(row)) == row
  {
    if row == [] {
    } else {
      assert Present(row)[1..] == Present(row[1..]);
      KnownOfPresent(row[1..]);
    }
  }

  lemma {:induction false} KnownOfAbsent(width: nat)
    ensures Known(Absent(width)) == []
  {
    if width == 0 {
    } else {
      assert Absent(width)[1..] == Absent(width - 1);
      KnownOfAbsent(width - 1);
    }
  }

  lemma {:induction false} CellsAtLast(errors: seq<Matrix>, more: Matrix, o: nat)
    requires o < |more| && forall s :: 0 <= s < |errors| ==> o < |errors[s]|
    ensures CellsAt(errors + [more], o) == CellsAt(errors, o) + more[o]
  {
    if errors == [] {
      assert [more][1..] == [];
    } else {
      assert (errors + [more])[1..] == errors[1..] + [more];
      CellsAtLast(errors[1..], more, o);
    }
  }

  lemma {:induction false} JointCellsAtLast(errors: seq<Matrix>, more: Matrix, o: nat, j: nat)
    requires o < |more| && j < |more[o]|
    requires forall s :: 0 <= s < |errors| ==> o < |errors[s]| && j < |errors[s][o]|
    ensures JointCellsAt(errors + [more], o, j) == JointCellsAt(errors, o, j) + [more[o][j]]
  {
    if errors == [] {
      assert [more][1..] == [];
    } else {
      assert (errors + [more])[1..] == errors[1..] + [more];
      JointCellsAtLast(errors[1..], more, o, j);
    }
  }

  lemma CellsOfLast(rows: seq<Row>, row: Row)
    ensures Cells(rows + [row]) == Cells(rows) + row
  {
    CellsParts(rows, [row]);
    assert Cells([row]) == row + Cells([row][1..]) == row;
  }

  lemma KnownOfVisit(src: Source, v: Visit, o: nat)
    requires src.Valid() && o < src.chunk
    ensures |ErrorOf(src, v)| == src.chunk && |ErrorOf(src, v)[o]| == src.joints
    ensures Known(ErrorOf(src, v)[o]) == if o < v.Inside(src.chunk) then DiffAt(src, v, o) else []
  {
    hide Known;
    KnownOfPresent(DiffAt(src, v, o));
    KnownOfAbsent(src.joints);
  }

  lemma Shapes(src: Source, vs: seq<Visit>, o: nat)
    requires src.Valid() && o < src.chunk
    ensures forall s :: 0 <= s < |ErrorsOf(src, vs)| ==>
              o < |ErrorsOf(src, vs)[s]| && |ErrorsOf(src, vs)[s][o]| == src.joints
  {
    ErrorsAreShaped(src, vs);
  }

  /** The cells the means see at an offset are exactly the errors of the rows written for it. */
  lemma {:induction false} CellsAreRowErrors(src: Source, vs: seq<Visit>, o: nat)
    requires src.Valid() && o < src.chunk
    ensures SameJoints(AllRows(src, vs))
    ensures forall s :: 0 <= s < |ErrorsOf(src, vs)| ==> o < |ErrorsOf(src, vs)[s]|
    ensures Known(CellsAt(ErrorsOf(src, vs), o)) == Cells(RowErrors(AllRows(src, vs), o))
    ensures Rect(RowErrors(AllRows(src, vs), o), src.joints)
    decreases |vs|
  {
    hide ErrorOf, RowsOf, RowErrors, Known, CellsAt, Source.Valid, Cells;
    RowsAreAligned(src, vs);
    Shapes(src, vs, o);
    if vs == [] {
      NothingAt(o);
    } else {
      var n := |vs| - 1;
      var v := vs[n];
      CellsAreRowErrors(src, vs[..n], o);
      Shapes(src, vs[..n], o);
      KnownOfVisit(src, v, o);
      CellsAtLast(ErrorsOf(src, vs[..n]), ErrorOf(src, v), o);
      KnownOfParts(CellsAt(ErrorsOf(src, vs[..n]), o), ErrorOf(src, v)[o]);
      RowErrorsOfVisit(src, v, o);
      RowErrorsOfParts(AllRows(src, vs[..n]), RowsOf(src, v), o);
      var es, cells := RowErrors(AllRows(src, vs[..n]), o), Known(CellsAt(ErrorsOf(src, vs[..n]), o));
      CellsOfLast(es, DiffAt(src, v, o));
      assert es + [] == es && cells + [] == cells;
    }
  }

  lemma NothingAt(o: nat)
    ensures Known(CellsAt([], o)) == [] && Cells(RowErrors([], o)) == [] && RowErrors([], o) == []
    ensures forall j :: Known(JointCellsAt([], o, j)) == []
  {
  }

  lemma {:induction false} JointCellsAreColumns(src: Source, vs: seq<Visit>, o: nat, j: nat)
    requires src.Valid() && o < src.chunk && j < src.joints
    ensures SameJoints(AllRows(src, vs))
    ensures forall s :: 0 <= s < |ErrorsOf(src, vs)| ==>
              o < |ErrorsOf(src, vs)[s]| && j < |ErrorsOf(src, vs)[s][o]|
    ensures Rect(RowErrors(AllRows(src, vs), o), src.joints)
    ensures Known(JointCellsAt(ErrorsOf(src, vs), o, j)) == Column(RowErrors(AllRows(src, vs), o), j)
    decreases |vs|
  {
    hide ErrorOf, RowsOf, RowErrors, Known, JointCellsAt, Source.Valid, Cells, CellsAt;
    CellsAreRowErrors(src, vs, o);
    Shapes(src, vs, o);
    if vs == [] {
      NothingAt(o);
    } else {
      var n := |vs| - 1;
      var v := vs[n];
      JointCellsAreColumns(src, vs[..n], o, j);
      JointCellOfVisit(src, v, o, j);
      JointCellsAtLast(ErrorsOf(src, vs[..n]), ErrorOf(src, v), o, j);
      KnownOfParts(JointCellsAt(ErrorsOf(src, vs[..n]), o, j), [ErrorOf(src, v)[o][j]]);
      RowErrorsOfVisit(src, v, o);
      RowErrorsOfParts(AllRows(src, vs[..n]), RowsOf(src, v), o);
    }
  }

  lemma JointCellOfVisit(src: Source, v: Visit, o: nat, j: nat)
    requires src.Valid() && o < src.chunk && j < src.joints
    ensures |ErrorOf(src, v)| == src.chunk && |ErrorOf(src, v)[o]| == src.joints
    ensures Known([ErrorOf(src, v)[o][j]]) == if o < v.Inside(src.chunk) then [DiffAt(src, v, o)[j]] else []
  {
    assert [ErrorOf(src, v)[o][j]][1..] == [];
  }

  /** The two outputs agree: wherever the table has a row for an offset, the reported mean is the mean
      of |pred - gt| recomputed from the rows, and also the mean of the reported joint means; where it
      has none, nothing is reported. */
  lemma OutputsAgree(src: Source, vs: seq<Visit>, o: nat)
    requires src.Valid() && o < src.chunk
    ensures SameJoints(AllRows(src, vs))
    ensures var t, es := TableOf(src, vs), RowErrors(AllRows(src, vs), o);
            && |t.mae| == |t.perJoint| == src.chunk && |t.perJoint[o]| == src.joints
            && (es == [] ==> t.mae[o] == None && forall j :: 0 <= j < src.joints ==> t.perJoint[o][j] == None)
            && (es != [] ==> && Cells(es) != [] && Rect(es, src.joints)
                             && t.mae[o] == Some(Mean(Cells(es)))
                             && t.mae[o] == Some(Mean(ColumnMeans(es, src.joints)))
                             && forall j :: 0 <= j < src.joints ==> t.perJoint[o][j] == Some(ColumnMeans(es, src.joints)[j]))
  {
    hide AllRows, ErrorsOf, RowErrors, Known, CellsAt, JointCellsAt, Cells, Mean;
    ErrorsAreShaped(src, vs);
    CellsAreRowErrors(src, vs, o);
    var es := RowErrors(AllRows(src, vs), o);
    CellCount(es, src.joints);
    forall j | 0 <= j < src.joints
      ensures Known(JointCellsAt(ErrorsOf(src, vs), o, j)) == Column(es, j)
    {
      JointCellsAreColumns(src, vs, o, j);
    }
    if es != [] {
      MeanByColumns(es, src.joints);
    } else {
      NothingAt(o);
    }
  }

  /** The number of valid samples never grows with the offset. */
  lemma {:induction false} CountNeverGrows(src: Source, vs: seq<Visit>, o: nat)
    requires src.Valid() && o + 1 < src.chunk
    ensures SameJoints(AllRows(src, vs))
    ensures |RowErrors(AllRows(src, vs), o + 1)| <= |RowErrors(AllRows(src, vs), o)|
    decreases |vs|
  {
    hide RowsOf, RowErrors, Source.Valid;
    RowsAreAligned(src, vs);
    if vs == [] {
      NothingAt(o);
      NothingAt(o + 1);
    } else {
      var n := |vs| - 1;
      CountNeverGrows(src, vs[..n], o);
      RowErrorsOfVisit(src, vs[n], o);
      RowErrorsOfVisit(src, vs[n], o + 1);
      RowErrorsOfParts(AllRows(src, vs[..n]), RowsOf(src, vs[n]), o);
      RowErrorsOfParts(AllRows(src, vs[..n]), RowsOf(src, vs[n]), o + 1);
    }
  }

  /** The rows of the chunks that start in the first 360 frames. */
  function EarlyRows(rows: seq<OutRow>): seq<OutRow> {
    if rows == [] then [] else (if rows[0].frame < 360 then [rows[0]] else []) + EarlyRows(rows[1..])
  }

  lemma {:induction false} EarlyRowsOfParts(a: seq<OutRow>, b: seq<OutRow>)
    ensures EarlyRows(a + b) == EarlyRows(a) + EarlyRows(b)
  {
    if a == [] {
      assert a + b == b;
    } else {
      assert (a + b)[1..] == a[1..] + b;
      EarlyRowsOfParts(a[1..], b);
    }
  }

  lemma {:induction false} EarlyRowsOfRun(rows: seq<OutRow>, frame: int)
    requires forall i :: 0 <= i < |rows| ==> rows[i].frame == frame
    ensures EarlyRows(rows) == if frame < 360 then rows else []
  {
    if rows == [] {
    } else {
      EarlyRowsOfRun(rows[1..], frame);
    }
  }

  lemma {:induction false} ActiveRows(src: Source, vs: seq<Visit>)
    requires src.Valid()
    ensures AllRows(src, ActiveOf(vs)) == EarlyRows(AllRows(src, vs))
  {
    hide RowsOf, EarlyRows, Source.Valid;
    if vs == [] {
      assert EarlyRows([]) == [] by {
        EarlyRowsOfRun([], 0);
      }
    } else {
      var n := |vs| - 1;
      var v := vs[n];
      ActiveRows(src, vs[..n]);
      EarlyRowsOfParts(AllRows(src, vs[..n]), RowsOf(src, v));
      VisitRowsAreEarly(src, v);
      VisitAdded(src, ActiveOf(vs[..n]), v);
      assert ActiveOf(vs[..n]) + [] == ActiveOf(vs[..n]);
      assert EarlyRows(AllRows(src, vs[..n])) + [] == EarlyRows(AllRows(src, vs[..n]));
    }
  }

  lemma VisitRowsAreEarly(src: Source, v: Visit)
    requires src.Valid()
    ensures EarlyRows(RowsOf(src, v)) == if IsActive(v) then RowsOf(src, v) else []
  {
    hide EarlyRows;
    EarlyRowsOfRun(RowsOf(src, v), v.Frame());
  }

  /** The second mean is the mean of |pred - gt| over the rows at that offset whose chunk starts in the
      first 360 frames. */
  lemma ActiveMeanAgrees(src: Source, vs: seq<Visit>, o: nat)
    requires src.Valid() && o < src.chunk
    ensures SameJoints(EarlyRows(AllRows(src, vs)))
    ensures var t, es := TableOf(src, vs), RowErrors(EarlyRows(AllRows(src, vs)), o);
            && |t.activeMae| == src.chunk
            && t.activeMae[o] == if Cells(es) == [] then None else Some(Mean(Cells(es)))
  {
    hide AllRows, ErrorsOf, RowErrors, Known, CellsAt, JointCellsAt, Cells, Mean, EarlyRows, ActiveOf;
    ErrorsAreShaped(src, ActiveOf(vs));
    CellsAreRowErrors(src, ActiveOf(vs), o);
    ActiveRows(src, vs);
  }
}
