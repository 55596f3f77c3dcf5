/** The means of the future-offset table, read off the rows that are written out
    (scripts/diagnose_smolvla_action_chunks.py:80-106). */
module ChunkMeans {
  import opened Wrappers
  import opened RealSums
  import opened ChunkErrors
  import opened ChunkFacts

  /** How far the prediction of a row is off, over its joints. */
  function Distance(pred: Row, gt: Row): real
    requires |pred| == |gt|
  {
    if pred == [] then 0.0
    else (if pred[0] >= gt[0] then pred[0] - gt[0] else gt[0] - pred[0]) + Distance(pred[1..], gt[1..])
  }

  /** How many rows there are for an offset. */
  function RowCount(rows: seq<OutRow>, o: nat): nat {
    if rows == [] then 0 else (if rows[0].offset == o then 1 else 0) + RowCount(rows[1..], o)
  }

  /** The distances of the rows for an offset, over all joints. */
  function OffsetTotal(rows: seq<OutRow>, o: nat): real
    requires SameJoints(rows)
  {
    if rows == [] then 0.0
    else (if rows[0].offset == o then Distance(rows[0].pred, rows[0].gt) else 0.0) + OffsetTotal(rows[1..], o)
  }

  /** The distances of the rows for an offset, in one joint. */
  function JointTotal(rows: seq<OutRow>, o: nat, j: nat): real
    requires forall i :: 0 <= i < |rows| ==> j < |rows[i].pred| == |rows[i].gt|
  {
    if rows == [] then 0.0
    else (if rows[0].offset != o then 0.0
          else if rows[0].pred[j] >= rows[0].gt[j] then rows[0].pred[j] - rows[0].gt[j]
          else rows[0].gt[j] - rows[0].pred[j]) + JointTotal(rows[1..], o, j)
  }

  lemma {:induction false} SumOfDifferences(pred: Row, gt: Row)
    requires |pred| == |gt|
    ensures Sum(AbsDiff(pred, gt)) == Distance(pred, gt)
  {
    if pred == [] {
      assert AbsDiff(pred, gt) == [];
    } else {
      SumOfDifferences(pred[1..], gt[1..]);
      assert AbsDiff(pred, gt)[1..] == AbsDiff(pred[1..], gt[1..]);
    }
  }

  lemma CellsFirst(row: Row, rows: seq<Row>)
    ensures Cells([row] + rows) == row + Cells(rows)
  {
    assert ([row] + rows)[1..] == rows;
  }

  lemma {:induction false} SumOfOffset(rows: seq<OutRow>, o: nat)
    requires SameJoints(rows)
    ensures Sum(Cells(RowErrors(rows, o))) == OffsetTotal(rows, o)
    ensures |RowErrors(rows, o)| == RowCount(rows, o)
  {
    hide Sum, Cells, AbsDiff, Distance;
    if rows == [] {
      EmptySums();
    } else {
      var rest := rows[1..];
      SumOfOffset(rest, o);
      if rows[0].offset == o {
        var diff := AbsDiff(rows[0].pred, rows[0].gt);
        CellsFirst(diff, RowErrors(rest, o));
        SumParts(diff, Cells(RowErrors(rest, o)));
        SumOfDifferences(rows[0].pred, rows[0].gt);
      } else {
        assert [] + RowErrors(rest, o) == RowErrors(rest, o);
      }
    }
  }

  lemma EmptySums()
    ensures Sum([]) == 0.0 && Cells([]) == []
  {
  }

  lemma ColumnFirst(row: Row, rows: seq<Row>, j: nat)
    requires j < |row| && forall i :: 0 <= i < |rows| ==> j < |rows[i]|
    ensures Sum(Column([row] + rows, j)) == row[j] + Sum(Column(rows, j))
  {
    assert Column([row] + rows, j)[1..] == Column(rows, j);
  }

  lemma {:induction false} SumOfJoint(rows: seq<OutRow>, o: nat, j: nat)
    requires forall i :: 0 <= i < |rows| ==> j < |rows[i].pred| == |rows[i].gt|
    ensures forall i :: 0 <= i < |RowErrors(rows, o)| ==> j < |RowErrors(rows, o)[i]|
    ensures Sum(Column(RowErrors(rows, o), j)) == JointTotal(rows, o, j)
  {
    hide Sum, Column;
    if rows == [] {
      EmptyColumn(j);
    } else {
      var rest := rows[1..];
      SumOfJoint(rest, o, j);
      if rows[0].offset == o {
        ColumnFirst(AbsDiff(rows[0].pred, rows[0].gt), RowErrors(rest, o), j);
      } else {
        assert [] + RowErrors(rest, o) == RowErrors(rest, o);
      }
    }
  }

  lemma EmptyColumn(j: nat)
    ensures Sum(Column([], j)) == 0.0
  {
    assert Column([], j) == [];
  }

  lemma CellsOfOffset(rows: seq<OutRow>, o: nat, joints: nat)
    requires joints > 0 && SameJoints(rows) && Rect(RowErrors(rows, o), joints)
    ensures var n, cells := RowCount(rows, o), Cells(RowErrors(rows, o));
            && |cells| == n * joints
            && (cells == [] <==> n == 0)
            && (cells != [] ==> (n * joints) as real * Mean(cells) == OffsetTotal(rows, o))
  {
    hide Cells, Mean, Sum, RowErrors, RowCount, OffsetTotal;
    SumOfOffset(rows, o);
    CellCount(RowErrors(rows, o), joints);
    var cells := Cells(RowErrors(rows, o));
    NoProduct(RowCount(rows, o), joints);
    if cells != [] {
      MeanTimes(cells, |cells| as real);
    }
  }

  lemma NoProduct(n: nat, m: nat)
    requires m > 0
    ensures n * m == 0 <==> n == 0
  {
  }

  /** Every reported mean, times the number of cells it is taken over, is the sum of |pred - gt| over the
      rows of its offset, as they are written out; it is absent exactly when there are none. */
  lemma OffsetMeans(src: Source, vs: seq<Visit>, o: nat)
    requires src.Valid() && o < src.chunk
    ensures var t, rows := TableOf(src, vs), AllRows(src, vs);
            var n := RowCount(rows, o);
            && t.rows == rows && SameJoints(rows) && |t.mae| == src.chunk
            && (t.mae[o] == None <==> n == 0)
            && (n > 0 ==> (n * src.joints) as real * t.mae[o].value == OffsetTotal(rows, o))
  {
    hide AllRows, Cells, RowErrors, Mean, ColumnMeans, RowCount, OffsetTotal, CellsAt, JointMeansAt, Known;
    OutputsAgree(src, vs, o);
    CellsAreRowErrors(src, vs, o);
    CellsOfOffset(AllRows(src, vs), o, src.joints);
    NoErrors(AllRows(src, vs), o);
  }

  lemma NoErrors(rows: seq<OutRow>, o: nat)
    requires SameJoints(rows)
    ensures RowErrors(rows, o) == [] <==> RowCount(rows, o) == 0
  {
    SumOfOffset(rows, o);
  }

  /** The same in every joint. */
  lemma JointOffsetMeans(src: Source, vs: seq<Visit>, o: nat, j: nat)
    requires src.Valid() && o < src.chunk && j < src.joints
    ensures var t, rows := TableOf(src, vs), AllRows(src, vs);
            var n := RowCount(rows, o);
            && (forall i :: 0 <= i < |rows| ==> j < |rows[i].pred| == |rows[i].gt|)
            && |t.perJoint| == src.chunk && |t.perJoint[o]| == src.joints
            && (t.perJoint[o][j] == None <==> n == 0)
            && (n > 0 ==> n as real * t.perJoint[o][j].value == JointTotal(rows, o, j))
  {
    hide AllRows, Cells, RowErrors, Mean, RowCount, JointTotal, Sum, CellsAt, Known, MeansAt;
    var rows := AllRows(src, vs);
    RowsAreAligned(src, vs);
    OutputsAgree(src, vs, o);
    NoErrors(rows, o);
    SumOfOffset(rows, o);
    SumOfJoint(rows, o, j);
    if RowErrors(rows, o) != [] {
      MeanTimes(Column(RowErrors(rows, o), j), RowCount(rows, o) as real);
    }
  }

  /** And the second mean is that of the rows whose chunk starts in the first 360 frames. */
  lemma EarlyOffsetMeans(src: Source, vs: seq<Visit>, o: nat)
    requires src.Valid() && o < src.chunk
    ensures var t, rows := TableOf(src, vs), EarlyRows(AllRows(src, vs));
            var n := RowCount(rows, o);
            && SameJoints(rows) && |t.activeMae| == src.chunk
            && (t.activeMae[o] == None <==> n == 0)
            && (n > 0 ==> (n * src.joints) as real * t.activeMae[o].value == OffsetTotal(rows, o))
  {
    hide AllRows, Cells, RowErrors, Mean, RowCount, OffsetTotal, CellsAt, JointMeansAt, MeansAt, Known, EarlyRows;
    ActiveMeanAgrees(src, vs, o);
    ActiveRows(src, vs);
    CellsAreRowErrors(src, ActiveOf(vs), o);
    CellsOfOffset(EarlyRows(AllRows(src, vs)), o, src.joints);
  }
}
