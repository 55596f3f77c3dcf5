/** Sums and means of real numbers, and of the cells of a matrix by rows and by columns. */
module RealSums {
  type Row = seq<real>

  function Abs(x: real): real {
    if x < 0.0 then -x else x
  }

  function Sum(xs: seq<real>): real {
    if xs == [] then 0.0 else xs[0] + Sum(xs[1..])
  }

  function Mean(xs: seq<real>): real
    requires xs != []
  {
    Sum(xs) / |xs| as real
  }

  function AbsAll(xs: seq<real>): seq<real> {
    seq(|xs|, i requires 0 <= i < |xs| => Abs(xs[i]))
  }

  function Square(x: real): real {
    x * x
  }

  function SquareAll(xs: seq<real>): seq<real> {
    seq(|xs|, i requires 0 <= i < |xs| => Square(xs[i]))
  }

  function AbsRows(rows: seq<Row>): seq<Row> {
    seq(|rows|, i requires 0 <= i < |rows| => AbsAll(rows[i]))
  }

  function SquareRows(rows: seq<Row>): seq<Row> {
    seq(|rows|, i requires 0 <= i < |rows| => SquareAll(rows[i]))
  }

  predicate Rect(rows: seq<Row>, width: nat) {
    forall i :: 0 <= i < |rows| ==> |rows[i]| == width
  }

  /** All cells, row by row. */
  function Cells(rows: seq<Row>): seq<real> {
    if rows == [] then [] else rows[0] + Cells(rows[1..])
  }

  function Column(rows: seq<Row>, j: nat): seq<real>
    requires forall i :: 0 <= i < |rows| ==> j < |rows[i]|
  {
    seq(|rows|, i requires 0 <= i < |rows| => rows[i][j])
  }

  function ColumnMeans(rows: seq<Row>, width: nat): seq<real>
    requires rows != [] && Rect(rows, width)
  {
    seq(width, j requires 0 <= j < width => Mean(Column(rows, j)))
  }

  lemma {:induction false} SumParts(a: seq<real>, b: seq<real>)
    ensures Sum(a + b) == Sum(a) + Sum(b)
  {
    if a == [] {
      assert a + b == b;
    } else {
      assert (a + b)[1..] == a[1..] + b;
      SumParts(a[1..], b);
    }
  }

  lemma {:induction false} SumAtMost(a: seq<real>, b: seq<real>)
    requires |a| == |b| && forall i :: 0 <= i < |a| ==> a[i] <= b[i]
    ensures Sum(a) <= Sum(b)
  {
    if a == [] {
    } else {
      SumAtMost(a[1..], b[1..]);
    }
  }

  /** c is a + k*b, cell by cell. */
  lemma {:induction false} SumCombined(a: seq<real>, b: seq<real>, k: real, c: seq<real>)
    requires |a| == |b| == |c| && forall i :: 0 <= i < |a| ==> c[i] == a[i] + k * b[i]
    ensures Sum(c) == Sum(a) + k * Sum(b)
  {
    if a == [] {
    } else {
      SumCombined(a[1..], b[1..], k, c[1..]);
      assert k * Sum(b) == k * b[0] + k * Sum(b[1..]);
    }
  }

  lemma {:induction false} CellsParts(a: seq<Row>, b: seq<Row>)
    ensures Cells(a + b) == Cells(a) + Cells(b)
  {
    if a == [] {
      assert a + b == b;
    } else {
      assert (a + b)[1..] == a[1..] + b;
      CellsParts(a[1..], b);
    }
  }

  lemma {:induction false} CellCount(rows: seq<Row>, width: nat)
    requires Rect(rows, width)
    ensures |Cells(rows)| == |rows| * width
  {
    if rows == [] {
    } else {
      CellCount(rows[1..], width);
      assert |rows| * width == (|rows| - 1) * width + width;
    }
  }

  /** The sums of the columns. */
  function ColumnSums(rows: seq<Row>, width: nat): seq<real>
    requires Rect(rows, width)
  {
    seq(width, j requires 0 <= j < width => Sum(Column(rows, j)))
  }

  lemma {:induction false} SumOfZeros(xs: seq<real>)
    requires forall i :: 0 <= i < |xs| ==> xs[i] == 0.0
    ensures Sum(xs) == 0.0
  {
    if xs == [] {
    } else {
      SumOfZeros(xs[1..]);
    }
  }

  lemma ColumnOfRest(rows: seq<Row>, width: nat, j: nat)
    requires rows != [] && Rect(rows, width) && j < width
    ensures Sum(Column(rows, j)) == rows[0][j] + Sum(Column(rows[1..], j))
  {
    assert Column(rows, j)[1..] == Column(rows[1..], j);
  }

  /** Summing by rows and summing by columns agree. */
  lemma {:induction false} SumByColumns(rows: seq<Row>, width: nat)
    requires Rect(rows, width)
    ensures Sum(Cells(rows)) == Sum(ColumnSums(rows, width))
  {
    hide Column;
    if rows == [] {
      NoRows(width);
      SumOfZeros(ColumnSums(rows, width));
    } else {
      SumByColumns(rows[1..], width);
      SumParts(rows[0], Cells(rows[1..]));
      forall j | 0 <= j < width
        ensures ColumnSums(rows, width)[j] == rows[0][j] + 1.0 * ColumnSums(rows[1..], width)[j]
      {
        ColumnOfRest(rows, width, j);
      }
      SumCombined(rows[0], ColumnSums(rows[1..], width), 1.0, ColumnSums(rows, width));
    }
  }

  lemma NoRows(width: nat)
    ensures forall j :: 0 <= j < width ==> ColumnSums([], width)[j] == 0.0
  {
    assert forall j: nat :: Column([], j) == [];
  }

  /** The mean of all cells is the mean of the column means. */
  lemma MeanByColumns(rows: seq<Row>, width: nat)
    requires rows != [] && width > 0 && Rect(rows, width)
    ensures Cells(rows) != [] && Mean(Cells(rows)) == Mean(ColumnMeans(rows, width))
  {
    hide Cells, Sum;
    CellCount(rows, width);
    SumByColumns(rows, width);
    var sums, means, n := ColumnSums(rows, width), ColumnMeans(rows, width), |rows| as real;
    var zeros := seq(width, j => 0.0);
    SumOfZeros(zeros);
    forall j | 0 <= j < width
      ensures sums[j] == zeros[j] + n * means[j]
    {
      assert means[j] == sums[j] / n;
      Undivide(sums[j], n);
    }
    SumCombined(zeros, means, n, sums);
    assert |Cells(rows)| as real == n * width as real;
    DivideTwice(Sum(means), n, width as real);
  }

  lemma Undivide(x: real, n: real)
    requires n > 0.0
    ensures n * (x / n) == x
  {
  }

  lemma MeanTimes(xs: seq<real>, n: real)
    requires xs != [] && n == |xs| as real
    ensures n * Mean(xs) == Sum(xs)
  {
    Undivide(Sum(xs), n);
  }

  lemma DivideTwice(x: real, n: real, w: real)
    requires n > 0.0 && w > 0.0
    ensures n * w > 0.0 && n * x / (n * w) == x / w
  {
    assert n * w > 0.0;
    assert x / w * (n * w) == x / w * w * n;
    assert x / w * w == x;
  }

  /** The square of s is at most n times q; the sum of no terms is zero. */
  ghost predicate SquareBound(n: real, s: real, q: real) {
    q >= 0.0 && s * s <= n * q && (n == 0.0 ==> s == 0.0 && q == 0.0)
  }

  /** The square of a sum of n terms is at most n times the sum of their squares. */
  lemma {:induction false} SquareOfSum(xs: seq<real>)
    ensures SquareBound(|xs| as real, Sum(xs), Sum(SquareAll(xs)))
  {
    if xs == [] {
    } else {
      hide Square, SquareBound;
      SquareOfSum(xs[1..]);
      assert SquareAll(xs)[1..] == SquareAll(xs[1..]);
      SquareStep((|xs| - 1) as real, Sum(xs[1..]), Sum(SquareAll(xs[1..])), xs[0]);
      assert |xs| as real == (|xs| - 1) as real + 1.0;
    }
  }

  lemma SquareStep(n: real, s: real, q: real, x: real)
    requires n >= 0.0 && SquareBound(n, s, q)
    ensures SquareBound(n + 1.0, x + s, Square(x) + q)
  {
    if n == 0.0 {
      SquareOfFirst(n, s, q, x);
    } else {
      assert x * x >= 0.0;
      CrossTerm(n, s, q, x);
      assert (x + s) * (x + s) == s * s + 2.0 * (s * x) + x * x;
      assert (n + 1.0) * (x * x + q) == n * q + n * (x * x) + q + x * x;
    }
  }

  lemma SquareOfFirst(n: real, s: real, q: real, x: real)
    requires n == 0.0 && SquareBound(n, s, q)
    ensures SquareBound(n + 1.0, x + s, Square(x) + q)
  {
    SquareIsNotNegative(x);
  }

  lemma SquareIsNotNegative(x: real)
    ensures x * x >= 0.0
  {
  }

  lemma CrossTerm(n: real, s: real, q: real, x: real)
    requires n > 0.0 && s * s <= n * q
    ensures 2.0 * (s * x) <= q + n * (x * x)
  {
    var y := n * x;
    SquareIsNotNegative(s - y);
    assert (s - y) * (s - y) == s * s - 2.0 * (s * y) + y * y;
    assert s * y == n * (s * x) && y * y == n * (n * (x * x));
    assert n * (2.0 * (s * x)) <= n * (q + n * (x * x));
  }

  lemma {:induction false} SumBounded(xs: seq<real>, top: real)
    requires forall i :: 0 <= i < |xs| ==> xs[i] <= top
    ensures Sum(xs) <= |xs| as real * top
  {
    if xs == [] {
    } else {
      SumBounded(xs[1..], top);
      assert |xs| as real * top == (|xs| - 1) as real * top + top by {
        assert |xs| as real == (|xs| - 1) as real + 1.0;
      }
    }
  }
}
