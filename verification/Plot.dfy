/** Where draw_series puts its points (scripts/evaluate_smolvla_open_loop_video.py:107-128). */
module Plot {
  import opened Wrappers
  import opened Rounding

  function Clip01(x: real): real {
    if x < 0.0 then 0.0 else if x > 1.0 then 1.0 else x
  }

  datatype Box = Box(x: int, y: int, width: int, height: int)

  datatype Point = Point(x: int, y: int)

  datatype Error = DivisionByZero

  function Denominator(total: int): (d: int)
    ensures d >= 1
  {
    if total - 1 < 1 then 1 else total - 1
  }

  function Across(width: int, total: int, index: nat): real {
    ((width - 1) * index) as real / Denominator(total) as real
  }

  function Up(height: int, low: real, high: real, value: real): real
    requires low != high
  {
    (height - 1) as real * Clip01((value - low) / (high - low))
  }

  function PointOf(box: Box, low: real, high: real, total: int, index: nat, value: real): Point
    requires low != high
  {
    Point(box.x + Round(Across(box.width, total, index)),
          box.y + box.height - 1 - Round(Up(box.height, low, high, value)))
  }

  method DrawSeries(values: seq<real>, box: Box, low: real, high: real, total: int)
    returns (r: Result<seq<Point>, Error>)
    ensures values != [] && low == high ==> r == Failure(DivisionByZero)
    ensures values == [] || low != high ==> r.Success? && |r.value| == |values|
    ensures low != high ==> forall i :: 0 <= i < |values| ==> r.value[i] == PointOf(box, low, high, total, i, values[i])
  {
    hide Round, Up, Across;
    if values == [] {
      return Success([]);
    }
    if low == high {
      return Failure(DivisionByZero);
    }
    var points: seq<Point> := [];
    for index := 0 to |values|
      invariant |points| == index
      invariant forall i :: 0 <= i < index ==> points[i] == PointOf(box, low, high, total, i, values[i])
    {
      var x := box.x + Round(Across(box.width, total, index));
      var y := box.y + box.height - 1 - Round(Up(box.height, low, high, values[index]));
      points := points + [Point(x, y)];
    }
    return Success(points);
  }

  // ---------------------------------------------------------------- placement

  lemma QuotientAtMost(a: int, b: int, d: int)
    requires a <= b && d > 0
    ensures a as real / d as real <= b as real / d as real
  {
    assert (b as real - a as real) / d as real >= 0.0;
    assert b as real / d as real - a as real / d as real == (b as real - a as real) / d as real;
  }

  lemma QuotientOfMultiple(a: int, d: int)
    requires d > 0
    ensures (a * d) as real / d as real == a as real
  {
  }

  lemma ProductBounds(w: nat, i: nat, d: nat)
    requires i <= d
    ensures 0 <= w * i <= w * d
  {
  }

  lemma AcrossBounds(width: int, total: int, index: nat)
    requires width >= 1 && index <= Denominator(total)
    ensures 0.0 <= Across(width, total, index) <= (width - 1) as real
  {
    var d := Denominator(total);
    ProductBounds(width - 1, index, d);
    QuotientAtMost((width - 1) * index, (width - 1) * d, d);
    QuotientOfMultiple(width - 1, d);
    QuotientAtMost(0, (width - 1) * index, d);
  }

  lemma UpBounds(height: int, low: real, high: real, value: real)
    requires height >= 1 && low != high
    ensures 0.0 <= Up(height, low, high, value) <= (height - 1) as real
  {
    ScaleBounds((height - 1) as real, Clip01((value - low) / (high - low)));
  }

  lemma ScaleBounds(h: real, c: real)
    requires h >= 0.0 && 0.0 <= c <= 1.0
    ensures 0.0 <= h * c <= h
  {
  }

  /** Every point of a series no longer than the plot is inside the box. */
  lemma PointsAreInside(box: Box, low: real, high: real, total: int, index: nat, value: real)
    requires box.width >= 1 && box.height >= 1 && low != high && index < total
    ensures var p := PointOf(box, low, high, total, index, value);
            box.x <= p.x < box.x + box.width && box.y <= p.y < box.y + box.height
  {
    AcrossBounds(box.width, total, index);
    UpBounds(box.height, low, high, value);
    RoundOfWhole(0);
    RoundOfWhole(box.width - 1);
    RoundOfWhole(box.height - 1);
    RoundIsMonotone(0.0, Across(box.width, total, index));
    RoundIsMonotone(Across(box.width, total, index), (box.width - 1) as real);
    RoundIsMonotone(0.0, Up(box.height, low, high, value));
    RoundIsMonotone(Up(box.height, low, high, value), (box.height - 1) as real);
  }

  lemma ScaledAtMost(h: real, a: real, b: real)
    requires h >= 0.0 && a <= b
    ensures h * a <= h * b
  {
  }

  lemma DividedAtMost(a: real, b: real, d: real)
    requires a <= b && d > 0.0
    ensures a / d <= b / d
  {
    assert b / d - a / d == (b - a) / d;
    assert (b - a) / d >= 0.0;
  }

  /** Later frames are never farther left, and larger values never lower. */
  lemma PlacementIsMonotone(box: Box, low: real, high: real, total: int, i: nat, j: nat, v: real, w: real)
    requires box.width >= 1 && box.height >= 1 && low < high && i <= j && v <= w
    ensures PointOf(box, low, high, total, i, v).x <= PointOf(box, low, high, total, j, w).x
    ensures PointOf(box, low, high, total, i, v).y >= PointOf(box, low, high, total, j, w).y
  {
    hide Round, Across, Up;
    AcrossIsMonotone(box.width, total, i, j);
    RoundIsMonotone(Across(box.width, total, i), Across(box.width, total, j));
    UpIsMonotone(box.height, low, high, v, w);
    RoundIsMonotone(Up(box.height, low, high, v), Up(box.height, low, high, w));
  }

  lemma AcrossIsMonotone(width: int, total: int, i: nat, j: nat)
    requires width >= 1 && i <= j
    ensures Across(width, total, i) <= Across(width, total, j)
  {
    ProductBounds(width - 1, i, j);
    QuotientAtMost((width - 1) * i, (width - 1) * j, Denominator(total));
  }

  lemma UpIsMonotone(height: int, low: real, high: real, v: real, w: real)
    requires height >= 1 && low < high && v <= w
    ensures Up(height, low, high, v) <= Up(height, low, high, w)
  {
    DividedAtMost(v - low, w - low, high - low);
    ScaledAtMost((height - 1) as real, Clip01((v - low) / (high - low)), Clip01((w - low) / (high - low)));
  }

  /** Neighbouring positions are at least one apart when the plot is wide enough, and whole when they
      are exactly one apart. */
  lemma AcrossStep(width: int, total: int, i: nat)
    requires total > 1 && width >= total
    ensures var x, y := Across(width, total, i), Across(width, total, i + 1);
            y - x > 1.0 || (y - x == 1.0 && x == i as real)
  {
    var d := total - 1;
    var a, b := (width - 1) * i, (width - 1) * (i + 1);
    assert b - a == width - 1;
    DifferenceOf(a, b, d);
    if width == total {
      assert a == i * d;
      QuotientOfMultiple(i, d);
      SelfQuotient(d);
    } else {
      AboveOne(width - 1, d);
    }
  }

  lemma DifferenceOf(a: int, b: int, d: int)
    requires d > 0
    ensures b as real / d as real - a as real / d as real == (b - a) as real / d as real
  {
    assert (b - a) as real == b as real - a as real;
  }

  lemma SelfQuotient(d: int)
    requires d > 0
    ensures d as real / d as real == 1.0
  {
  }

  lemma AboveOne(n: int, d: int)
    requires 0 < d < n
    ensures n as real / d as real > 1.0
  {
    var q := n as real / d as real;
    assert q * d as real == n as real;
    assert q <= 1.0 ==> q * d as real <= d as real;
  }

  /** In a plot at least as wide as its number of points, every frame has its own column, the first
      frame the left one and the last the right one. */
  lemma {:induction false} ColumnsAreDistinct(box: Box, low: real, high: real, total: int, i: nat, j: nat, v: real, w: real)
    requires total > 1 && box.width >= total && low != high && i < j
    ensures PointOf(box, low, high, total, i, v).x < PointOf(box, low, high, total, j, w).x
    decreases j
  {
    hide Round, Across, Up;
    AcrossStep(box.width, total, j - 1);
    var x := Across(box.width, total, j - 1);
    assert x == (j - 1) as real ==> x == x.Floor as real;
    RoundSeparates(x, Across(box.width, total, j));
    if i == j - 1 {
    } else {
      ColumnsAreDistinct(box, low, high, total, i, j - 1, v, w);
    }
  }

  lemma EndColumns(box: Box, low: real, high: real, total: int, v: real)
    requires total > 1 && box.width >= 1 && low != high
    ensures PointOf(box, low, high, total, 0, v).x == box.x
    ensures PointOf(box, low, high, total, total - 1, v).x == box.x + box.width - 1
  {
    RoundOfWhole(0);
    RoundOfWhole(box.width - 1);
    QuotientOfMultiple(0, total - 1);
    QuotientOfMultiple(box.width - 1, total - 1);
  }

  lemma BelowRange(value: real, low: real, high: real)
    requires value <= low < high
    ensures Clip01((value - low) / (high - low)) == 0.0
  {
    DividedAtMost(value - low, 0.0, high - low);
  }

  lemma WholeRange(d: real)
    requires d > 0.0
    ensures d / d == 1.0
  {
  }

  lemma AboveRange(value: real, low: real, high: real)
    requires low < high <= value
    ensures Clip01((value - low) / (high - low)) == 1.0
  {
    WholeRange(high - low);
    DividedAtMost(high - low, value - low, high - low);
  }

  /** Values at or below the range are drawn in the bottom row, values at or above it in the top row. */
  lemma EndRows(box: Box, low: real, high: real, total: int, index: nat, value: real)
    requires box.height >= 1 && low < high
    ensures value <= low ==> PointOf(box, low, high, total, index, value).y == box.y + box.height - 1
    ensures value >= high ==> PointOf(box, low, high, total, index, value).y == box.y
  {
    hide Across, Round, Clip01;
    if value <= low {
      BelowRange(value, low, high);
      RoundOfWhole(0);
    } else if value >= high {
      AboveRange(value, low, high);
      RoundOfWhole(box.height - 1);
    }
  }

  // ---------------------------------------------------------------- the exact places

  function Product(x: real, y: real): real {
    x * y
  }

  /** place/whole is as near to share/whole as a whole number of parts can be. */
  predicate Nearest(place: int, whole: real, share: real) {
    share - whole / 2.0 <= Product(place as real, whole) <= share + whole / 2.0
  }

  lemma Undivided(x: real, d: real)
    requires d != 0.0
    ensures Product(x / d, d) == x
  {
  }

  /** The steps between the frames of a series. */
  function Steps(total: int): real {
    if total > 1 then (total - 1) as real else 1.0
  }

  lemma AcrossIs(width: int, total: int, index: nat)
    ensures Product(Across(width, total, index), Steps(total)) == ((width - 1) * index) as real
  {
    Undivided(((width - 1) * index) as real, Steps(total));
  }

  lemma UpIs(height: int, low: real, high: real, value: real)
    requires low < high && low <= value <= high
    ensures Product(Up(height, low, high, value), high - low) == Product((height - 1) as real, value - low)
  {
    WholeRange(high - low);
    DividedAtMost(0.0, value - low, high - low);
    DividedAtMost(value - low, high - low, high - low);
    ScaledBack((height - 1) as real, value - low, high - low);
  }

  lemma ScaledBack(h: real, v: real, d: real)
    requires d != 0.0
    ensures h * (v / d) * d == h * v
  {
    assert v / d * d == v;
  }

  lemma ScaledUp(a: real, b: real, d: real)
    requires d > 0.0 && a <= b
    ensures Product(a, d) <= Product(b, d)
  {
  }

  lemma HalfMore(x: real, d: real)
    ensures Product(x + 0.5, d) == Product(x, d) + d / 2.0
  {
  }

  lemma ScaledGap(p: real, x: real, d: real)
    requires d > 0.0 && p <= x + 0.5
    ensures Product(p, d) <= Product(x, d) + d / 2.0
  {
    hide Product;
    ScaledUp(p, x + 0.5, d);
    HalfMore(x, d);
  }

  lemma RoundIsNearest(x: real, whole: real)
    requires whole > 0.0
    ensures Nearest(Round(x), whole, Product(x, whole))
  {
    hide Round, Product;
    RoundIsNear(x);
    ScaledGap(Round(x) as real, x, whole);
    ScaledGap(x, Round(x) as real, whole);
  }

  /** Each frame is drawn in the column nearest to its share of the width, and each value inside the range in
      the row nearest to its share of the height. */
  lemma PlacementIsNearest(box: Box, low: real, high: real, total: int, index: nat, value: real)
    requires low < high && low <= value <= high
    ensures var column := PointOf(box, low, high, total, index, value).x - box.x;
            Nearest(column, Steps(total), ((box.width - 1) * index) as real)
    ensures var row := box.y + box.height - 1 - PointOf(box, low, high, total, index, value).y;
            Nearest(row, high - low, Product((box.height - 1) as real, value - low))
  {
    hide Round, Across, Up, Product, Nearest;
    AcrossIs(box.width, total, index);
    UpIs(box.height, low, high, value);
    RoundIsNearest(Across(box.width, total, index), Steps(total));
    RoundIsNearest(Up(box.height, low, high, value), high - low);
  }
}
