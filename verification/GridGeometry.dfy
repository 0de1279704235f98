/** Where the cells of a grid lie, which cell a point belongs to, and which cells a rectangle touches. */
module GridGeometry {
  import opened Options

  /** A square grid of `width` by `width` cells of size `cellWidth`, centred on the origin. */
  datatype Geometry = Geometry(width: nat, cellWidth: nat) {
    function Length(): nat { width * cellWidth }

    function Left(): int { -(Length() / 2) }

    function Right(): int { Left() + Length() }

    function Size(): nat { width * width }

    predicate Valid() { width > 0 && cellWidth > 0 }
  }

  /** `v` lies in the half-open stretch of length `width` that starts at `low`. */
  predicate Within(v: real, low: int, width: nat) {
    v >= low as real && (v - low as real).Floor < width
  }

  predicate InGrid(g: Geometry, x: real, y: real) {
    Within(x, g.Left(), g.Length()) && Within(y, g.Left(), g.Length())
  }

  /** The column of an x, or the row of a y. */
  function Column(g: Geometry, v: real): int
    requires g.Valid()
  {
    ((v - g.Left() as real) / g.cellWidth as real).Floor
  }

  /** Column and row borders. */
  function Border(g: Geometry, i: int): int { g.Left() + i * g.cellWidth }

  function IndexOf(g: Geometry, x: real, y: real): int
    requires g.Valid()
  {
    Column(g, y) * g.width + Column(g, x)
  }

  predicate CellContains(g: Geometry, k: nat, x: real, y: real)
    requires g.Valid()
  {
    Within(x, Border(g, k % g.width), g.cellWidth) && Within(y, Border(g, k / g.width), g.cellWidth)
  }

  // ------------------------------------------------------------------ arithmetic

  lemma WithinIs(v: real, low: int, width: nat)
    ensures Within(v, low, width) <==> low as real <= v < (low + width) as real
  {
    var d := v - low as real;
    assert d.Floor as real <= d < d.Floor as real + 1.0;
  }

  lemma FloorOfQuotient(d: real, w: real, i: int)
    requires w > 0.0
    ensures (d / w).Floor == i <==> i as real * w <= d < (i + 1) as real * w
  {
    FloorScaled(d / w, d, w, i);
  }

  lemma FloorScaled(q: real, d: real, w: real, i: int)
    requires w > 0.0 && q * w == d
    ensures q.Floor == i <==> i as real * w <= d < (i + 1) as real * w
  {
    FloorIs(q, i);
    RealOrder(i as real, q, w, i as real * w, d);
    RealOrder(q, (i + 1) as real, w, d, (i + 1) as real * w);
  }

  lemma FloorIs(q: real, i: int)
    ensures q.Floor == i <==> i as real <= q < (i + 1) as real
  {}

  lemma RealOrder(a: real, b: real, w: real, x: real, y: real)
    requires w > 0.0 && x == a * w && y == b * w
    ensures a < b <==> x < y
    ensures a <= b <==> x <= y
  {}

  lemma DivMod(r: int, c: int, w: nat)
    requires 0 <= c < w
    ensures (r * w + c) / w == r && (r * w + c) % w == c
  {
    var k := r * w + c;
    var q, m := k / w, k % w;
    assert k == q * w + m;
    assert (q - r) * w == c - m;
    Multiple(q - r, w);
  }

  lemma Multiple(n: int, w: nat)
    ensures n >= 1 ==> n * w >= w
    ensures n <= -1 ==> n * w + w <= 0
  {}

  lemma ProductMonotone(a: int, b: int, w: nat)
    requires a <= b
    ensures a * w <= b * w
  {}

  lemma BorderReal(g: Geometry, i: int)
    ensures Border(g, i) as real == g.Left() as real + i as real * g.cellWidth as real
    ensures Border(g, i + 1) == Border(g, i) + g.cellWidth
  {
    IntProduct(i, g.cellWidth);
    assert (i + 1) * g.cellWidth == i * g.cellWidth + g.cellWidth;
  }

  lemma IntProduct(i: int, w: nat)
    ensures (i * w) as real == i as real * w as real
  {}

  // ------------------------------------------------------------------ points and cells

  lemma ColumnIs(g: Geometry, v: real, i: int)
    requires g.Valid()
    ensures Column(g, v) == i <==> Within(v, Border(g, i), g.cellWidth)
  {
    WithinIs(v, Border(g, i), g.cellWidth);
    FloorOfQuotient(v - g.Left() as real, g.cellWidth as real, i);
    BorderReal(g, i);
    BorderReal(g, i + 1);
  }

  lemma ColumnInRange(g: Geometry, v: real)
    requires g.Valid()
    ensures Within(v, g.Left(), g.Length()) <==> 0 <= Column(g, v) < g.width
  {
    WithinIs(v, g.Left(), g.Length());
    var i := Column(g, v);
    ColumnIs(g, v, i);
    WithinIs(v, Border(g, i), g.cellWidth);
    BorderReal(g, i);
    if 0 <= i { ProductMonotone(0, i, g.cellWidth); } else { ProductMonotone(i + 1, 0, g.cellWidth); }
    if i < g.width { ProductMonotone(i + 1, g.width, g.cellWidth); } else { ProductMonotone(g.width, i, g.cellWidth); }
  }

  lemma IndexInRange(g: Geometry, c: int, r: int)
    requires g.Valid() && 0 <= c < g.width && 0 <= r < g.width
    ensures 0 <= r * g.width + c < g.Size()
  {
    ProductMonotone(0, r, g.width);
    ProductMonotone(r + 1, g.width, g.width);
  }

  lemma PointIndexInRange(g: Geometry, x: real, y: real)
    requires g.Valid() && InGrid(g, x, y)
    ensures 0 <= IndexOf(g, x, y) < g.Size()
  {
    ColumnInRange(g, x);
    ColumnInRange(g, y);
    IndexInRange(g, Column(g, x), Column(g, y));
  }

  function GetCell(g: Geometry, x: real, y: real): (cell: Option<nat>)
    requires g.Valid()
    ensures cell.Some? ==> cell.value < g.Size()
  {
    if InGrid(g, x, y) then
      PointIndexInRange(g, x, y);
      Some(IndexOf(g, x, y))
    else None
  }

  /** The cells partition the grid: a point inside belongs to exactly one cell, the one `GetCell` names, and a point
      outside belongs to none. */
  lemma CellsPartitionGrid(g: Geometry, x: real, y: real, k: nat)
    requires g.Valid() && k < g.Size()
    ensures CellContains(g, k, x, y) <==> GetCell(g, x, y) == Some(k)
  {
    var c, r := Column(g, x), Column(g, y);
    ColumnInRange(g, x);
    ColumnInRange(g, y);
    assert CellContains(g, k, x, y) <==> c == k % g.width && r == k / g.width by {
      ColumnIs(g, x, k % g.width);
      ColumnIs(g, y, k / g.width);
    }
    hide CellContains;
    RowInRange(g, k);
    if 0 <= c < g.width && 0 <= r < g.width {
      Decode(r, c, k, g.width);
      IndexInRange(g, c, r);
    }
  }

  /** Where cell (column, row) lies: the grid is centred on the origin, and the cells follow each other without a gap. */
  lemma CellLies(g: Geometry, x: real, y: real, column: nat, row: nat)
    requires g.Valid() && column < g.width && row < g.width
    ensures var low := -(g.width * g.cellWidth / 2);
      GetCell(g, x, y) == Some(row * g.width + column) <==>
      && (low + column * g.cellWidth) as real <= x < (low + (column + 1) * g.cellWidth) as real
      && (low + row * g.cellWidth) as real <= y < (low + (row + 1) * g.cellWidth) as real
  {
    var k := row * g.width + column;
    IndexInRange(g, column, row);
    CellsPartitionGrid(g, x, y, k);
    DivMod(row, column, g.width);
    BorderReal(g, column);
    BorderReal(g, row);
    WithinIs(x, Border(g, column), g.cellWidth);
    WithinIs(y, Border(g, row), g.cellWidth);
    hide Within, GetCell;
  }

  lemma Decode(r: int, c: int, k: int, w: nat)
    requires 0 <= c < w
    ensures r * w + c == k <==> c == k % w && r == k / w
  {
    DivMod(r, c, w);
    assert k == (k / w) * w + k % w;
  }

  lemma RowInRange(g: Geometry, k: nat)
    requires g.Valid() && k < g.Size()
    ensures 0 <= k / g.width < g.width
  {
    if k / g.width >= g.width { ProductMonotone(g.width, k / g.width, g.width); }
  }

  lemma ColumnMonotone(g: Geometry, a: real, b: real)
    requires g.Valid() && a <= b
    ensures Column(g, a) <= Column(g, b)
  {
    var i, j := Column(g, a), Column(g, b);
    ColumnIs(g, a, i);
    ColumnIs(g, b, j);
    WithinIs(a, Border(g, i), g.cellWidth);
    WithinIs(b, Border(g, j), g.cellWidth);
    BorderReal(g, j);
    if j < i { ProductMonotone(j + 1, i, g.cellWidth); }
  }

  // ------------------------------------------------------------------ rectangles

  /** The closed rectangle with corners (x, y) and (x + w, y + h). */
  datatype Rect = Rect(x: real, y: real, w: real, h: real)

  predicate InRect(q: Rect, x: real, y: real) {
    q.x <= x <= q.x + q.w && q.y <= y <= q.y + q.h
  }

  /** The rectangle and the cell have a point in common. */
  ghost predicate Touches(g: Geometry, q: Rect, k: nat)
    requires g.Valid()
  {
    exists x: real, y: real :: InRect(q, x, y) && CellContains(g, k, x, y)
  }

  function Max(a: real, b: real): real { if a < b then b else a }

  function Min(a: real, b: real): real { if b < a then b else a }

  /** The columns that the closed stretch [a, b] reaches, as `range` computes them. */
  function FirstColumn(g: Geometry, a: real): int
    requires g.Valid()
  {
    Column(g, Max(a, g.Left() as real))
  }

  function LastColumn(g: Geometry, b: real): int
    requires g.Valid()
  {
    Column(g, Min(b, (g.Right() - 1) as real))
  }

  lemma LastBorder(g: Geometry)
    requires g.Valid()
    ensures Column(g, (g.Right() - 1) as real) == g.width - 1
    ensures Column(g, g.Left() as real) == 0
  {
    LastCellEnds(g);
    ColumnIs(g, (g.Right() - 1) as real, g.width - 1);
    WithinIs((g.Right() - 1) as real, Border(g, g.width - 1), g.cellWidth);
    ColumnIs(g, g.Left() as real, 0);
    WithinIs(g.Left() as real, Border(g, 0), g.cellWidth);
    hide Column, Within, Border;
  }

  lemma LastCellEnds(g: Geometry)
    requires g.Valid()
    ensures Border(g, g.width - 1) + g.cellWidth == g.Right() && Border(g, 0) == g.Left()
  {
    assert (g.width - 1) * g.cellWidth + g.cellWidth == g.width * g.cellWidth;
  }

  lemma ColumnsInGrid(g: Geometry, a: real, b: real)
    requires g.Valid() && a <= b && a < g.Right() as real && b >= g.Left() as real
    ensures 0 <= FirstColumn(g, a) <= LastColumn(g, b) < g.width
  {
    LastBorder(g);
    var lo, hi := Max(a, g.Left() as real), Min(b, (g.Right() - 1) as real);
    ColumnMonotone(g, g.Left() as real, lo);
    ColumnMonotone(g, hi, (g.Right() - 1) as real);
    ColumnInRange(g, lo);
    WithinIs(lo, g.Left(), g.Length());
    if lo <= hi { ColumnMonotone(g, lo, hi); } else { ColumnMonotone(g, (g.Right() - 1) as real, lo); }
  }

  /** A stretch that is not wholly outside reaches exactly the columns from the first to the last. */
  lemma ColumnsReached(g: Geometry, a: real, b: real, i: int) returns (v: real)
    requires g.Valid() && a <= b && a < g.Right() as real && b >= g.Left() as real && 0 <= i < g.width
    ensures FirstColumn(g, a) <= i <= LastColumn(g, b) ==> a <= v <= b && Within(v, Border(g, i), g.cellWidth)
    ensures (exists u: real :: a <= u <= b && Within(u, Border(g, i), g.cellWidth)) ==>
      FirstColumn(g, a) <= i <= LastColumn(g, b)
  {
    var lo, hi := Max(a, g.Left() as real), Min(b, (g.Right() - 1) as real);
    var edge := Border(g, i) as real;
    v := Max(lo, edge);
    if FirstColumn(g, a) <= i <= LastColumn(g, b) {
      InColumn(g, lo, i);
      AtLeastBorder(g, hi, i);
    }
    if exists u: real :: a <= u <= b && Within(u, Border(g, i), g.cellWidth) {
      var u: real :| a <= u <= b && Within(u, Border(g, i), g.cellWidth);
      ColumnIs(g, u, i);
      ColumnInRange(g, u);
      WithinIs(u, g.Left(), g.Length());
      ColumnMonotone(g, lo, u);
      LastBorder(g);
      if hi == b { ColumnMonotone(g, u, b); }
    }
  }

  /** From a point in column `i` or before it, the start of column `i` or the point itself lies in column `i`. */
  lemma InColumn(g: Geometry, lo: real, i: int)
    requires g.Valid() && Column(g, lo) <= i
    ensures Within(Max(lo, Border(g, i) as real), Border(g, i), g.cellWidth)
  {
    var c := Column(g, lo);
    ColumnIs(g, lo, c);
    WithinIs(lo, Border(g, c), g.cellWidth);
    WithinIs(Max(lo, Border(g, i) as real), Border(g, i), g.cellWidth);
    BorderReal(g, c);
    ProductMonotone(c, i, g.cellWidth);
  }

  lemma AtLeastBorder(g: Geometry, hi: real, i: int)
    requires g.Valid() && i <= Column(g, hi)
    ensures Border(g, i) as real <= hi
  {
    var c := Column(g, hi);
    ColumnIs(g, hi, c);
    WithinIs(hi, Border(g, c), g.cellWidth);
    ProductMonotone(i, c, g.cellWidth);
  }
}
