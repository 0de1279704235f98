/** Iterating over the cells that a rectangle covers. */
module GridRange {
  import opened Options
  import opened GridGeometry

  /** The iterator's fields. */
  datatype Cursor = Cursor(row: nat, column: nat, pos: nat, left: nat, right: nat, rowEnd: nat, rowLength: nat)

  function CursorAt(g: Geometry, begin: nat, width: nat, height: nat): Cursor
    requires g.Valid()
  {
    Cursor(begin / g.width, begin % g.width, begin, begin % g.width, begin % g.width + width,
           begin / g.width + height, g.width)
  }

  function EndCursor(g: Geometry): Cursor
    requires g.Valid()
  {
    CursorAt(g, g.Size(), 0, 0)
  }

  function Advance(g: Geometry, c: Cursor): Cursor {
    if c.column + 1 < c.right then c.(column := c.column + 1, pos := c.pos + 1)
    else if c.row + 1 < c.rowEnd then
      c.(column := c.left, row := c.row + 1, pos := (c.row + 1) * c.rowLength + c.left)
    else c.(pos := g.Size(), column := g.width, row := g.width)
  }

  /** The early tests of `range`: the rectangle reaches properly into the grid on all four sides. */
  predicate Overlaps(g: Geometry, q: Rect) {
    && q.x < g.Right() as real && q.x + q.w > g.Left() as real
    && q.y < g.Right() as real && q.y + q.h > g.Left() as real
  }

  function Range(g: Geometry, q: Rect): Cursor
    requires g.Valid() && q.w > 0.0 && q.h > 0.0
  {
    if !Overlaps(g, q) then EndCursor(g)
    else
      var x, y := Max(q.x, g.Left() as real), Max(q.y, g.Left() as real);
      if !InGrid(g, x, y) then EndCursor(g)
      else
        var x1, y1 := Min(q.x + q.w, (g.Right() - 1) as real), Min(q.y + q.h, (g.Right() - 1) as real);
        var begin, end := IndexOf(g, x, y), IndexOf(g, x1, y1);
        CornersInGrid(g, q);
        CursorAt(g, begin, end % g.width - begin % g.width + 1, end / g.width - begin / g.width + 1)
  }

  /** The corners that `range` computes are those of the block of cells it has to visit. */
  lemma CornersInGrid(g: Geometry, q: Rect)
    requires g.Valid() && q.w > 0.0 && q.h > 0.0 && Overlaps(g, q)
    ensures var begin := IndexOf(g, Max(q.x, g.Left() as real), Max(q.y, g.Left() as real));
      var end := IndexOf(g, Min(q.x + q.w, (g.Right() - 1) as real), Min(q.y + q.h, (g.Right() - 1) as real));
      && InGrid(g, Max(q.x, g.Left() as real), Max(q.y, g.Left() as real))
      && 0 <= begin <= end < g.Size()
      && begin % g.width == FirstColumn(g, q.x) && begin / g.width == FirstColumn(g, q.y)
      && end % g.width == LastColumn(g, q.x + q.w) && end / g.width == LastColumn(g, q.y + q.h)
      && 0 <= FirstColumn(g, q.x) <= LastColumn(g, q.x + q.w) < g.width
      && 0 <= FirstColumn(g, q.y) <= LastColumn(g, q.y + q.h) < g.width
  {
    ColumnsInGrid(g, q.x, q.x + q.w);
    ColumnsInGrid(g, q.y, q.y + q.h);
    var c0, c1, r0, r1 := FirstColumn(g, q.x), LastColumn(g, q.x + q.w), FirstColumn(g, q.y), LastColumn(g, q.y + q.h);
    DivMod(r0, c0, g.width);
    DivMod(r1, c1, g.width);
    IndexInRange(g, c0, r0);
    IndexInRange(g, c1, r1);
    ProductMonotone(r0, r1, g.width);
    ColumnInRange(g, Max(q.x, g.Left() as real));
    ColumnInRange(g, Max(q.y, g.Left() as real));
  }

  // ------------------------------------------------------------------ a walk from a cursor to the end

  predicate WellPlaced(g: Geometry, c: Cursor) {
    c.pos == g.Size()
    || (&& c.left <= c.column < c.right <= g.width && c.row < c.rowEnd <= g.width
        && c.pos == c.row * g.width + c.column && c.rowLength == g.width)
  }

  lemma AdvanceStaysPlaced(g: Geometry, c: Cursor)
    requires g.Valid() && WellPlaced(g, c) && c.pos != g.Size()
    ensures WellPlaced(g, Advance(g, c))
    ensures c.pos < g.Size()
  {
    IndexInRange(g, c.column, c.row);
  }

  /** The positions that a loop with `++` visits until it meets `end()`. */
  function Walk(g: Geometry, c: Cursor): seq<nat>
    requires g.Valid() && WellPlaced(g, c)
    decreases if c.pos == g.Size() then 0 else c.rowEnd - c.row, if c.pos == g.Size() then 0 else c.right - c.column
  {
    if c.pos == g.Size() then []
    else
      AdvanceStaysPlaced(g, c);
      [c.pos] + Walk(g, Advance(g, c))
  }

  /** What is left of the block: the rest of this row, and the rows below. */
  predicate Ahead(g: Geometry, c: Cursor, k: nat)
    requires g.Valid()
  {
    && c.pos != g.Size() && c.left <= k % g.width < c.right
    && ((k / g.width == c.row && c.column <= k % g.width) || c.row < k / g.width < c.rowEnd)
  }

  ghost predicate Increasing(s: seq<nat>) { forall i, j :: 0 <= i < j < |s| ==> s[i] < s[j] }

  lemma CellOrder(r: nat, c: nat, r1: nat, c1: nat, w: nat)
    requires c < w && (r < r1 || (r == r1 && c < c1))
    ensures r * w + c < r1 * w + c1
  {
    if r < r1 { ProductMonotone(r + 1, r1, w); assert (r + 1) * w == r * w + w; }
  }

  /** The three ways `++` can go: along the row, to the next row, to the end. */
  lemma AdvanceCases(g: Geometry, c: Cursor)
    requires g.Valid() && WellPlaced(g, c) && c.pos != g.Size()
    ensures var d := Advance(g, c);
      && (c.column + 1 < c.right ==> d == c.(column := c.column + 1, pos := c.pos + 1) && d.pos != g.Size())
      && (!(c.column + 1 < c.right) && c.row + 1 < c.rowEnd ==>
            d.left == c.left && d.right == c.right && d.rowEnd == c.rowEnd
            && d.row == c.row + 1 && d.column == c.left && d.pos != g.Size())
      && (!(c.column + 1 < c.right) && !(c.row + 1 < c.rowEnd) ==> d.pos == g.Size())
  {
    if c.column + 1 < c.right { IndexInRange(g, c.column + 1, c.row); }
    else if c.row + 1 < c.rowEnd { IndexInRange(g, c.left, c.row + 1); }
  }

  /** One `++` takes exactly the current cell off what is left, and every other cell left comes later. */
  lemma AheadStep(g: Geometry, c: Cursor, k: nat)
    requires g.Valid() && WellPlaced(g, c) && c.pos != g.Size()
    ensures Ahead(g, c, k) <==> k == c.pos || Ahead(g, Advance(g, c), k)
    ensures Ahead(g, Advance(g, c), k) ==> c.pos < k
  {
    AdvanceCases(g, c);
    Decode(c.row, c.column, k, g.width);
    var r1, c1 := k / g.width, k % g.width;
    assert k == r1 * g.width + c1;
    assert c.row < r1 || (c.row == r1 && c.column < c1) ==> c.pos < k by {
      if c.row < r1 || (c.row == r1 && c.column < c1) { CellOrder(c.row, c.column, r1, c1, g.width); }
    }
    hide Advance, WellPlaced;
  }

  lemma {:induction false} WalkIsRowMajor(g: Geometry, c: Cursor)
    requires g.Valid() && WellPlaced(g, c)
    ensures Increasing(Walk(g, c))
    ensures forall k: nat :: k in Walk(g, c) <==> Ahead(g, c, k)
    decreases if c.pos == g.Size() then 0 else c.rowEnd - c.row, if c.pos == g.Size() then 0 else c.right - c.column
  {
    if c.pos != g.Size() {
      AdvanceStaysPlaced(g, c);
      WalkIsRowMajor(g, Advance(g, c));
      var rest := Walk(g, Advance(g, c));
      assert Walk(g, c) == [c.pos] + rest;
      assert forall j :: 0 <= j < |rest| ==> rest[j] in rest;
      hide Walk, Ahead, Advance, WellPlaced;
      forall k: nat ensures k in Walk(g, c) <==> Ahead(g, c, k) { AheadStep(g, c, k); }
      forall k: nat | k in rest ensures c.pos < k { AheadStep(g, c, k); }
    }
  }

  // ------------------------------------------------------------------ what a range visits

  lemma RangeIsPlaced(g: Geometry, q: Rect)
    requires g.Valid() && q.w > 0.0 && q.h > 0.0
    ensures WellPlaced(g, Range(g, q))
  {
    if Overlaps(g, q) {
      CornersInGrid(g, q);
      var c := Range(g, q);
      assert c.pos == (c.pos / g.width) * g.width + c.pos % g.width;
    }
  }

  /** A cell is touched when its column and its row are both reached. */
  lemma TouchesIsColumns(g: Geometry, q: Rect, k: nat)
    requires g.Valid() && q.w > 0.0 && q.h > 0.0 && k < g.Size()
    requires q.x < g.Right() as real && q.x + q.w >= g.Left() as real
    requires q.y < g.Right() as real && q.y + q.h >= g.Left() as real
    ensures Touches(g, q, k) <==>
      && FirstColumn(g, q.x) <= k % g.width <= LastColumn(g, q.x + q.w)
      && FirstColumn(g, q.y) <= k / g.width <= LastColumn(g, q.y + q.h)
  {
    RowInRange(g, k);
    var x := ColumnsReached(g, q.x, q.x + q.w, k % g.width);
    var y := ColumnsReached(g, q.y, q.y + q.h, k / g.width);
    if && FirstColumn(g, q.x) <= k % g.width <= LastColumn(g, q.x + q.w)
       && FirstColumn(g, q.y) <= k / g.width <= LastColumn(g, q.y + q.h) {
      assert InRect(q, x, y) && CellContains(g, k, x, y);
    }
    if Touches(g, q, k) {
      var u, v: real :| InRect(q, u, v) && CellContains(g, k, u, v);
      assert q.x <= u <= q.x + q.w && Within(u, Border(g, k % g.width), g.cellWidth);
      assert q.y <= v <= q.y + q.h && Within(v, Border(g, k / g.width), g.cellWidth);
    }
  }

  /** Iterating over a range ends, visits cells in row-major order and each at most once; when the rectangle reaches
      properly into the grid these are precisely the cells it touches, and otherwise there are none. */
  lemma RangeVisits(g: Geometry, q: Rect)
    requires g.Valid() && q.w > 0.0 && q.h > 0.0
    ensures WellPlaced(g, Range(g, q))
    ensures var visited := Walk(g, Range(g, q));
      && Increasing(visited)
      && (forall k :: k in visited ==> k < g.Size())
      && (!Overlaps(g, q) ==> visited == [])
      && (Overlaps(g, q) ==> forall k: nat :: k < g.Size() ==> (k in visited <==> Touches(g, q, k)))
  {
    RangeIsPlaced(g, q);
    var c := Range(g, q);
    WalkIsRowMajor(g, c);
    if Overlaps(g, q) {
      var visited := Walk(g, c);
      forall k: nat ensures Ahead(g, c, k) <==> k < g.Size() && Touches(g, q, k) { RangeBlock(g, q, k); }
    }
  }

  /** The block of cells a range starts with is the block of touched cells. */
  lemma RangeBlock(g: Geometry, q: Rect, k: nat)
    requires g.Valid() && q.w > 0.0 && q.h > 0.0 && Overlaps(g, q)
    ensures Ahead(g, Range(g, q), k) <==> k < g.Size() && Touches(g, q, k)
  {
    CornersInGrid(g, q);
    if k < g.Size() {
      TouchesIsColumns(g, q, k);
      hide Touches;
    } else {
      RowBeyond(g, k);
    }
  }

  lemma RowBeyond(g: Geometry, k: nat)
    requires g.Valid() && k >= g.Size()
    ensures k / g.width >= g.width
  {
    assert k == (k / g.width) * g.width + k % g.width;
    if k / g.width < g.width { IndexInRange(g, k % g.width, k / g.width); }
  }

  /** The rectangle meets the grid only along the grid's left or bottom edge. */
  predicate Grazes(g: Geometry, q: Rect) {
    && !Overlaps(g, q)
    && q.x < g.Right() as real && q.x + q.w >= g.Left() as real
    && q.y < g.Right() as real && q.y + q.h >= g.Left() as real
  }

  lemma TouchedMeansReaching(g: Geometry, q: Rect, k: nat)
    requires g.Valid() && k < g.Size() && Touches(g, q, k)
    ensures q.x < g.Right() as real && q.x + q.w >= g.Left() as real
    ensures q.y < g.Right() as real && q.y + q.h >= g.Left() as real
  {
    var u, v: real :| InRect(q, u, v) && CellContains(g, k, u, v);
    CellsPartitionGrid(g, u, v, k);
    WithinIs(u, g.Left(), g.Length());
    WithinIs(v, g.Left(), g.Length());
  }

  /** So `range` covers exactly the touched cells except when the rectangle merely grazes the grid's left or bottom edge:
      then it touches the cells on that edge, and the range is empty. */
  lemma RangeIsExact(g: Geometry, q: Rect)
    requires g.Valid() && q.w > 0.0 && q.h > 0.0
    ensures WellPlaced(g, Range(g, q))
    ensures (forall k: nat :: k < g.Size() ==> (k in Walk(g, Range(g, q)) <==> Touches(g, q, k))) <==> !Grazes(g, q)
  {
    RangeVisits(g, q);
    if Grazes(g, q) {
      var c, r := FirstColumn(g, q.x), FirstColumn(g, q.y);
      ColumnsInGrid(g, q.x, q.x + q.w);
      ColumnsInGrid(g, q.y, q.y + q.h);
      IndexInRange(g, c, r);
      var k := r * g.width + c;
      DivMod(r, c, g.width);
      TouchesIsColumns(g, q, k);
      assert Touches(g, q, k) && k !in Walk(g, Range(g, q));
    } else if !Overlaps(g, q) {
      forall k: nat | k < g.Size() ensures !Touches(g, q, k) {
        if Touches(g, q, k) { TouchedMeansReaching(g, q, k); }
      }
    }
  }

  /** A square to the left of a 2 by 2 grid of unit cells, sharing only the grid's edge with it. */
  lemma GrazingExample()
    ensures var g := Geometry(2, 1); var q := Rect(-2.0, -1.0, 1.0, 1.0);
      g.Valid() && Grazes(g, q) && Touches(g, q, 0) && Range(g, q) == EndCursor(g)
  {
    var g, q := Geometry(2, 1), Rect(-2.0, -1.0, 1.0, 1.0);
    assert InRect(q, -1.0, -1.0) && CellContains(g, 0, -1.0, -1.0);
  }

  // ------------------------------------------------------------------ the iterator as an object

  class CellIterator {
    const geometry: Geometry
    var row: nat
    var column: nat
    var pos: nat
    const columnLeft: nat
    const columnRight: nat
    const rowEnd: nat
    const rowLength: nat

    function State(): Cursor
      reads this
    {
      Cursor(row, column, pos, columnLeft, columnRight, rowEnd, rowLength)
    }

    constructor (g: Geometry, begin: nat, width: nat, height: nat)
      requires g.Valid()
      ensures geometry == g && State() == CursorAt(g, begin, width, height)
    {
      geometry := g;
      row := begin / g.width;
      column := begin % g.width;
      pos := begin;
      columnLeft := begin % g.width;
      columnRight := begin % g.width + width;
      rowEnd := begin / g.width + height;
      rowLength := g.width;
    }

    method Next()
      modifies this
      ensures State() == Advance(geometry, old(State()))
    {
      column := column + 1;
      pos := pos + 1;
      if column < columnRight {
        return;
      }
      column := columnLeft;
      row := row + 1;
      if row < rowEnd {
        pos := row * rowLength + column;
        return;
      }
      pos := geometry.Size();
      column := geometry.width;
      row := geometry.width;
    }
  }

  method MakeRange(g: Geometry, q: Rect) returns (it: CellIterator)
    requires g.Valid() && q.w > 0.0 && q.h > 0.0
    ensures fresh(it) && it.geometry == g && it.State() == Range(g, q)
  {
    if !Overlaps(g, q) {
      it := new CellIterator(g, g.Size(), 0, 0);
      return;
    }
    CornersInGrid(g, q);
    var begin := IndexOf(g, Max(q.x, g.Left() as real), Max(q.y, g.Left() as real));
    var end := IndexOf(g, Min(q.x + q.w, (g.Right() - 1) as real), Min(q.y + q.h, (g.Right() - 1) as real));
    it := new CellIterator(g, begin, end % g.width - begin % g.width + 1, end / g.width - begin / g.width + 1);
  }

  /** The scanner's loop: from wherever the iterator stands to `end()`. */
  method VisitCells(it: CellIterator) returns (visited: seq<nat>)
    requires it.geometry.Valid() && WellPlaced(it.geometry, it.State())
    modifies it
    ensures visited == Walk(it.geometry, old(it.State()))
    ensures it.pos == it.geometry.Size()
  {
    visited := [];
    ghost var all := Walk(it.geometry, it.State());
    while it.pos != it.geometry.Size()
      invariant WellPlaced(it.geometry, it.State())
      invariant visited + Walk(it.geometry, it.State()) == all
      decreases |Walk(it.geometry, it.State())|
    {
      WalkStep(it.geometry, it.State());
      visited := visited + [it.pos];
      hide Walk, WellPlaced, Advance;
      it.Next();
    }
  }

  lemma WalkStep(g: Geometry, c: Cursor)
    requires g.Valid() && WellPlaced(g, c) && c.pos != g.Size()
    ensures WellPlaced(g, Advance(g, c))
    ensures Walk(g, c) == [c.pos] + Walk(g, Advance(g, c))
  {
    AdvanceStaysPlaced(g, c);
  }

  method VisitRange(g: Geometry, q: Rect) returns (visited: seq<nat>)
    requires g.Valid() && q.w > 0.0 && q.h > 0.0
    ensures Increasing(visited)
    ensures forall k: nat :: k < g.Size() && Overlaps(g, q) ==> (k in visited <==> Touches(g, q, k))
    ensures !Overlaps(g, q) ==> visited == []
  {
    hide Range, Touches, WellPlaced, Advance, Walk;
    RangeVisits(g, q);
    var it := MakeRange(g, q);
    visited := VisitCells(it);
  }
}
