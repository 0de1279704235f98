/** The grid as the server keeps it: cells with the ids of the objects that are in them. */
module ObjectGrid {
  import opened Options
  import opened GridGeometry
  import opened UnorderedVectors

  /** For each cell, the ids it lists. */
  type Listing = seq<seq<nat>>

  function Enter(listing: Listing, cell: Option<nat>, id: nat): Listing
    requires cell.Some? ==> cell.value < |listing|
  {
    if cell.Some? then listing[cell.value := listing[cell.value] + [id]] else listing
  }

  /** The same for an object that no cell is known to list: it is entered unless it is there. */
  function Admit(listing: Listing, cell: Option<nat>, id: nat): Listing
    requires cell.Some? ==> cell.value < |listing|
  {
    if cell.Some? then listing[cell.value := PushNew(listing[cell.value], id)] else listing
  }

  function Leave(listing: Listing, cell: nat, id: nat): Listing
    requires cell < |listing|
  {
    listing[cell := RemoveFirst(listing[cell], id)]
  }

  /** What following an object that `cell` lists does to the listing: nothing while the object stays in the cell. */
  function Tracked(g: Geometry, listing: Listing, cell: nat, id: nat, x: real, y: real): Listing
    requires g.Valid() && |listing| == g.Size() && cell < |listing|
  {
    if CellContains(g, cell, x, y) then listing else Leave(Enter(listing, GetCell(g, x, y), id), cell, id)
  }

  /** After an object that is listed once, by `cell`, has been followed to (x, y), it is listed once by the cell that contains
      that point and by no other one; nobody else's entries change. */
  lemma TrackedLists(g: Geometry, listing: Listing, cell: nat, id: nat, x: real, y: real, k: nat, other: nat)
    requires g.Valid() && |listing| == g.Size() && cell < |listing| && k < |listing|
    requires forall i :: 0 <= i < |listing| ==> multiset(listing[i])[id] == if i == cell then 1 else 0
    ensures var after := Tracked(g, listing, cell, id, x, y);
      && |after| == |listing|
      && multiset(after[k])[id] == (if CellContains(g, k, x, y) then 1 else 0)
      && (other != id ==> multiset(after[k])[other] == multiset(listing[k])[other])
      && (k != cell ==> listing[k] <= after[k])
  {
    CellsPartitionGrid(g, x, y, k);
    CellsPartitionGrid(g, x, y, cell);
    if !CellContains(g, cell, x, y) {
      var entered := Enter(listing, GetCell(g, x, y), id);
      assert entered[cell] == listing[cell];
      RemoveFirstTakesOne(listing[cell], id);
      if GetCell(g, x, y) == Some(k) { assert multiset(entered[k]) == multiset(listing[k]) + multiset{id}; }
    }
  }

  /** An object that is added is listed by the cell that contains it, once, and the cell's other entries stay in place. */
  lemma AdmittedLists(g: Geometry, listing: Listing, id: nat, x: real, y: real, k: nat)
    requires g.Valid() && |listing| == g.Size() && k < |listing|
    ensures var after := Admit(listing, GetCell(g, x, y), id);
      && |after| == |listing| && listing[k] <= after[k]
      && (id in after[k] <==> id in listing[k] || CellContains(g, k, x, y))
      && multiset(after[k])[id] == if id !in listing[k] && CellContains(g, k, x, y) then 1 else multiset(listing[k])[id]
  {
    CellsPartitionGrid(g, x, y, k);
    assert id !in listing[k] ==> multiset(listing[k])[id] == 0;
    assert multiset(listing[k] + [id])[id] == multiset(listing[k])[id] + 1;
  }

  datatype Cell = Cell(x: int, y: int, width: nat, ids: seq<nat>) {
    predicate Contains(px: real, py: real) { Within(px, x, width) && Within(py, y, width) }
  }

  class Grid {
    var cellWidth: nat
    var width: nat
    var cells: seq<Cell>
    var parent: Cell

    ghost function Shape(): Geometry
      reads this
    {
      Geometry(width, cellWidth)
    }

    ghost predicate Built()
      reads this
    {
      && Shape().Valid()
      && parent == Cell(Shape().Left(), Shape().Left(), Shape().Length(), [])
      && |cells| == Shape().Size()
      && forall k :: 0 <= k < |cells| ==>
           cells[k].x == Border(Shape(), k % width) && cells[k].y == Border(Shape(), k / width)
           && cells[k].width == cellWidth
    }

    ghost function Ids(): Listing
      reads this
    {
      seq(|cells|, k requires 0 <= k < |cells| reads this => cells[k].ids)
    }

    constructor ()
      ensures cells == []
    {
      cellWidth, width, cells, parent := 0, 0, [], Cell(0, 0, 0, []);
    }

    /** Lay out the cells row by row, from the lower left corner. */
    method Build(newWidth: nat, newCellWidth: nat)
      requires cells == []
      requires newWidth > 0 && newCellWidth > 0 && newWidth * newCellWidth < 0xFFFF_FFFF
      modifies this
      ensures Built() && Shape() == Geometry(newWidth, newCellWidth)
      ensures forall k :: 0 <= k < |cells| ==> cells[k].ids == []
    {
      width, cellWidth := newWidth, newCellWidth;
      var length := width * cellWidth;
      parent := Cell(-(length / 2), -(length / 2), length, []);
      var i := 0;
      while i < width
        invariant 0 <= i <= width == newWidth && cellWidth == newCellWidth && length == Shape().Length()
        invariant parent == Cell(Shape().Left(), Shape().Left(), length, [])
        invariant |cells| == i * width
        invariant forall k :: 0 <= k < |cells| ==>
          cells[k] == Cell(Border(Shape(), k % width), Border(Shape(), k / width), cellWidth, [])
      {
        var y := parent.y + i * cellWidth;
        var j := 0;
        while j < width
          invariant 0 <= j <= width == newWidth && cellWidth == newCellWidth && length == Shape().Length()
          invariant parent == Cell(Shape().Left(), Shape().Left(), length, [])
          invariant |cells| == i * width + j
          invariant y == Border(Shape(), i)
          invariant forall k :: 0 <= k < |cells| ==>
            cells[k] == Cell(Border(Shape(), k % width), Border(Shape(), k / width), cellWidth, [])
        {
          DivMod(i, j, width);
          var x := parent.x + j * cellWidth;
          cells := cells + [Cell(x, y, cellWidth, [])];
          j := j + 1;
        }
        i := i + 1;
      }
    }

    lemma CellHolds(k: nat, x: real, y: real)
      requires Built() && k < |cells|
      ensures cells[k].Contains(x, y) <==> CellContains(Shape(), k, x, y)
    {}

    method CellAt(x: real, y: real) returns (cell: Option<nat>)
      requires Built()
      ensures cell == GetCell(Shape(), x, y)
      ensures cell.Some? ==> cell.value < |cells| && cells[cell.value].Contains(x, y)
      ensures forall k :: 0 <= k < |cells| && cells[k].Contains(x, y) ==> cell == Some(k)
    {
      if parent.Contains(x, y) {
        PointIndexInRange(Shape(), x, y);
        var j := ((x - parent.x as real) / cellWidth as real).Floor;
        var i := ((y - parent.y as real) / cellWidth as real).Floor;
        cell := Some(i * width + j);
        CellsPartitionGrid(Shape(), x, y, cell.value);
      } else {
        cell := None;
      }
      forall k | 0 <= k < |cells| && cells[k].Contains(x, y) ensures cell == Some(k) {
        CellsPartitionGrid(Shape(), x, y, k);
      }
    }

    method Add(id: nat, x: real, y: real) returns (cell: Option<nat>)
      requires Built()
      modifies this`cells
      ensures Built() && cell == GetCell(Shape(), x, y) && |Ids()| == old(|Ids()|)
      ensures cell.Some? ==> cell.value < |Ids()|
      ensures Ids() == Admit(old(Ids()), cell, id)
    {
      cell := CellAt(x, y);
      if cell.Some? {
        cells := cells[cell.value := cells[cell.value].(ids := PushNew(cells[cell.value].ids, id))];
      }
    }

    /** Follow an object that cell `k` lists to wherever it is now. */
    method Track(k: nat, id: nat, x: real, y: real) returns (cell: Option<nat>)
      requires Built() && k < |cells|
      modifies this`cells
      ensures Built() && cell == GetCell(Shape(), x, y) && |Ids()| == |cells| == old(|cells|)
      ensures Ids() == Tracked(Shape(), old(Ids()), k, id, x, y)
    {
      CellHolds(k, x, y);
      CellsPartitionGrid(Shape(), x, y, k);
      if cells[k].Contains(x, y) {
        return Some(k);
      }
      cell := CellAt(x, y);
      if cell.Some? {
        cells := cells[cell.value := cells[cell.value].(ids := cells[cell.value].ids + [id])];
      }
      cells := cells[k := cells[k].(ids := RemoveFirst(cells[k].ids, id))];
    }
  }
}
