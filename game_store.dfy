/**
 * The structure grid store of app/store/useGameStore.ts: a grid of optional
 * structure ids, replaced wholesale by `setStructures` and by a fresh copy
 * with one or two cells assigned by `addStructure`, `removeStructure` and
 * `moveStructure`.
 *
 * Rows are JavaScript arrays: reading past the end of a row gives
 * `undefined` (here `None`), and assigning past the end lengthens the row,
 * filling the gap with holes that read as `undefined`.
 */
module GameStore {
  import opened Basics

  /** A cell holds a structure id, or nothing. */
  type Cell = Option<int>

  /** Rows of cells, indexed `grid[y][x]`. */
  type Grid = seq<seq<Cell>>

  /** `row[x]`: `undefined` outside the row. */
  function RowAt(row: seq<Cell>, x: int): (c: Cell)
    ensures 0 <= x < |row| ==> c == row[x]
    ensures c.Some? ==> 0 <= x < |row|
  {
    if 0 <= x < |row| then row[x] else None
  }

  /** `grid[y][x]` for a cell of any coordinates; `None` outside the grid. */
  function At(g: Grid, x: int, y: int): (c: Cell)
    ensures 0 <= y < |g| && 0 <= x < |g[y]| ==> c == g[y][x]
    ensures c.Some? ==> 0 <= y < |g| && 0 <= x < |g[y]|
  {
    if 0 <= y < |g| then RowAt(g[y], x) else None
  }

  /** The array assignment `row[x] = v` on a copy of the row. */
  function SetInRow(row: seq<Cell>, x: nat, v: Cell): (r: seq<Cell>)
    ensures |r| == if x < |row| then |row| else x + 1
    ensures forall i :: RowAt(r, i) == if i == x then v else RowAt(row, i)
  {
    if x < |row| then row[x := v] else row + seq(x - |row|, _ => None) + [v]
  }

  /** `grid[y][x] = v` on a copy of the grid; `grid[y]` must exist. */
  function SetCell(g: Grid, x: nat, y: nat, v: Cell): (r: Grid)
    requires y < |g|
    ensures |r| == |g|
    ensures forall j :: 0 <= j < |g| && j != y ==> r[j] == g[j]
    ensures forall i, j :: At(r, i, j) == if i == x && j == y then v else At(g, i, j)
  {
    g[y := SetInRow(g[y], x, v)]
  }

  /**
   * The collision check of `moveStructure`: the destination lies inside the
   * grid (its column bounded by the length of row 0) and is empty.
   */
  predicate DestinationFree(g: Grid, to: Coord)
  {
    0 <= to.0 && 0 <= to.1 && to.1 < |g| && to.0 < |g[0]| && At(g, to.0, to.1) == None
  }

  /** The source cell can be read and cleared without a TypeError. */
  predicate SourceReadable(g: Grid, from: Coord)
  {
    0 <= from.0 && 0 <= from.1 < |g|
  }

  datatype MoveResult = MoveResult(grid: Grid, moved: bool)

  /**
   * `moveStructure(from, to)`: rejected, with the grid untouched, unless the
   * destination is free; otherwise the destination receives the source's
   * occupant and the source is cleared. The source is never bounds-checked:
   * it only has to be readable once the destination has been accepted.
   */
  function Move(g: Grid, from: Coord, to: Coord): (r: MoveResult)
    requires DestinationFree(g, to) ==> SourceReadable(g, from)
    ensures r.moved <==> DestinationFree(g, to)
    ensures !r.moved ==> r.grid == g
    ensures r.moved ==> |r.grid| == |g|
    ensures r.moved ==> At(r.grid, to.0, to.1) == At(g, from.0, from.1)
    ensures r.moved ==> At(r.grid, from.0, from.1) == None
    ensures r.moved ==> forall i, j :: (i, j) != from && (i, j) != to ==> At(r.grid, i, j) == At(g, i, j)
  {
    if !DestinationFree(g, to) then MoveResult(g, false)
    else
      var placed := SetCell(g, to.0, to.1, At(g, from.0, from.1));
      MoveResult(SetCell(placed, from.0, from.1, None), true)
  }

  /** All rows of `g` have `cols` cells, and there are `rows` of them. */
  predicate Rectangular(g: Grid, rows: nat, cols: nat)
  {
    |g| == rows && forall j :: 0 <= j < |g| ==> |g[j]| == cols
  }

  /** The occupant of a cell, as a multiset of zero or one ids. */
  function Occupant(c: Cell): multiset<int>
  {
    match c
    case None => multiset{}
    case Some(id) => multiset{id}
  }

  function RowOccupants(row: seq<Cell>): multiset<int>
  {
    if |row| == 0 then multiset{} else Occupant(row[0]) + RowOccupants(row[1..])
  }

  /** The ids of all structures on the grid, with multiplicity. */
  function Occupants(g: Grid): multiset<int>
  {
    if |g| == 0 then multiset{} else RowOccupants(g[0]) + Occupants(g[1..])
  }

  lemma {:induction false} RowOccupantsAppend(a: seq<Cell>, b: seq<Cell>)
    ensures RowOccupants(a + b) == RowOccupants(a) + RowOccupants(b)
  {
    if a == [] {
      assert a + b == b;
    } else {
      assert (a + b)[1..] == a[1..] + b;
      RowOccupantsAppend(a[1..], b);
    }
  }

  lemma {:induction false} RowOccupantsOfHoles(n: nat)
    ensures RowOccupants(seq(n, _ => None)) == multiset{}
  {
    if n > 0 {
      var holes: seq<Cell> := seq(n, _ => None);
      assert holes[1..] == seq(n - 1, _ => None);
      RowOccupantsOfHoles(n - 1);
    }
  }

  lemma RowOccupantsUpdate(row: seq<Cell>, x: nat, v: Cell)
    requires x < |row|
    ensures RowOccupants(row[x := v]) + Occupant(row[x]) == RowOccupants(row) + Occupant(v)
  {
    var pre, post := row[..x], row[x + 1..];
    assert row == (pre + [row[x]]) + post;
    assert row[x := v] == (pre + [v]) + post;
    RowOccupantsAppend(pre + [row[x]], post);
    RowOccupantsAppend(pre, [row[x]]);
    RowOccupantsAppend(pre + [v], post);
    RowOccupantsAppend(pre, [v]);
    assert RowOccupants([v]) == Occupant(v) by { assert [v][1..] == []; }
    assert RowOccupants([row[x]]) == Occupant(row[x]) by { assert [row[x]][1..] == []; }
  }

  /** Assigning one cell of a row swaps that cell's occupant for the new one. */
  lemma RowOccupantsSetInRow(row: seq<Cell>, x: nat, v: Cell)
    ensures RowOccupants(SetInRow(row, x, v)) + Occupant(RowAt(row, x)) == RowOccupants(row) + Occupant(v)
  {
    if x < |row| {
      assert SetInRow(row, x, v) == row[x := v];
      RowOccupantsUpdate(row, x, v);
    } else {
      var holes: seq<Cell> := seq(x - |row|, _ => None);
      assert SetInRow(row, x, v) == (row + holes) + [v];
      RowOccupantsAppend(row + holes, [v]);
      RowOccupantsAppend(row, holes);
      RowOccupantsOfHoles(x - |row|);
      assert RowOccupants([v]) == Occupant(v) by {
        assert [v][1..] == [];
      }
    }
  }

  /** Replacing one row of the grid swaps that row's occupants for the new row's. */
  lemma {:induction false} OccupantsReplaceRow(g: Grid, y: nat, row: seq<Cell>)
    requires y < |g|
    ensures Occupants(g[y := row]) + RowOccupants(g[y]) == Occupants(g) + RowOccupants(row)
  {
    var h := g[y := row];
    assert Occupants(h) == RowOccupants(h[0]) + Occupants(h[1..]);
    assert Occupants(g) == RowOccupants(g[0]) + Occupants(g[1..]);
    if y > 0 {
      assert h[0] == g[0];
      assert h[1..] == g[1..][y - 1 := row];
      OccupantsReplaceRow(g[1..], y - 1, row);
      calc {
        Occupants(h) + RowOccupants(g[y]);
        (RowOccupants(g[0]) + Occupants(g[1..][y - 1 := row])) + RowOccupants(g[1..][y - 1]);
        RowOccupants(g[0]) + (Occupants(g[1..][y - 1 := row]) + RowOccupants(g[1..][y - 1]));
        RowOccupants(g[0]) + (Occupants(g[1..]) + RowOccupants(row));
        Occupants(g) + RowOccupants(row);
      }
    } else {
      assert h[1..] == g[1..];
    }
  }

  /** Assigning one cell of the grid swaps that cell's occupant for the new one. */
  lemma SetCellOccupants(g: Grid, x: nat, y: nat, v: Cell)
    requires y < |g|
    ensures Occupants(SetCell(g, x, y, v)) + Occupant(At(g, x, y)) == Occupants(g) + Occupant(v)
  {
    var row := SetInRow(g[y], x, v);
    assert SetCell(g, x, y, v) == g[y := row];
    assert At(g, x, y) == RowAt(g[y], x);
    var before, after := Occupants(g), Occupants(g[y := row]);
    OccupantsReplaceRow(g, y, row);
    RowOccupantsSetInRow(g[y], x, v);
    calc {
      (after + Occupant(At(g, x, y))) + RowOccupants(g[y]);
      (after + RowOccupants(g[y])) + Occupant(At(g, x, y));
      (before + RowOccupants(row)) + Occupant(RowAt(g[y], x));
      before + (RowOccupants(row) + Occupant(RowAt(g[y], x)));
      before + (RowOccupants(g[y]) + Occupant(v));
      (before + Occupant(v)) + RowOccupants(g[y]);
    }
    CancelUnion(after + Occupant(At(g, x, y)), before + Occupant(v), RowOccupants(g[y]));
  }

  lemma CancelUnion(a: multiset<int>, b: multiset<int>, c: multiset<int>)
    requires a + c == b + c
    ensures a == b
  {
    assert forall z :: a[z] == (a + c)[z] - c[z];
  }

  /**
   * A move never creates, destroys or changes a structure: the ids on the
   * grid, and so the number of occupied cells, are the same afterwards.
   */
  lemma MovePreservesOccupants(g: Grid, from: Coord, to: Coord)
    requires DestinationFree(g, to) ==> SourceReadable(g, from)
    ensures Occupants(Move(g, from, to).grid) == Occupants(g)
    ensures |Occupants(Move(g, from, to).grid)| == |Occupants(g)|
  {
    if DestinationFree(g, to) {
      var v := At(g, from.0, from.1);
      var placed := SetCell(g, to.0, to.1, v);
      var moved := SetCell(placed, from.0, from.1, None);
      assert Move(g, from, to).grid == moved;
      SetCellOccupants(g, to.0, to.1, v);
      SetCellOccupants(placed, from.0, from.1, None);
      assert At(placed, from.0, from.1) == v;
      assert Occupants(moved) + Occupant(v) == Occupants(placed) + multiset{};
      assert Occupants(placed) + multiset{} == Occupants(g) + Occupant(v);
      CancelUnion(Occupants(moved), Occupants(g), Occupant(v));
    }
  }

  /** Moving an occupied cell onto itself is rejected: the occupancy check comes first. */
  lemma SelfMoveRejected(g: Grid, c: Coord)
    requires At(g, c.0, c.1) != None
    ensures !Move(g, c, c).moved && Move(g, c, c).grid == g
  {
  }

  /** On the initial, empty store every move is rejected. */
  lemma EmptyStoreRejectsEveryMove(from: Coord, to: Coord)
    ensures !Move([], from, to).moved && Move([], from, to).grid == []
  {
  }

  /** Removing twice is removing once. */
  lemma RemoveIdempotent(g: Grid, x: nat, y: nat)
    requires y < |g|
    ensures SetCell(SetCell(g, x, y, None), x, y, None) == SetCell(g, x, y, None)
  {
    var once := SetCell(g, x, y, None);
    assert SetInRow(once[y], x, None) == once[y];
  }

  /** Removing from an empty cell inside its row leaves the grid as it was. */
  lemma RemoveEmptyIsNoop(g: Grid, x: nat, y: nat)
    requires y < |g| && x < |g[y]| && At(g, x, y) == None
    ensures SetCell(g, x, y, None) == g
  {
    assert SetInRow(g[y], x, None) == g[y];
  }

  /** Assigning a cell inside the grid keeps it rectangular. */
  lemma SetCellKeepsShape(g: Grid, rows: nat, cols: nat, x: nat, y: nat, v: Cell)
    requires Rectangular(g, rows, cols) && y < rows && x < cols
    ensures Rectangular(SetCell(g, x, y, v), rows, cols)
  {
  }

  /** A move between cells of a rectangular grid keeps it rectangular. */
  lemma MoveKeepsShape(g: Grid, rows: nat, cols: nat, from: Coord, to: Coord)
    requires Rectangular(g, rows, cols)
    requires 0 <= from.0 < cols && 0 <= from.1 < rows
    ensures Rectangular(Move(g, from, to).grid, rows, cols)
  {
    if DestinationFree(g, to) {
      SetCellKeepsShape(g, rows, cols, to.0, to.1, At(g, from.0, from.1));
      SetCellKeepsShape(SetCell(g, to.0, to.1, At(g, from.0, from.1)), rows, cols, from.0, from.1, None);
    }
  }

  /** The store: one grid, replaced by a new grid on every action. */
  class Store {
    var structures: Grid

    /** The store starts with a grid of no rows; the composer initialises it. */
    constructor ()
      ensures structures == []
    {
      structures := [];
    }

    method SetStructures(s: Grid)
      modifies this
      ensures structures == s
    {
      structures := s;
    }

    /** Places `id` at (x, y), overwriting any occupant. */
    method AddStructure(x: int, y: int, id: int)
      requires 0 <= x && 0 <= y < |structures|
      modifies this
      ensures structures == SetCell(old(structures), x, y, Some(id))
      ensures At(structures, x, y) == Some(id)
      ensures forall i, j :: (i, j) != (x, y) ==> At(structures, i, j) == At(old(structures), i, j)
    {
      var grid := structures;
      grid := SetCell(grid, x, y, Some(id));
      structures := grid;
    }

    /** Empties (x, y). */
    method RemoveStructure(x: int, y: int)
      requires 0 <= x && 0 <= y < |structures|
      modifies this
      ensures structures == SetCell(old(structures), x, y, None)
      ensures At(structures, x, y) == None
      ensures forall i, j :: (i, j) != (x, y) ==> At(structures, i, j) == At(old(structures), i, j)
    {
      var grid := structures;
      grid := SetCell(grid, x, y, None);
      structures := grid;
    }

    /** Moves the occupant of `from` to `to`; false, and nothing changes, when `to` is not free. */
    method MoveStructure(from: Coord, to: Coord) returns (ok: bool)
      requires DestinationFree(structures, to) ==> SourceReadable(structures, from)
      modifies this
      ensures ok == Move(old(structures), from, to).moved
      ensures structures == Move(old(structures), from, to).grid
    {
      var (fromX, fromY) := from;
      var (toX, toY) := to;
      if toX < 0 || toY < 0 || toY >= |structures| || toX >= |structures[0]| || At(structures, toX, toY) != None {
        return false;
      }
      var grid := structures;
      grid := SetCell(grid, toX, toY, At(grid, fromX, fromY));
      grid := SetCell(grid, fromX, fromY, None);
      structures := grid;
      return true;
    }
  }
}
