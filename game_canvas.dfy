/**
 * The earlier composer of app/components/GameCanvas.tsx. It keeps its own
 * structure and house grids as component state; its handlers copy the outer
 * array but assign into the existing row arrays, so the previous grid value
 * shares, and sees, every change.
 */
module GameCanvas {
  import opened Basics
  import opened GameStore

  /** Each row is a mutable array shared by every copy of the outer array. */
  type Rows = seq<array<Cell>>

  /** `createEmptyGrid(rows, cols)`: fresh, distinct row arrays, every cell empty. */
  method CreateEmptyGrid(rows: nat, cols: nat) returns (g: Rows)
    ensures |g| == rows
    ensures forall j :: 0 <= j < rows ==> fresh(g[j]) && g[j].Length == cols
    ensures forall j, k :: 0 <= j < k < rows ==> g[j] != g[k]
    ensures forall j, i :: 0 <= j < rows && 0 <= i < cols ==> g[j][i] == None
  {
    g := [];
    while |g| < rows
      invariant |g| <= rows
      invariant forall j :: 0 <= j < |g| ==> fresh(g[j]) && g[j].Length == cols
      invariant forall j, k :: 0 <= j < k < |g| ==> g[j] != g[k]
      invariant forall j, i :: 0 <= j < |g| && 0 <= i < cols ==> g[j][i] == None
    {
      var row := new Cell[cols](_ => None);
      g := g + [row];
    }
  }

  class Map {
    const size: nat
    var structures: Rows
    var houses: Rows
    var selected: Option<int>

    /** Every row array is size long and none is shared between rows or grids. */
    ghost predicate Valid()
      reads this
    {
      && size > 0
      && |structures| == size && |houses| == size
      && (forall j :: 0 <= j < size ==> structures[j].Length == size && houses[j].Length == size)
      && (forall j, k :: 0 <= j < k < size ==> structures[j] != structures[k] && houses[j] != houses[k])
      && (forall j, k :: 0 <= j < size && 0 <= k < size ==> structures[j] != houses[k])
    }

    /** Both grids start size-by-size and empty; nothing is selected. */
    constructor (isMobile: bool)
      ensures Valid()
      ensures forall j :: 0 <= j < size ==> fresh(structures[j]) && fresh(houses[j])
      ensures size == if isMobile then 3 else 7
      ensures forall j, i :: 0 <= j < size && 0 <= i < size ==> structures[j][i] == None && houses[j][i] == None
      ensures selected == None
    {
      var n := if isMobile then 3 else 7;
      size := n;
      var s := CreateEmptyGrid(n, n);
      var h := CreateEmptyGrid(n, n);
      structures, houses := s, h;
      selected := None;
    }

    /** The mount effect: house 1 at cell (0, 0), written into the existing first row. */
    method MountHouses()
      requires Valid()
      modifies houses[0]
      ensures Valid()
      ensures houses[0][0] == Some(1)
      ensures forall j, i :: 0 <= j < size && 0 <= i < size && (j, i) != (0, 0) ==> houses[j][i] == old(houses[j][i])
      ensures forall j, i :: 0 <= j < size && 0 <= i < size ==> structures[j][i] == old(structures[j][i])
    {
      var newHouses := houses;
      newHouses[0][0] := Some(1);
    }

    /** A toolbar click selects `id`. */
    method Select(id: int)
      modifies this
      ensures selected == Some(id) && structures == old(structures) && houses == old(houses)
    {
      selected := Some(id);
    }

    /**
     * A click on tile (x, y) places the selection only when it is truthy:
     * neither nothing nor id 0 is ever placed, and then the selection stays.
     * The row array is assigned in place.
     */
    method HandleTileClick(x: int, y: int)
      requires Valid() && 0 <= x < size && 0 <= y < size
      modifies this, structures[y]
      ensures Valid() && structures == old(structures) && houses == old(houses)
      ensures var placed := old(selected).Some? && old(selected).value != 0;
        && selected == (if placed then None else old(selected))
        && forall j, i :: 0 <= j < size && 0 <= i < size ==>
             structures[j][i] == (if placed && (j, i) == (y, x) then old(selected) else old(structures[j][i]))
      ensures forall j, i :: 0 <= j < size && 0 <= i < size ==> houses[j][i] == old(houses[j][i])
    {
      if selected.Some? && selected.value != 0 {
        var newStructures := structures;
        newStructures[y][x] := selected;
        selected := None;
      }
    }

    /**
     * Removing the structure at (x, y) empties that cell of the existing row
     * array: the grid before the call holds the same row objects and so
     * shows the removal too.
     */
    method HandleStructureRemove(x: int, y: int)
      requires Valid() && 0 <= x < size && 0 <= y < size
      modifies structures[y]
      ensures Valid() && structures == old(structures)
      ensures structures[y][x] == None
      ensures forall j, i :: 0 <= j < size && 0 <= i < size && (j, i) != (y, x) ==> structures[j][i] == old(structures[j][i])
      ensures forall j, i :: 0 <= j < size && 0 <= i < size ==> houses[j][i] == old(houses[j][i])
    {
      var newStructures := structures;
      newStructures[y][x] := None;
    }
  }

  /**
   * A session on a fresh map: the house effect, an id-0 selection that the
   * truthiness test refuses, a real placement, then its removal.
   */
  method SessionScenario()
  {
    var m := new Map(false);
    m.MountHouses();
    assert m.houses[0][0] == Some(1);
    m.Select(0);
    m.HandleTileClick(1, 1);
    assert m.structures[1][1] == None && m.selected == Some(0);
    m.Select(4);
    m.HandleTileClick(1, 1);
    assert m.structures[1][1] == Some(4) && m.selected == None;
    m.HandleStructureRemove(1, 1);
    assert m.structures[1][1] == None && m.houses[0][0] == Some(1);
  }
}
