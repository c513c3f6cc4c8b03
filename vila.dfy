/**
 * The map composer of app/components/Vila.tsx: it sizes and initialises the
 * store's grid, places the selected structure on a clicked tile, and lays
 * out one sprite per occupied cell.
 */
module Vila {
  import opened Basics
  import opened Iso
  import opened GameStore
  import opened StructureDrag

  /** Grid side: 3 on a narrow viewport, 7 otherwise. */
  function GridSize(isMobile: bool): (n: nat)
    ensures n == 3 || n == 7
    ensures n == 3 <==> isMobile
  {
    if isMobile then 3 else 7
  }

  /** `createEmptyGrid(r, c)`: r rows of c empty cells. */
  function CreateEmptyGrid(r: nat, c: nat): (g: Grid)
    ensures Rectangular(g, r, c)
    ensures forall i, j :: At(g, i, j) == None
  {
    seq(r, _ => seq(c, _ => None))
  }

  /** A fresh grid holds no structures. */
  lemma {:induction false} EmptyGridHasNoOccupants(r: nat, c: nat)
    ensures Occupants(CreateEmptyGrid(r, c)) == multiset{}
  {
    if r > 0 {
      var g := CreateEmptyGrid(r, c);
      assert g[0] == seq(c, _ => None);
      RowOccupantsOfHoles(c);
      assert g[1..] == CreateEmptyGrid(r - 1, c);
      EmptyGridHasNoOccupants(r - 1, c);
    }
  }

  /** The props of one rendered `Structure`. */
  datatype Placement = Placement(tileX: int, tileY: int, x: int, y: int, structureId: int)

  /** A structure sprite placed for cell (tx, ty) holding `id`. */
  predicate PlacedAt(p: Placement, g: Grid, tx: int, ty: int)
  {
    && p.tileX == tx && p.tileY == ty
    && At(g, tx, ty) == Some(p.structureId)
    && p.x == IsoX(tx, ty) && p.y == IsoY(tx, ty) - StructureYOffset
  }

  /** The sprites for the occupied cells `row[tx..]` of row `ty`, one per cell, left to right. */
  function RowPlacements(g: Grid, ty: nat, tx: nat): (ps: seq<Placement>)
    requires ty < |g|
    ensures forall p :: p in ps ==> tx <= p.tileX < |g[ty]| && PlacedAt(p, g, p.tileX, ty)
    ensures forall i :: tx <= i < |g[ty]| && g[ty][i].Some? ==>
      Placement(i, ty, IsoX(i, ty), IsoY(i, ty) - StructureYOffset, g[ty][i].value) in ps
    ensures forall a, b :: 0 <= a < b < |ps| ==> ps[a].tileX < ps[b].tileX
    decreases |g[ty]| - tx
  {
    if tx >= |g[ty]| then []
    else
      var rest := RowPlacements(g, ty, tx + 1);
      match g[ty][tx]
      case None => rest
      case Some(id) => [Placement(tx, ty, IsoX(tx, ty), IsoY(tx, ty) - StructureYOffset, id)] + rest
  }

  /** The sprites for the occupied cells of rows `ty..`, one per cell, row by row. */
  function Placements(g: Grid, ty: nat): (ps: seq<Placement>)
    ensures forall p :: p in ps ==> ty <= p.tileY < |g| && 0 <= p.tileX && PlacedAt(p, g, p.tileX, p.tileY)
    ensures forall i, j :: ty <= j < |g| && 0 <= i < |g[j]| && g[j][i].Some? ==>
      Placement(i, j, IsoX(i, j), IsoY(i, j) - StructureYOffset, g[j][i].value) in ps
    ensures forall a, b :: 0 <= a < b < |ps| ==>
      ps[a].tileY < ps[b].tileY || (ps[a].tileY == ps[b].tileY && ps[a].tileX < ps[b].tileX)
    ensures forall a, b :: 0 <= a < b < |ps| ==> (ps[a].tileX, ps[a].tileY) != (ps[b].tileX, ps[b].tileY)
    decreases |g| - ty
  {
    if ty >= |g| then [] else RowPlacements(g, ty, 0) + Placements(g, ty + 1)
  }

  /**
   * Every rendered sprite stands on the cell it was rendered for: dropping
   * it where it is names its own tile.
   */
  lemma PlacementsStandOnTheirTiles(g: Grid)
    ensures forall p :: p in Placements(g, 0) ==> DropCell(Pixel(p.x as real, p.y as real)) == (p.tileX, p.tileY)
  {
    forall p | p in Placements(g, 0)
      ensures DropCell(Pixel(p.x as real, p.y as real)) == (p.tileX, p.tileY)
    {
      DropCellOfSprite(p.tileX, p.tileY);
    }
  }

  /**
   * Pressing and releasing a rendered sprite without moving it leaves the
   * grid as it is: the drop names the sprite's own, occupied tile.
   */
  lemma ReleasingUnmovedSpriteKeepsGrid(g: Grid, p: Placement)
    requires p in Placements(g, 0)
    ensures !Move(g, (p.tileX, p.tileY), DropCell(Pixel(p.x as real, p.y as real))).moved
    ensures Move(g, (p.tileX, p.tileY), DropCell(Pixel(p.x as real, p.y as real))).grid == g
  {
    assert Pixel(p.x as real, p.y as real) == SpriteAt(p.tileX, p.tileY);
    ReleaseInPlaceReverts(g, p.tileX, p.tileY);
  }

  /** The map: the shared store, the viewport class and the selected structure id. */
  class Map {
    const store: Store
    const isMobile: bool
    var selected: Option<int>

    constructor (store: Store, isMobile: bool)
      ensures this.store == store && this.isMobile == isMobile && selected == None
    {
      this.store, this.isMobile := store, isMobile;
      selected := None;
    }

    /** Mount: the store gets a fresh size-by-size grid, discarding any placements. */
    method Mount()
      modifies store
      ensures store.structures == CreateEmptyGrid(GridSize(isMobile), GridSize(isMobile))
      ensures Rectangular(store.structures, GridSize(isMobile), GridSize(isMobile))
    {
      var size := if isMobile then 3 else 7;
      store.SetStructures(CreateEmptyGrid(size, size));
    }

    /** A toolbar click selects `id`. */
    method Select(id: int)
      modifies this
      ensures selected == Some(id)
    {
      selected := Some(id);
    }

    /**
     * A click on tile (tx, ty): with a selection (id 0 included) the id is
     * placed there, overwriting any occupant, and the selection is cleared;
     * without one nothing happens.
     */
    method HandleTileClick(tx: int, ty: int)
      requires 0 <= ty < |store.structures| && 0 <= tx < |store.structures[ty]|
      modifies this, store
      ensures old(selected).Some? ==> store.structures == SetCell(old(store.structures), tx, ty, old(selected))
      ensures old(selected).None? ==> store.structures == old(store.structures)
      ensures selected == None
    {
      if selected != None {
        store.AddStructure(tx, ty, selected.value);
        selected := None;
      }
    }
  }
}
