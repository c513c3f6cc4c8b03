/**
 * The drag handlers of app/components/Structure.tsx: a placed structure's
 * sprite follows the pointer, publishes the tile it hovers over, and on
 * release asks the store to move the structure there, snapping to the new
 * tile or reverting to where it started.
 *
 * The pointer-to-sprite offset and scale arithmetic is not modelled: a drag
 * move receives the sprite position it computes.
 */
module StructureDrag {
  import opened Basics
  import opened Iso
  import opened GameStore
  import opened DragStore

  /** A sprite position in pixels. */
  datatype Pixel = Pixel(x: real, y: real)

  /** The grid cell under a sprite whose base is at `p`. */
  function DropCell(p: Pixel): Coord
  {
    Uniso(p.x, p.y + StructureYOffset as real)
  }

  /** Where a sprite for cell (c, r) is drawn. */
  function SpriteAt(c: int, r: int): Pixel
  {
    Pixel(IsoX(c, r) as real, (IsoY(c, r) - StructureYOffset) as real)
  }

  /** A sprite drawn for a cell stands on that cell. */
  lemma DropCellOfSprite(c: int, r: int)
    ensures DropCell(SpriteAt(c, r)) == (c, r)
  {
    SnapRoundTrip(c, r);
  }

  /** One rendered structure: its props, its position state and its drag flag. */
  class Sprite {
    const tileX: int
    const tileY: int
    const initialX: real
    const initialY: real
    const drag: DragState
    const game: Store
    var pos: Pixel
    var dragging: bool

    constructor (tileX: int, tileY: int, x: real, y: real, drag: DragState, game: Store)
      ensures this.tileX == tileX && this.tileY == tileY
      ensures initialX == x && initialY == y
      ensures this.drag == drag && this.game == game
      ensures pos == Pixel(x, y) && !dragging
    {
      this.tileX, this.tileY := tileX, tileY;
      initialX, initialY := x, y;
      this.drag, this.game := drag, game;
      pos := Pixel(x, y);
      dragging := false;
    }

    /** Pointer down: the drag begins; the hovered tile is left as it was. */
    method OnDragStart()
      modifies this, drag
      ensures dragging && drag.isDragging
      ensures drag.hoveredTile == old(drag.hoveredTile)
      ensures pos == old(pos)
    {
      dragging := true;
      drag.SetDragging(true);
    }

    /**
     * Pointer move to sprite position `p`: ignored unless dragging; otherwise
     * the sprite follows and the tile under it becomes the hovered tile.
     * The grid is never touched.
     */
    method OnDragMove(p: Pixel)
      modifies this, drag
      ensures dragging == old(dragging)
      ensures drag.isDragging == old(drag.isDragging)
      ensures old(dragging) ==> pos == p && drag.hoveredTile == Some(DropCell(p))
      ensures !old(dragging) ==> pos == old(pos) && drag.hoveredTile == old(drag.hoveredTile)
      ensures game.structures == old(game.structures)
    {
      if !dragging {
        return;
      }
      pos := p;
      var (tx, ty) := Uniso(p.x, p.y + StructureYOffset as real);
      drag.SetHoveredTile(Some((tx, ty)));
    }

    /**
     * Pointer up (inside or outside the canvas): the drag state is cleared
     * whatever happens; the store is asked to move the structure from its
     * tile to the tile under the sprite; on success the sprite snaps to that
     * tile, otherwise it returns exactly to its initial position.
     * The sprite's own tile lies in the grid, or the grid has no rows at
     * all (then every move is refused before the tile is read).
     */
    method OnDragEnd() returns (success: bool)
      requires |game.structures| == 0 || SourceReadable(game.structures, (tileX, tileY))
      modifies this, drag, game
      ensures !dragging && !drag.isDragging && drag.hoveredTile == None
      ensures success == Move(old(game.structures), (tileX, tileY), DropCell(old(pos))).moved
      ensures game.structures == Move(old(game.structures), (tileX, tileY), DropCell(old(pos))).grid
      ensures success ==> pos == SpriteAt(DropCell(old(pos)).0, DropCell(old(pos)).1)
      ensures success ==> DropCell(pos) == DropCell(old(pos))
      ensures !success ==> pos == Pixel(initialX, initialY) && game.structures == old(game.structures)
    {
      dragging := false;
      drag.SetDragging(false);
      drag.SetHoveredTile(None);
      var (nx, ny) := Uniso(pos.x, pos.y + StructureYOffset as real);
      success := game.MoveStructure((tileX, tileY), (nx, ny));
      if success {
        pos := Pixel(IsoX(nx, ny) as real, (IsoY(nx, ny) - StructureYOffset) as real);
        DropCellOfSprite(nx, ny);
      } else {
        pos := Pixel(initialX, initialY);
      }
    }
  }

  /**
   * Releasing a sprite that has not moved off its own occupied tile is a
   * rejected self-move: the grid is unchanged and the sprite stays put.
   */
  lemma ReleaseInPlaceReverts(g: Grid, c: int, r: int)
    requires At(g, c, r) != None
    ensures !Move(g, (c, r), DropCell(SpriteAt(c, r))).moved
    ensures Move(g, (c, r), DropCell(SpriteAt(c, r))).grid == g
  {
    DropCellOfSprite(c, r);
    SelfMoveRejected(g, (c, r));
  }

  /**
   * A whole gesture on a 3x3 grid holding 7 at (0, 0): dragged onto the
   * centre of (1, 0) the structure moves and the sprite snaps there; when
   * (1, 0) already holds 5 the move is refused and the sprite goes back.
   */
  method DragGestureScenario(occupied: bool)
  {
    var row0: seq<Cell> := [Some(7), if occupied then Some(5) else None, None];
    var game := new Store();
    game.SetStructures([row0, [None, None, None], [None, None, None]]);
    var drag := new DragState();
    var start := SpriteAt(0, 0);
    var sprite := new Sprite(0, 0, start.x, start.y, drag, game);
    sprite.OnDragStart();
    sprite.OnDragMove(SpriteAt(1, 0));
    DropCellOfSprite(1, 0);
    assert drag.hoveredTile == Some((1, 0));
    var ok := sprite.OnDragEnd();
    assert !drag.isDragging && drag.hoveredTile == None;
    if occupied {
      assert !ok && sprite.pos == start;
      assert At(game.structures, 0, 0) == Some(7) && At(game.structures, 1, 0) == Some(5);
    } else {
      assert ok && sprite.pos == SpriteAt(1, 0);
      assert At(game.structures, 1, 0) == Some(7) && At(game.structures, 0, 0) == None;
    }
  }
}
