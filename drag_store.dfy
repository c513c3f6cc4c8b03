/**
 * The shared drag state of app/store/useDragStore.ts: whether a drag is in
 * progress and which tile the dragged sprite hovers over.
 */
module DragStore {
  import opened Basics

  class DragState {
    var isDragging: bool
    var hoveredTile: Option<Coord>

    /** No drag, no hovered tile. */
    constructor ()
      ensures !isDragging && hoveredTile == None
    {
      isDragging := false;
      hoveredTile := None;
    }

    method SetDragging(v: bool)
      modifies this
      ensures isDragging == v
      ensures hoveredTile == old(hoveredTile)
    {
      isDragging := v;
    }

    /** `t` may be `None`, which clears the hovered tile. */
    method SetHoveredTile(t: Option<Coord>)
      modifies this
      ensures hoveredTile == t
      ensures isDragging == old(isDragging)
    {
      hoveredTile := t;
    }
  }
}
