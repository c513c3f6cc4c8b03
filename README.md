# Isometric structure grid — a Dafny model

This project models the logic of a small isometric city-building UI: a
rectangular grid of optional structure (sprite) ids kept in a shared store,
the isometric mapping between grid cells and pixels, the drag-and-drop of a
placed structure from one cell to another, and the two map composers that
initialise the grid and place the toolbar's selection on a clicked tile.

- `basics.dfy` — `Option` and the `[x, y]` coordinate pair.
- `iso.dfy` (module `Iso`) — `isoX`, `isoY` and `uniso` of
  `app/components/Structure.tsx`. `uniso` is modelled over `real`, with
  `Math.round` as `Floor(v + 1/2)`, which rounds halves upwards as
  `Math.round` does. The pixel centre of every cell maps back to that cell.
- `game_store.dfy` (module `GameStore`) — the store of
  `app/store/useGameStore.ts`, as a class `Store` whose `structures` field
  each action replaces, specified by the functions `SetCell` and `Move` on
  grid values. Rows behave like JavaScript arrays. A read past a row's end
  gives `undefined` (`None`). A write past a row's end lengthens the row, and
  the gap reads as `undefined`. Only `moveStructure` validates anything: it
  rejects a destination outside the grid or already occupied, with the grid
  untouched, and otherwise moves the source's occupant and clears the
  source. The ids on the grid, as a multiset, are preserved by every move.
- `drag_store.dfy` (module `DragStore`) — `isDragging` / `hoveredTile` of
  `app/store/useDragStore.ts` and their setters.
- `structure_drag.dfy` (module `StructureDrag`) — the drag handlers of
  `Structure.tsx` as a class `Sprite`: a drag move publishes the hovered cell
  without touching the grid. A drag end always clears the drag state and
  asks the store for the move. It then either snaps the sprite to the new
  cell or returns it exactly to its initial props.
  `StructureDrag.DragGestureScenario` walks through the whole gesture on a
  3×3 grid, with a free and with an occupied target, and its assertions
  verify.
- `vila.dfy` (module `Vila`) — `app/components/Vila.tsx`: the size-by-size
  empty grid (3 on a narrow viewport, 7 otherwise), click-to-place with a
  `!== null` test (so id 0 can be placed), and the sprite for each occupied
  cell, which always stands on its own cell.
- `game_canvas.dfy` (module `GameCanvas`) — `app/components/GameCanvas.tsx`,
  the other composer. Its grids are component state whose rows are arrays.
  Its handlers copy the outer array but assign into the existing rows, so the
  rows are `array`s here and the grid before a call sees the change. Its
  click handler tests the selection for truthiness, so neither `null` nor
  id 0 is ever placed, and an id-0 selection stays selected.
  `GameCanvas.SessionScenario` walks through a session on a fresh map (the
  house effect, a refused id-0 click, a placement, a removal), and its
  assertions verify.

Three behaviours of the code that are easy to assume otherwise:

- A self-move of an occupied cell is rejected, not a trivial success. The
  occupancy check on the destination runs before the source is cleared
  (`GameStore.SelfMoveRejected`). A self-move of an empty cell succeeds and
  changes nothing. So releasing a sprite that was never moved off its tile
  leaves the grid alone (`Vila.ReleasingUnmovedSpriteKeepsGrid`).
- A drag start only raises the dragging flag; it does not publish a hovered
  tile.
- `GameCanvas.tsx` renders its structures without `tileX`/`tileY`. Its drags
  therefore ask the shared store, which nothing there initialises (it stays
  `[]`), to move them, and every such move is rejected
  (`GameStore.EmptyStoreRejectsEveryMove`).

## Model

| member | source | states |
|---|---|---|
| `Iso.IsoX` | app/components/Structure.tsx:18-23 | the pixel x of cell (x, y) is (x − y)·109, half of the 218-pixel tile width per step |
| `Iso.IsoY` | app/components/Structure.tsx:19-24 | the pixel y of cell (x, y) is (x + y)·60, half of the 120-pixel tile height per step |
| `Iso.Round` | app/components/Structure.tsx:30 | `Math.round` gives the integer n with n − 1/2 ≤ v < n + 1/2, i.e. the nearest integer with halves rounded up |
| `Iso.Uniso` | app/components/Structure.tsx:25-31 | both components of `uniso(x, y)` are integers within 1/2 of the exact inverse column and row |
| `Iso.ExactIsInverse` | app/components/Structure.tsx:23-29 | the exact column and row that `uniso` rounds are mapped back to (x, y) by the `isoX`/`isoY` transform, for every pixel |
| `Iso.ExactOfIso` | app/components/Structure.tsx:23-29 | the exact inverse of `isoX`/`isoY` at an integer cell is that cell |
| `Iso.UnisoOfIso` | app/components/Structure.tsx:23-31 | `uniso(isoX(c, r), isoY(c, r)) = [c, r]` for all integers c, r |
| `Iso.SnapRoundTrip` | app/components/Structure.tsx:106-114 | the snapped sprite position `(isoX, isoY − 30)` of a cell, with 30 added back, goes through `uniso` to the same cell |
| `GameStore.RowAt` | app/store/useGameStore.ts:40 | reading `row[x]`: the cell inside the row, `undefined` (None) outside it; a value is only ever read from inside the row |
| `GameStore.At` | app/store/useGameStore.ts:40 | reading `grid[y][x]`: the cell when (x, y) lies in an existing row, `undefined` otherwise; a value is only ever read from inside the grid |
| `GameStore.DestinationFree` | app/store/useGameStore.ts:35-41 | the collision check: destination column and row non-negative, row below the row count, column below the length of row 0, cell undefined; its exact use is stated by `GameStore.Move` |
| `GameStore.SetInRow` | app/store/useGameStore.ts:21 | `row[x] = v` on a copy: cell x reads v, every other index reads as before; the row lengthens to x + 1 when x is past its end |
| `GameStore.SetCell` | app/store/useGameStore.ts:20-22 | copying the grid and assigning `grid[y][x]`: same row count, every other row identical, cell (x, y) reads v, every other cell reads as before |
| `GameStore.Move` | app/store/useGameStore.ts:32-51 | moved iff the destination is inside the grid (column bound = length of row 0) and empty; when rejected the grid is identical; when moved the destination holds the source's old value, the source is empty, every other cell unchanged |
| `GameStore.MovePreservesOccupants` | app/store/useGameStore.ts:44-49 | a move keeps the multiset of ids on the grid, hence the number of occupied cells |
| `GameStore.SetCellOccupants` | app/store/useGameStore.ts:18-30 | assigning a cell removes that cell's old id from the grid's ids and adds the new one |
| `GameStore.SelfMoveRejected` | app/store/useGameStore.ts:40-47 | moving an occupied cell onto itself is rejected and leaves the grid identical |
| `GameStore.EmptyStoreRejectsEveryMove` | app/store/useGameStore.ts:14-43 | on the initial grid of no rows every move is rejected |
| `GameStore.RemoveIdempotent` | app/store/useGameStore.ts:25-30 | removing the same cell twice gives the same grid as removing it once |
| `GameStore.RemoveEmptyIsNoop` | app/store/useGameStore.ts:25-30 | removing an empty cell inside its row returns an identical grid |
| `GameStore.SetCellKeepsShape` | app/store/useGameStore.ts:18-30 | assigning a cell inside a rectangular grid keeps its dimensions |
| `GameStore.MoveKeepsShape` | app/store/useGameStore.ts:32-51 | a move from a cell inside a rectangular grid keeps its dimensions, whatever the destination |
| `GameStore.Store.constructor` | app/store/useGameStore.ts:14 | the store starts with a grid of zero rows |
| `GameStore.Store.SetStructures` | app/store/useGameStore.ts:16 | the grid becomes exactly the given value |
| `GameStore.Store.AddStructure` | app/store/useGameStore.ts:18-23 | cell (x, y) becomes `id`, even when occupied; every other cell unchanged |
| `GameStore.Store.RemoveStructure` | app/store/useGameStore.ts:25-30 | cell (x, y) becomes empty; every other cell unchanged |
| `GameStore.Store.MoveStructure` | app/store/useGameStore.ts:32-51 | returns whether the move happened and leaves the grid as `Move` describes |
| `DragStore.DragState.constructor` | app/store/useDragStore.ts:10-15 | initially not dragging and no hovered tile |
| `DragStore.DragState.SetDragging` | app/store/useDragStore.ts:12 | sets `isDragging`, leaves `hoveredTile` |
| `DragStore.DragState.SetHoveredTile` | app/store/useDragStore.ts:14 | sets `hoveredTile` (null included), leaves `isDragging` |
| `StructureDrag.DropCell` | app/components/Structure.tsx:106 | the drop cell of a sprite at p is `uniso(p.x, p.y + 30)`; what it yields for a snapped sprite is stated by `StructureDrag.DropCellOfSprite` |
| `StructureDrag.SpriteAt` | app/components/Structure.tsx:110-113 | the snap position of cell (c, r) is `(isoX(c, r), isoY(c, r) − 30)`; its round trip is stated by `StructureDrag.DropCellOfSprite` |
| `StructureDrag.DropCellOfSprite` | app/components/Vila.tsx:84-85 | a sprite drawn for cell (c, r) at `(isoX, isoY − 30)` drops onto (c, r) |
| `StructureDrag.Sprite.constructor` | app/components/Structure.tsx:33-47 | the sprite starts at its `x`, `y` props, not dragging |
| `StructureDrag.Sprite.OnDragStart` | app/components/Structure.tsx:85-88 | sets the local and shared dragging flags; position and hovered tile unchanged |
| `StructureDrag.Sprite.OnDragMove` | app/components/Structure.tsx:73-83 | ignored unless dragging; when dragging the sprite follows and the hovered tile is `uniso(gx, gy + 30)`; the grid never changes |
| `StructureDrag.Sprite.OnDragEnd` | app/components/Structure.tsx:99-118 | drag state cleared whatever happens; the store is asked to move from `(tileX, tileY)` to `uniso(pos.x, pos.y + 30)`; on success the sprite snaps to the target cell's sprite position, which drops onto that same cell; on failure it returns exactly to its initial props and the grid is unchanged |
| `StructureDrag.ReleaseInPlaceReverts` | app/components/Structure.tsx:106-118 | releasing a sprite at its own occupied cell's position is a rejected move that leaves the grid identical |
| `Vila.GridSize` | app/components/Vila.tsx:28-29 | the grid side is 3 exactly on a narrow viewport, and 7 otherwise |
| `Vila.CreateEmptyGrid` | app/components/Vila.tsx:19-20 | r rows of length c, every cell empty |
| `Vila.EmptyGridHasNoOccupants` | app/components/Vila.tsx:19-20 | a fresh grid holds no structure ids |
| `Vila.RowPlacements` | app/components/Vila.tsx:77-90 | exactly the occupied cells of one row get a sprite, with `tileX`, `tileY`, `x = isoX`, `y = isoY − 30` and the cell's id; one sprite per cell, in strictly increasing `tileX` |
| `Vila.Placements` | app/components/Vila.tsx:76-92 | a sprite for every occupied cell of the grid and only for those, each with the cell's coordinates, pixel position and id; ordered by row, then column, so no cell gets two sprites (the distinct `str-x-y` keys) |
| `Vila.PlacementsStandOnTheirTiles` | app/components/Vila.tsx:76-91 | every rendered sprite's `uniso(x, y + 30)` is its own `(tileX, tileY)` |
| `Vila.ReleasingUnmovedSpriteKeepsGrid` | app/components/Structure.tsx:99-118 | pressing and releasing a rendered sprite without moving it is a rejected move: the grid stays the same |
| `Vila.Map.constructor` | app/game/page.tsx:8-13 | the map starts with nothing selected |
| `Vila.Map.Mount` | app/components/Vila.tsx:28-39 | the store's grid becomes an empty size×size grid, size 3 on a narrow viewport and 7 otherwise |
| `Vila.Map.Select` | app/game/page.tsx:8-13 | a toolbar choice becomes the selection |
| `Vila.Map.HandleTileClick` | app/components/Vila.tsx:41-49 | with a non-null selection (0 included) the id is placed at the tile, overwriting, and the selection is cleared; with none the grid and the selection are unchanged |
| `GameCanvas.CreateEmptyGrid` | app/components/GameCanvas.tsx:21-22 | fresh, pairwise distinct row arrays of the given length, every cell empty |
| `GameCanvas.Map.constructor` | app/components/GameCanvas.tsx:29-40 | structures and houses both start empty with equal dimensions, 3×3 on a narrow viewport and 7×7 otherwise, in fresh row arrays; nothing selected |
| `GameCanvas.Map.MountHouses` | app/components/GameCanvas.tsx:42-48 | house 1 at cell (0, 0); no other house cell and no structure changes; the map stays valid |
| `GameCanvas.Map.Select` | app/components/GameCanvas.tsx:116-122 | a toolbar choice becomes the selection; the grids are untouched |
| `GameCanvas.Map.HandleTileClick` | app/components/GameCanvas.tsx:51-60 | places only a truthy selection (never null, never 0) at the tile, in the existing row array, and then clears it; otherwise grid and selection are unchanged; houses never change |
| `GameCanvas.Map.HandleStructureRemove` | app/components/GameCanvas.tsx:63-69 | empties the cell in the existing row array, so the grid before the call shows the removal too; every other cell and all houses unchanged; the map stays valid |

## Left out

- Rendering: tiles, sprites, houses, the animated structure, the toolbar's
  layout and hover emphasis, textures and sprite-sheet frame arithmetic,
  and the row-by-row tile layout of both composers. All of it is host-engine
  drawing work.
- The pointer offset and `scaleFactor` arithmetic of the drag handlers. It is
  floating-point screen maths, so `OnDragMove` receives the sprite position
  it would compute.
- Event registration on the stage, React hooks and memoisation, and
  stale-closure effects. `OnDragEnd` reads the latest sprite position.
- Viewport detection through `window.innerWidth`. "Narrow viewport" is a
  boolean parameter.
- Logging: the `console.log` of the grid in `Vila.tsx` and the
  `console.log` that `GameCanvas.tsx` passes as the animated sprite's
  `onRemove`, which its pointer-down calls.
- The removal wiring: `Structure` never reads its `onRemove` prop, so
  `removeStructure` (passed by `Vila.tsx`) and `handleStructureRemove`
  (passed by `GameCanvas.tsx`) are never reached from the UI. Both are
  modelled as operations all the same.
- JavaScript numbers are modelled as unbounded `int` (grid coordinates and
  ids) and exact `real` (pixels). Floating-point rounding is not modelled.
- GameStore.Store.AddStructure: it requires the row `y` to exist, because
  the source throws a TypeError otherwise. It also requires `x ≥ 0`. A
  negative `x` sets a non-index property of the row, and the model does not
  capture that. `RemoveStructure` and `MoveStructure` (source cell) have the
  same requirements.
- StructureDrag.Sprite.OnDragEnd: it requires the sprite's own tile to lie
  in a row of the grid, or the grid to have no rows. The source only needs
  the tile to be readable once the drop cell has been accepted; every
  sprite either composer renders meets the stronger condition.
- GameCanvas.Map.HandleTileClick: it requires the clicked cell to lie
  inside the grid, because that composer only renders tiles there. Writes
  past a row's end are not modelled for its fixed-size row arrays.
