/**
 * The isometric coordinate mapping of app/components/Structure.tsx:
 * `isoX`/`isoY` take a grid cell to the pixel of its centre, and `uniso`
 * takes a pixel back to the nearest grid cell.
 */
module Iso {

  const TileWidth: int := 218
  const TileHeight: int := 120
  /** Vertical distance between a cell's centre and the base of its sprite. */
  const StructureYOffset: int := 30

  /** Half the tile's width and height; both divisions are exact. */
  const HalfW: int := TileWidth / 2
  const HalfH: int := TileHeight / 2

  /** Pixel x of the centre of cell (x, y): 109 pixels per step along the diagonal. */
  function IsoX(x: int, y: int): (px: int)
    ensures px == (x - y) * 109
  {
    (x - y) * HalfW
  }

  /** Pixel y of the centre of cell (x, y): 60 pixels per step along the diagonal. */
  function IsoY(x: int, y: int): (py: int)
    ensures py == (x + y) * 60
  {
    (x + y) * HalfH
  }

  /** `Math.round`: the nearest integer, halves rounded upwards. */
  function Round(v: real): (n: int)
    ensures n as real - 0.5 <= v < n as real + 0.5
  {
    (v + 0.5).Floor
  }

  /** The exact (unrounded) column that `uniso` rounds. */
  function ExactCol(x: real, y: real): real
  {
    (y / (HalfH as real) + x / (HalfW as real)) / 2.0
  }

  /** The exact (unrounded) row that `uniso` rounds. */
  function ExactRow(x: real, y: real): real
  {
    (y / (HalfH as real) - x / (HalfW as real)) / 2.0
  }

  /** `uniso(x, y)`: the grid cell `[column, row]` nearest to pixel (x, y). */
  function Uniso(x: real, y: real): (t: (int, int))
    ensures t.0 as real - 0.5 <= ExactCol(x, y) < t.0 as real + 0.5
    ensures t.1 as real - 0.5 <= ExactRow(x, y) < t.1 as real + 0.5
  {
    (Round(ExactCol(x, y)), Round(ExactRow(x, y)))
  }

  /** An integer is its own rounding. */
  lemma RoundOfInt(n: int)
    ensures Round(n as real) == n
  {
    var m := Round(n as real);
    assert m as real - 0.5 <= n as real < m as real + 0.5;
  }

  /** The exact coordinates are a true inverse of the affine map, for every pixel. */
  lemma ExactIsInverse(x: real, y: real)
    ensures (ExactCol(x, y) - ExactRow(x, y)) * (HalfW as real) == x
    ensures (ExactCol(x, y) + ExactRow(x, y)) * (HalfH as real) == y
  {
  }

  /** ... and the affine map is their inverse on grid cells. */
  lemma ExactOfIso(c: int, r: int)
    ensures ExactCol(IsoX(c, r) as real, IsoY(c, r) as real) == c as real
    ensures ExactRow(IsoX(c, r) as real, IsoY(c, r) as real) == r as real
  {
    var x, y := IsoX(c, r) as real, IsoY(c, r) as real;
    assert x / (HalfW as real) == (c - r) as real;
    assert y / (HalfH as real) == (c + r) as real;
  }

  /** `uniso` recovers every grid cell from its pixel centre. */
  lemma UnisoOfIso(c: int, r: int)
    ensures Uniso(IsoX(c, r) as real, IsoY(c, r) as real) == (c, r)
  {
    ExactOfIso(c, r);
    RoundOfInt(c);
    RoundOfInt(r);
  }

  /**
   * A sprite drawn for cell (c, r) sits at (isoX, isoY - 30); adding the
   * offset back before `uniso` gives the cell again.
   */
  lemma SnapRoundTrip(c: int, r: int)
    ensures Uniso(IsoX(c, r) as real, (IsoY(c, r) - StructureYOffset) as real + StructureYOffset as real) == (c, r)
  {
    UnisoOfIso(c, r);
  }
}
