/** A cell of the level grid: its coordinates, its type, whether the player
    may stand on it, and where it is drawn relative to the viewport. */
module Tiles {
  import opened Types

  /** A tile record. The image the tile draws is whatever the asset registry
      returns for `kind`, so it is a function of the type and not stored. */
  datatype Tile = Tile(row: int, col: int, kind: TileType)
  {
    /** The cell the tile sits on; with the type it determines the tile. */
    function Pos(): (p: (int, int))
      ensures Tile(p.0, p.1, kind) == this
    {
      (row, col)
    }

    /** Every type but WALL can be walked on. */
    predicate Walkable()
    {
      kind !in {Wall}
    }
  }

  /** Pixel offset of cell (row, col) when the viewport's top-left cell is
      `topLeft`: x from the column, y from the row. */
  function CellOffset(row: int, col: int, topLeft: (int, int), tileSize: int): (int, int)
  {
    ((col - topLeft.1) * tileSize, (row - topLeft.0) * tileSize)
  }

  /** Where rendering a tile blits its image, or None when the registry had no
      image for its type (the render call then does nothing). */
  function TileBlit(t: Tile, asset: Option<Image>, topLeft: (int, int), tileSize: int): Option<(int, int)>
  {
    if asset.None? then None else Some(CellOffset(t.row, t.col, topLeft, tileSize))
  }

  /** WALL is the one type that cannot be walked on; this fixes the meaning of
      every digit code the loader reads. */
  lemma WalkableIffNotWall(t: Tile, code: int)
    ensures t.Walkable() <==> t.kind == Ground || t.kind == Hazard
    ensures Tile(t.row, t.col, TileTypeOfCode(code)).Walkable() <==> code != 1
  {
  }

  /** The tile at the viewport's top-left is drawn at the origin. */
  lemma OffsetAtTopLeft(topLeft: (int, int), tileSize: int)
    ensures CellOffset(topLeft.0, topLeft.1, topLeft, tileSize) == (0, 0)
  {
  }

  /** One column to the right shifts x by one tile size and keeps y; one row
      down shifts y by one tile size and keeps x. */
  lemma OffsetStep(row: int, col: int, topLeft: (int, int), tileSize: int)
    ensures CellOffset(row, col + 1, topLeft, tileSize).0 == CellOffset(row, col, topLeft, tileSize).0 + tileSize
    ensures CellOffset(row, col + 1, topLeft, tileSize).1 == CellOffset(row, col, topLeft, tileSize).1
    ensures CellOffset(row + 1, col, topLeft, tileSize).1 == CellOffset(row, col, topLeft, tileSize).1 + tileSize
    ensures CellOffset(row + 1, col, topLeft, tileSize).0 == CellOffset(row, col, topLeft, tileSize).0
  {
  }

  /** With a positive tile size, distinct cells are drawn at distinct offsets. */
  lemma OffsetInjective(r1: int, c1: int, r2: int, c2: int, topLeft: (int, int), tileSize: int)
    requires tileSize > 0
    requires CellOffset(r1, c1, topLeft, tileSize) == CellOffset(r2, c2, topLeft, tileSize)
    ensures r1 == r2 && c1 == c2
  {
  }

  /** Rendering without an image is a no-op; with one it blits at the cell offset. */
  lemma TileBlitSpec(t: Tile, asset: Option<Image>, topLeft: (int, int), tileSize: int)
    ensures TileBlit(t, asset, topLeft, tileSize).None? <==> asset.None?
    ensures asset.Some? && t.Pos() == topLeft ==> TileBlit(t, asset, topLeft, tileSize) == Some((0, 0))
  {
  }
}
