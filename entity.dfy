/** An occupant of a grid cell (an enemy, an item, the player): its
    coordinates, its type, and where it is drawn. */
module Entities {
  import opened Types
  import opened Tiles

  /** An entity record. Its image is whatever the asset registry returns for
      `kind`, so it is a function of the type and not stored. */
  datatype Entity = Entity(row: int, col: int, kind: EntityType)
  {
    /** The cell the entity occupies; with the type it determines the entity. */
    function Pos(): (p: (int, int))
      ensures Entity(p.0, p.1, kind) == this
    {
      (row, col)
    }
  }

  /** Gap between a cell's edge and the smaller entity image centred in it. */
  function Margin(tileSize: int, entitySize: int): int
  {
    (tileSize - entitySize) / 2
  }

  /** Pixel offset at which an entity on cell (row, col) is drawn: the cell's
      offset from the viewport's top-left, plus the centring margin. */
  function EntityOffset(row: int, col: int, topLeft: (int, int), tileSize: int, entitySize: int): (int, int)
  {
    ((col - topLeft.1) * tileSize + Margin(tileSize, entitySize),
     (row - topLeft.0) * tileSize + Margin(tileSize, entitySize))
  }

  /** Where rendering an entity blits its image, or None when there is no
      image (the render call returns at once). */
  function EntityBlit(e: Entity, asset: Option<Image>, topLeft: (int, int), tileSize: int, entitySize: int): Option<(int, int)>
  {
    if asset.None? then None else Some(EntityOffset(e.row, e.col, topLeft, tileSize, entitySize))
  }

  /** An entity is drawn at its cell's tile offset shifted by the same margin
      on both axes. */
  lemma EntityOffsetIsCentredTileOffset(row: int, col: int, topLeft: (int, int), tileSize: int, entitySize: int)
    ensures EntityOffset(row, col, topLeft, tileSize, entitySize).0
            == CellOffset(row, col, topLeft, tileSize).0 + Margin(tileSize, entitySize)
    ensures EntityOffset(row, col, topLeft, tileSize, entitySize).1
            == CellOffset(row, col, topLeft, tileSize).1 + Margin(tileSize, entitySize)
  {
  }

  /** An image no larger than the cell is centred: the margin is between zero
      and half the cell, and the image ends inside the cell. */
  lemma MarginFitsCell(tileSize: int, entitySize: int)
    requires 0 <= entitySize <= tileSize
    ensures 0 <= Margin(tileSize, entitySize) <= tileSize / 2
    ensures Margin(tileSize, entitySize) + entitySize <= tileSize
  {
  }

  /** Rendering without an image is a no-op. */
  lemma EntityBlitSpec(e: Entity, asset: Option<Image>, topLeft: (int, int), tileSize: int, entitySize: int)
    ensures EntityBlit(e, asset, topLeft, tileSize, entitySize).None? <==> asset.None?
    ensures asset.Some? && e.Pos() == topLeft ==>
              EntityBlit(e, asset, topLeft, tileSize, entitySize)
                == Some((Margin(tileSize, entitySize), Margin(tileSize, entitySize)))
  {
  }
}
