/** Values shared by every part of the tile-fetching core: tile addresses,
    extents, zoom-level resolutions, byte payloads and the error and
    optional-value wrappers that stand in for C# exceptions and nulls. */
module Tiles {

  /** One byte of a tile payload. */
  newtype byte = x: int | 0 <= x < 256

  /** A tile payload (`byte[]` in the source; a null array is `None`). */
  type Bytes = seq<byte>

  /** A value that may be absent: `None` models a C# `null`. */
  datatype Option<+T> = None | Some(value: T)

  /** The exceptions the modelled code raises or lets through. */
  datatype Error =
    | NoTileResolutions          // ArgumentException from GetNearestLevel
    | KeyNotFound                // dictionary lookup of an unknown level id
    | FileNotFound               // AsyncFileTileProvider on a cache miss
    | NotImplemented             // AsyncNullCache.Remove[Async]
    | FetchFailed(reason: string) // anything the tile source or network throws

  /** Either a value or the exception that replaced it. */
  datatype Result<+T> = Success(value: T) | Failure(error: Error)

  /** Address of one tile of a schema: zoom-level id, column and row. */
  datatype TileIndex = TileIndex(level: string, col: int, row: int)

  /** Axis-aligned rectangle in map units. */
  datatype Extent = Extent(minX: real, minY: real, maxX: real, maxY: real) {
    function CenterX(): real { (minX + maxX) / 2.0 }
    function CenterY(): real { (minY + maxY) / 2.0 }
  }

  /** A tile's address together with its footprint. */
  datatype TileInfo = TileInfo(index: TileIndex, extent: Extent)

  /** One entry of a schema's resolution dictionary: the level id (the
      dictionary key) and its ground units per pixel. */
  datatype Resolution = Resolution(levelId: string, unitsPerPixel: real)

  function Abs(x: real): real { if x < 0.0 then -x else x }
}
