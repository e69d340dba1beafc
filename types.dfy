/**
 * The values shared by the crawler: tile coordinates, bytes, the image
 * classification produced by the image analyser, and the failure-carrying
 * wrappers used where the source returns `undefined` or throws.
 */
module Types {

  /** A value that may be missing (`undefined` in the source). */
  datatype Option<+T> = None | Some(value: T)

  /** A value or an error (a thrown exception in the source). */
  datatype Result<+T, +E> = Success(value: T) | Failure(error: E)

  /** One octet of a Node.js `Buffer`. */
  newtype byte = b: int | 0 <= b < 256

  type Bytes = seq<byte>

  /**
   * A node of the tile quadtree. The zoom is a non-negative integer: the
   * source computes `2^z` for it, which is only an integer for such zooms.
   */
  datatype Tile = Tile(x: int, y: int, z: nat)

  /** The per-region classification of a decoded tile. */
  datatype ImageType = Transparent | Solid | Mixed

  /**
   * What the image analyser reports for a tile: a verdict for the whole
   * image, one per quadrant (NW, NE, SW, SE) and a display symbol.
   */
  datatype ImageInfo = ImageInfo(fullImage: ImageType, quartals: seq<ImageType>, symbol: string)

  /** The kinds of upstream server the crawler can talk to. */
  datatype ServerType = Wms | TileServer | ArcGis
}
