/**
 * Rasters: the images of the service seen as grids of integer pixels.
 * A pixel is addressed by its column (x) and row (y); the upper left corner is (0, 0).
 */
module Rasters {

  /** A `width` x `height` grid; `rows[y][x]` is the pixel at column x, row y. */
  datatype Raster = Raster(width: nat, height: nat, rows: seq<seq<int>>) {

    /** The grid has exactly `height` rows of exactly `width` pixels. */
    predicate Valid() {
      |rows| == height && forall y :: 0 <= y < |rows| ==> |rows[y]| == width
    }

    /** True iff (x, y) is a pixel of this raster. */
    predicate Contains(x: int, y: int) {
      0 <= x < width && 0 <= y < height
    }

    function At(x: int, y: int): int
      requires Valid() && Contains(x, y)
    {
      rows[y][x]
    }
  }

  /** The value of a black pixel of an RGB image. */
  const Black := 0

  /**
   * A freshly allocated RGB image of the given size: every pixel is black.
   */
  function Blank(width: nat, height: nat): (r: Raster)
    ensures r.Valid() && r.width == width && r.height == height
    ensures forall x, y :: r.Contains(x, y) ==> r.At(x, y) == Black
  {
    Raster(width, height, seq(height, _ => seq(width, _ => Black)))
  }
}
