/**
 * Pasting a fragment onto a charta (`drawFragmentOnCharta`): a new image of the charta's size is
 * painted first with the charta and then with the fragment at a signed offset. Painting overwrites
 * (the fragments are opaque) and is clipped to the new image.
 */
module Compositing {
  import opened Rasters

  /** Pixel (x, y) is covered by `fragment` drawn with its upper left corner at (dx, dy). */
  predicate InFootprint(fragment: Raster, dx: int, dy: int, x: int, y: int) {
    dx <= x < dx + fragment.width && dy <= y < dy + fragment.height
  }

  /** Fragment rows before `j`, and the first `i` pixels of row `j`, have been drawn. */
  ghost predicate Painted(fragment: Raster, dx: int, dy: int, j: int, i: int, x: int, y: int) {
    InFootprint(fragment, dx, dy, x, y) && (y - dy < j || (y - dy == j && x - dx < i))
  }

  /**
   * `r` is the charta with `fragment` drawn over it at (dx, dy): same size as the charta; inside the
   * footprint each pixel is the fragment's pixel at the same offset, elsewhere the charta's pixel.
   * Fragment pixels that fall outside the charta are dropped.
   */
  ghost predicate DrawnOver(charta: Raster, dx: int, dy: int, fragment: Raster, r: Raster)
    requires charta.Valid() && fragment.Valid()
  {
    && r.Valid() && r.width == charta.width && r.height == charta.height
    && (forall x, y :: r.Contains(x, y) && !InFootprint(fragment, dx, dy, x, y) ==> r.At(x, y) == charta.At(x, y))
    && (forall x, y :: r.Contains(x, y) && InFootprint(fragment, dx, dy, x, y) ==>
          r.At(x, y) == fragment.At(x - dx, y - dy))
  }

  /** `drawFragmentOnCharta`: a fresh image painted with the charta, then with the fragment. */
  method DrawFragmentOnCharta(charta: Raster, dx: int, dy: int, fragment: Raster) returns (r: Raster)
    requires charta.Valid() && fragment.Valid()
    ensures DrawnOver(charta, dx, dy, fragment, r)
  {
    var w, h := charta.width, charta.height;
    // new BufferedImage(w, h): canvas[y, x] is the pixel at column x, row y
    var canvas := new int[h, w];

    // drawImage(charta, 0, 0)
    var y := 0;
    while y < h
      invariant 0 <= y <= h
      invariant forall j, i :: 0 <= j < y && 0 <= i < w ==> canvas[j, i] == charta.At(i, j)
    {
      var x := 0;
      while x < w
        invariant 0 <= x <= w
        invariant forall j, i :: 0 <= j < y && 0 <= i < w ==> canvas[j, i] == charta.At(i, j)
        invariant forall i :: 0 <= i < x ==> canvas[y, i] == charta.At(i, y)
      {
        canvas[y, x] := charta.At(x, y);
        x := x + 1;
      }
      y := y + 1;
    }

    // drawImage(fragment, dx, dy): fragment pixel (i, j) lands on (dx + i, dy + j) if that is on the canvas
    var j := 0;
    while j < fragment.height
      invariant 0 <= j <= fragment.height
      invariant forall b, a :: 0 <= b < h && 0 <= a < w ==>
                  canvas[b, a] == if Painted(fragment, dx, dy, j, 0, a, b)
                                  then fragment.At(a - dx, b - dy) else charta.At(a, b)
    {
      var i := 0;
      while i < fragment.width
        invariant 0 <= i <= fragment.width
        invariant forall b, a :: 0 <= b < h && 0 <= a < w ==>
                    canvas[b, a] == if Painted(fragment, dx, dy, j, i, a, b)
                                    then fragment.At(a - dx, b - dy) else charta.At(a, b)
      {
        if 0 <= dx + i < w && 0 <= dy + j < h {
          canvas[dy + j, dx + i] := fragment.At(i, j);
        }
        i := i + 1;
      }
      j := j + 1;
    }

    r := Raster(w, h, seq(h, b requires 0 <= b < h reads canvas =>
                             seq(w, a requires 0 <= a < w reads canvas => canvas[b, a])));
  }
}
