/**
 * A single-channel PIL image ("L" or "1" mode) as a grid of byte pixels,
 * row by row, with PIL's `(x, y)` addressing and its 90-degree rotation.
 */
module Raster {

  /** `size == (width, height)`; `rows[y][x]` is `getpixel((x, y))`. */
  datatype Raster = Raster(width: nat, height: nat, rows: seq<seq<bv8>>)

  /** Every row has `width` pixels and there are `height` rows. */
  predicate WellFormed(img: Raster)
  {
    |img.rows| == img.height && forall y :: 0 <= y < |img.rows| ==> |img.rows[y]| == img.width
  }

  /** `getpixel((x, y))`. */
  function At(img: Raster, x: nat, y: nat): bv8
    requires WellFormed(img) && x < img.width && y < img.height
  {
    img.rows[y][x]
  }

  /**
   * `rotate(90, expand=True)`: a quarter turn counter-clockwise, so the
   * right-hand column becomes the top row, read from top to bottom.
   */
  function Rotate90(img: Raster): (r: Raster)
    requires WellFormed(img)
    ensures WellFormed(r) && r.width == img.height && r.height == img.width
    ensures forall x, y :: 0 <= x < r.width && 0 <= y < r.height ==> At(r, x, y) == At(img, img.width - 1 - y, x)
  {
    Raster(img.height, img.width,
      seq(img.width, y requires 0 <= y < img.width =>
        seq(img.height, x requires 0 <= x < img.height => img.rows[x][img.width - 1 - y])))
  }
}
