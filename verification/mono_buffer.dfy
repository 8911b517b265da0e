/**
 * One-bit frame buffers as the Waveshare drivers lay them out: a row of
 * `w` pixels takes `ceil(w / 8)` bytes, eight pixels to a byte with the
 * leftmost in the most significant bit, rows one after the other; a clear
 * bit is a black pixel.
 */
module MonoBuffer {
  import opened Common
  import opened Bits
  import opened Raster

  /** `w // 8` when `w` is a multiple of 8, else `w // 8 + 1`: the bytes of one row. */
  function RowBytes(w: nat): (r: nat)
    ensures w > 0 ==> 8 * (r - 1) < w <= 8 * r
    ensures w == 0 ==> r == 0
  {
    if w % 8 == 0 then w / 8 else w / 8 + 1
  }

  /** The bytes `image[i + j * w]` for `j` in `range(h)` and `i` in `range(w)`, in loop order. */
  function RowMajor(image: seq<bv8>, w: nat, h: nat): (r: seq<bv8>)
    requires w * h <= |image|
    ensures |r| == w * h
    decreases h
  {
    if h == 0 then []
    else
      assert (h - 1) * w + w == w * h;
      RowMajor(image, w, h - 1) + seq(w, i requires 0 <= i < w => image[i + (h - 1) * w])
  }

  /** Sending the rows in turn sends the first `w * h` bytes of the buffer, in order. */
  lemma {:induction false} RowMajorIsPrefix(image: seq<bv8>, w: nat, h: nat)
    requires w * h <= |image|
    ensures RowMajor(image, w, h) == image[..w * h]
    decreases h
  {
    if h > 0 {
      assert (h - 1) * w + w == w * h;
      RowMajorIsPrefix(image, w, h - 1);
      var row := seq(w, i requires 0 <= i < w => image[i + (h - 1) * w]);
      assert row == image[(h - 1) * w .. w * h];
      assert image[..(h - 1) * w] + image[(h - 1) * w .. w * h] == image[..w * h];
    }
  }

  /** A panel of `width` by `height` pixels whose rows take `line` bytes each. */
  datatype Geometry = Geometry(width: nat, height: nat, line: nat)

  /** A row of the panel fits in its bytes. */
  predicate Valid(g: Geometry)
  {
    g.width <= 8 * g.line
  }

  /** How an image of the panel's size is laid on it: as is, or lying on its side. */
  datatype Orientation = Portrait | Landscape

  /**
   * `getbuffer`'s size test: an image `width` by `height` is upright, one
   * `height` by `width` lies on its side, any other is not drawn.
   */
  function OrientationOf(img: Raster, g: Geometry): (o: Option<Orientation>)
    ensures o == Some(Portrait) <==> img.width == g.width && img.height == g.height
    ensures o == Some(Landscape) <==> img.width == g.height && img.height == g.width && !(img.width == g.width && img.height == g.height)
  {
    if img.width == g.width && img.height == g.height then Some(Portrait)
    else if img.width == g.height && img.height == g.width then Some(Landscape)
    else None
  }

  /** The image's width for an orientation. */
  function ImageWidth(g: Geometry, o: Orientation): nat
  {
    if o == Portrait then g.width else g.height
  }

  /** The image's height for an orientation. */
  function ImageHeight(g: Geometry, o: Orientation): nat
  {
    if o == Portrait then g.height else g.width
  }

  /** The image has the size its orientation says. */
  predicate Fits(img: Raster, g: Geometry, o: Orientation)
  {
    WellFormed(img) && img.width == ImageWidth(g, o) && img.height == ImageHeight(g, o)
  }

  /**
   * Where image pixel `(x, y)` lands on the panel, as `(column, row)`: in
   * landscape `newx = y` and `newy = height - x - 1`.
   */
  function Target(g: Geometry, o: Orientation, x: nat, y: nat): (t: (nat, nat))
    requires x < ImageWidth(g, o) && y < ImageHeight(g, o)
    ensures t.0 < g.width && t.1 < g.height
  {
    if o == Portrait then (x, y) else (y, g.height - x - 1)
  }

  /** The image pixel that lands at `(col, row)`. */
  function Source(g: Geometry, o: Orientation, col: nat, row: nat): (p: (nat, nat))
    requires col < g.width && row < g.height
    ensures p.0 < ImageWidth(g, o) && p.1 < ImageHeight(g, o)
    ensures Target(g, o, p.0, p.1) == (col, row)
  {
    if o == Portrait then (col, row) else (g.height - 1 - row, col)
  }

  /** Each panel pixel has exactly one image pixel: `Source` undoes `Target`. */
  lemma SourceOfTarget(g: Geometry, o: Orientation, x: nat, y: nat)
    requires x < ImageWidth(g, o) && y < ImageHeight(g, o)
    ensures var t := Target(g, o, x, y); Source(g, o, t.0, t.1) == (x, y)
  {
  }

  /** The image pixel shown at `(col, row)` is black (0 in mode "1"). */
  predicate Black(img: Raster, g: Geometry, o: Orientation, col: nat, row: nat)
    requires Fits(img, g, o) && col < g.width && row < g.height
  {
    var p := Source(g, o, col, row);
    At(img, p.0, p.1) == 0
  }

  /**
   * The bit of panel pixel `(col, row)` in `buf`: bit `col % 8` of byte
   * `col / 8 + row * line`, false past the end.
   */
  predicate PixelBit(buf: seq<bv8>, g: Geometry, col: nat, row: nat)
  {
    var n := col / 8 + row * g.line;
    n < |buf| && Bit(buf[n], col % 8)
  }

  /** The buffer `getbuffer` should produce: a pixel's bit is clear exactly when a black image pixel lands there. */
  predicate Shows(buf: seq<bv8>, img: Raster, g: Geometry, o: Option<Orientation>)
    requires o.Some? ==> Fits(img, g, o.value)
  {
    |buf| == g.line * g.height &&
    forall col, row :: 0 <= col < 8 * g.line && 0 <= row < g.height ==>
      (PixelBit(buf, g, col, row) <==> !(o.Some? && col < g.width && Black(img, g, o.value, col, row)))
  }

  /**
   * `getbuffer` of the monochrome drivers: start from `[0xFF] * (line *
   * height)` and, for each image pixel in row order that is black, clear
   * the bit of the panel pixel it lands on. An image of any other size
   * leaves the buffer all white.
   */
  method Pack(img: Raster, g: Geometry) returns (buf: seq<bv8>)
    requires Valid(g) && WellFormed(img)
    ensures Shows(buf, img, g, OrientationOf(img, g))
  {
    buf := Repeat(0xFF, g.line * g.height);
    var o := OrientationOf(img, g);
    if o.Some? {
      var y := 0;
      Start(buf, img, g, o.value);
      while y < ImageHeight(g, o.value)
        invariant y <= ImageHeight(g, o.value)
        invariant Partly(buf, img, g, o.value, y, 0)
      {
        buf := PackRow(buf, img, g, o.value, y);
        y := y + 1;
      }
      Finish(buf, img, g, o.value);
    } else {
      White(buf, img, g);
    }
  }

  /** The image pixel `p` comes before `(x0, y0)` in the loops' row order. */
  predicate Done(p: (nat, nat), y0: nat, x0: nat)
  {
    p.1 < y0 || (p.1 == y0 && p.0 < x0)
  }

  /** The loop invariant: exactly the black pixels already visited have cleared their bits. */
  predicate Partly(buf: seq<bv8>, img: Raster, g: Geometry, o: Orientation, y0: nat, x0: nat)
  {
    Valid(g) && Fits(img, g, o) && |buf| == g.line * g.height &&
    forall col, row :: 0 <= col < 8 * g.line && 0 <= row < g.height ==>
      (PixelBit(buf, g, col, row) <==>
       !(col < g.width && Black(img, g, o, col, row) && Done(Source(g, o, col, row), y0, x0)))
  }

  /** One row of the image, `for x in range(imwidth)`. */
  method PackRow(bufIn: seq<bv8>, img: Raster, g: Geometry, o: Orientation, y: nat) returns (buf: seq<bv8>)
    requires y < ImageHeight(g, o) && Partly(bufIn, img, g, o, y, 0)
    ensures Partly(buf, img, g, o, y + 1, 0)
  {
    buf := bufIn;
    var x := 0;
    while x < ImageWidth(g, o)
      invariant x <= ImageWidth(g, o)
      invariant Partly(buf, img, g, o, y, x)
    {
      buf := PackPixel(buf, img, g, o, x, y);
      x := x + 1;
    }
    NextRow(buf, img, g, o, y);
  }

  /** One pixel: `if getpixel((x, y)) == 0: buf[col // 8 + row * line] &= ~(0x80 >> (col % 8))`. */
  method PackPixel(bufIn: seq<bv8>, img: Raster, g: Geometry, o: Orientation, x: nat, y: nat) returns (buf: seq<bv8>)
    requires x < ImageWidth(g, o) && y < ImageHeight(g, o) && Partly(bufIn, img, g, o, y, x)
    ensures Partly(buf, img, g, o, y, x + 1)
  {
    if At(img, x, y) == 0 {
      var t := Target(g, o, x, y);
      var n := t.0 / 8 + t.1 * g.line;
      CellInBuffer(g, t.0, t.1);
      buf := bufIn[n := bufIn[n] & !Mask(t.0 % 8)];
      ClearStep(bufIn, buf, img, g, o, x, y);
    } else {
      buf := bufIn;
      KeepStep(buf, img, g, o, x, y);
    }
  }

  /** Every panel pixel's byte lies inside the buffer. */
  lemma CellInBuffer(g: Geometry, col: nat, row: nat)
    requires col < 8 * g.line && row < g.height
    ensures col / 8 + row * g.line < g.line * g.height
  {
    MulMono(g.height - row, g.line);
    assert g.line * g.height == (g.height - row) * g.line + row * g.line;
  }

  /** Two panel pixels with the same byte and bit are the same pixel. */
  lemma CellInjective(g: Geometry, c1: nat, r1: nat, c2: nat, r2: nat)
    requires c1 < 8 * g.line && c2 < 8 * g.line
    requires c1 / 8 + r1 * g.line == c2 / 8 + r2 * g.line && c1 % 8 == c2 % 8
    ensures c1 == c2 && r1 == r2
  {
    Unpair(c1 / 8, r1, g.line);
    Unpair(c2 / 8, r2, g.line);
  }

  /** Byte `n`, bit `k` of the buffer is the bit of panel pixel `(8 (n % line) + k, n / line)`. */
  lemma CellOfBit(g: Geometry, n: nat, k: nat)
    requires n < g.line * g.height && k < 8
    ensures var col := 8 * (n % g.line) + k;
            col < 8 * g.line && n / g.line < g.height && col / 8 + (n / g.line) * g.line == n && col % 8 == k
  {
    var q := n / g.line;
    var m := n % g.line;
    assert n == q * g.line + m;
    if q >= g.height {
      MulMono(q - g.height + 1, g.line);
      assert false;
    }
    assert m + 1 <= g.line;
    assert 8 * m + k < 8 * g.line;
  }

  /** `k * L >= L` for `k >= 1`. */
  lemma MulMono(k: nat, L: nat)
    requires k >= 1
    ensures k * L >= L
  {
    var j := k - 1;
    assert k * L == j * L + L;
  }

  /** Euclidean division of `a + r L` by `L` recovers `r` and `a` when `a < L`. */
  lemma Unpair(a: nat, r: nat, L: nat)
    requires a < L
    ensures (a + r * L) / L == r && (a + r * L) % L == a
  {
    var n := a + r * L;
    var d := n / L;
    var m := n % L;
    assert n == d * L + m;
    if d > r {
      MulMono(d - r, L);
      assert false;
    } else if d < r {
      MulMono(r - d, L);
      assert false;
    }
  }

  lemma Start(buf: seq<bv8>, img: Raster, g: Geometry, o: Orientation)
    requires Valid(g) && Fits(img, g, o) && buf == Repeat(0xFF, g.line * g.height)
    ensures Partly(buf, img, g, o, 0, 0)
  {
    forall col, row | 0 <= col < 8 * g.line && 0 <= row < g.height
      ensures PixelBit(buf, g, col, row)
    {
      CellInBuffer(g, col, row);
    }
  }

  lemma White(buf: seq<bv8>, img: Raster, g: Geometry)
    requires buf == Repeat(0xFF, g.line * g.height)
    ensures Shows(buf, img, g, None)
  {
    forall col, row | 0 <= col < 8 * g.line && 0 <= row < g.height
      ensures PixelBit(buf, g, col, row)
    {
      CellInBuffer(g, col, row);
    }
  }

  lemma NextRow(buf: seq<bv8>, img: Raster, g: Geometry, o: Orientation, y: nat)
    requires Partly(buf, img, g, o, y, ImageWidth(g, o))
    ensures Partly(buf, img, g, o, y + 1, 0)
  {
    forall col, row | 0 <= col < 8 * g.line && 0 <= row < g.height && col < g.width
      ensures Done(Source(g, o, col, row), y, ImageWidth(g, o)) == Done(Source(g, o, col, row), y + 1, 0)
    {
    }
  }

  lemma Finish(buf: seq<bv8>, img: Raster, g: Geometry, o: Orientation)
    requires Partly(buf, img, g, o, ImageHeight(g, o), 0)
    ensures Shows(buf, img, g, Some(o))
  {
    forall col, row | 0 <= col < 8 * g.line && 0 <= row < g.height && col < g.width
      ensures Done(Source(g, o, col, row), ImageHeight(g, o), 0)
    {
    }
  }

  lemma KeepStep(buf: seq<bv8>, img: Raster, g: Geometry, o: Orientation, x: nat, y: nat)
    requires x < ImageWidth(g, o) && y < ImageHeight(g, o) && Partly(buf, img, g, o, y, x)
    requires At(img, x, y) != 0
    ensures Partly(buf, img, g, o, y, x + 1)
  {
    forall col, row | 0 <= col < 8 * g.line && 0 <= row < g.height && col < g.width && Black(img, g, o, col, row)
      ensures Done(Source(g, o, col, row), y, x) == Done(Source(g, o, col, row), y, x + 1)
    {
    }
  }

  lemma ClearStep(bufIn: seq<bv8>, buf: seq<bv8>, img: Raster, g: Geometry, o: Orientation, x: nat, y: nat)
    requires x < ImageWidth(g, o) && y < ImageHeight(g, o) && Partly(bufIn, img, g, o, y, x)
    requires At(img, x, y) == 0
    requires var t := Target(g, o, x, y);
             var n := t.0 / 8 + t.1 * g.line;
             n < |bufIn| && buf == bufIn[n := bufIn[n] & !Mask(t.0 % 8)]
    ensures Partly(buf, img, g, o, y, x + 1)
  {
    forall col, row | 0 <= col < 8 * g.line && 0 <= row < g.height
      ensures PixelBit(buf, g, col, row) <==>
              !(col < g.width && Black(img, g, o, col, row) && Done(Source(g, o, col, row), y, x + 1))
    {
      assert PixelBit(bufIn, g, col, row) <==>
             !(col < g.width && Black(img, g, o, col, row) && Done(Source(g, o, col, row), y, x));
      ClearStepAt(bufIn, buf, img, g, o, x, y, col, row);
    }
  }

  lemma ClearStepAt(bufIn: seq<bv8>, buf: seq<bv8>, img: Raster, g: Geometry, o: Orientation, x: nat, y: nat, col: nat, row: nat)
    requires x < ImageWidth(g, o) && y < ImageHeight(g, o) && Valid(g) && Fits(img, g, o) && |bufIn| == g.line * g.height
    requires At(img, x, y) == 0
    requires var t := Target(g, o, x, y);
             var n := t.0 / 8 + t.1 * g.line;
             n < |bufIn| && buf == bufIn[n := bufIn[n] & !Mask(t.0 % 8)]
    requires col < 8 * g.line && row < g.height
    requires PixelBit(bufIn, g, col, row) <==>
             !(col < g.width && Black(img, g, o, col, row) && Done(Source(g, o, col, row), y, x))
    ensures PixelBit(buf, g, col, row) <==>
            !(col < g.width && Black(img, g, o, col, row) && Done(Source(g, o, col, row), y, x + 1))
  {
    var t := Target(g, o, x, y);
    SourceOfTarget(g, o, x, y);
    CellInBuffer(g, col, row);
    if (col, row) == t {
      ClearHit(bufIn, buf, g, t.0, t.1);
    } else {
      var same := col < g.width && Black(img, g, o, col, row) && Done(Source(g, o, col, row), y, x);
      var next := col < g.width && Black(img, g, o, col, row) && Done(Source(g, o, col, row), y, x + 1);
      if col < g.width {
        assert Source(g, o, col, row) != (x, y);
      }
      assert same == next;
      ClearMiss(bufIn, buf, g, t.0, t.1, col, row);
    }
  }

  /** The pixel cleared has its bit clear afterwards. */
  lemma ClearHit(bufIn: seq<bv8>, buf: seq<bv8>, g: Geometry, tc: nat, tr: nat)
    requires tc / 8 + tr * g.line < |bufIn|
    requires buf == bufIn[tc / 8 + tr * g.line := bufIn[tc / 8 + tr * g.line] & !Mask(tc % 8)]
    ensures !PixelBit(buf, g, tc, tr)
  {
    ClearBit(bufIn[tc / 8 + tr * g.line], tc % 8, tc % 8);
  }

  /** Every other pixel keeps its bit. */
  lemma ClearMiss(bufIn: seq<bv8>, buf: seq<bv8>, g: Geometry, tc: nat, tr: nat, col: nat, row: nat)
    requires tc < 8 * g.line && col < 8 * g.line && (col, row) != (tc, tr)
    requires tc / 8 + tr * g.line < |bufIn|
    requires buf == bufIn[tc / 8 + tr * g.line := bufIn[tc / 8 + tr * g.line] & !Mask(tc % 8)]
    ensures PixelBit(buf, g, col, row) == PixelBit(bufIn, g, col, row)
  {
    var n := tc / 8 + tr * g.line;
    var m := col / 8 + row * g.line;
    if m == n {
      if col % 8 == tc % 8 {
        CellInjective(g, col, row, tc, tr);
      }
      ClearBit(bufIn[n], tc % 8, col % 8);
    }
  }

  /**
   * Read byte by byte: bit `k` of byte `n` is clear exactly when a black
   * image pixel lands on column `8 (n % line) + k` of row `n / line`.
   */
  lemma ShowsBytes(buf: seq<bv8>, img: Raster, g: Geometry, o: Option<Orientation>, n: nat, k: nat)
    requires o.Some? ==> Fits(img, g, o.value)
    requires Shows(buf, img, g, o) && n < |buf| && k < 8
    ensures var col := 8 * (n % g.line) + k;
            var row := n / g.line;
            col < 8 * g.line && row < g.height &&
            (Bit(buf[n], k) <==> !(o.Some? && col < g.width && Black(img, g, o.value, col, row)))
  {
    CellOfBit(g, n, k);
    var col := 8 * (n % g.line) + k;
    var row := n / g.line;
    assert PixelBit(buf, g, col, row) <==> Bit(buf[n], k);
    assert PixelBit(buf, g, col, row) <==> !(o.Some? && col < g.width && Black(img, g, o.value, col, row));
  }

  /** A buffer for an image of the wrong size is all white. */
  lemma NoneIsWhite(buf: seq<bv8>, img: Raster, g: Geometry)
    requires Shows(buf, img, g, None)
    ensures forall n :: 0 <= n < |buf| ==> buf[n] == 0xFF
  {
    forall n | 0 <= n < |buf|
      ensures buf[n] == 0xFF
    {
      forall k | 0 <= k < 8
        ensures Bit(buf[n], k) <==> Bit(0xFF, k)
      {
        ShowsBytes(buf, img, g, None, n, k);
      }
      BitsDetermineByte(buf[n], 0xFF);
    }
  }
}
