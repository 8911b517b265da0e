/**
 * `epd2in13b_V3.py`: the 2.13 inch panel with a second (red) colour, 104
 * pixels wide and 212 high. The black plane goes under command 0x10 and,
 * when there is one, the highlight plane under 0x13.
 */
module Epd2in13bV3 {
  import opened Common
  import opened Raster
  import opened Panel
  import opened MonoBuffer

  const Width: nat := 104
  const Height: nat := 212
  /** `int(self.width * self.height / 8)`: the bytes of one plane. */
  const PlaneBytes: nat := 2756

  /** The panel's layout: rows of `int(104 / 8)` bytes. */
  function Screen(): (g: Geometry)
    ensures g.width == Width && g.height == Height && g.line == 13 && Valid(g)
    ensures g.line * g.height == PlaneBytes && PlaneBytes == Width * Height / 8
  {
    Geometry(Width, Height, Width / 8)
  }

  /**
   * The driver addresses a pixel's byte as `int((x + y * width) / 8)`:
   * since a row is a whole number of bytes, this is `y * 13 + x / 8`, the
   * index of the shared layout.
   */
  lemma SourceIndex(col: nat, row: nat)
    ensures (col + row * Width) / 8 == col / 8 + row * Screen().line
  {
    assert col + row * Width == (col / 8 + row * 13) * 8 + col % 8;
  }

  /**
   * `getbuffer`: a 2756-byte buffer, white where no black pixel lands. An
   * upright image puts pixel `(x, y)` at column `x` of row `y`; one on its
   * side puts it at column `y` of row `211 - x`; any other size is not
   * drawn.
   */
  method GetBuffer(img: Raster) returns (buf: seq<bv8>)
    requires WellFormed(img)
    ensures |buf| == PlaneBytes
    ensures img.width == Width && img.height == Height ==>
              forall col, row :: 0 <= col < Width && 0 <= row < Height ==>
                (PixelBit(buf, Screen(), col, row) <==> At(img, col, row) != 0)
    ensures img.width == Height && img.height == Width ==>
              forall col, row :: 0 <= col < Width && 0 <= row < Height ==>
                (PixelBit(buf, Screen(), col, row) <==> At(img, Height - 1 - row, col) != 0)
    ensures !(img.width == Width && img.height == Height) && !(img.width == Height && img.height == Width) ==>
              forall n :: 0 <= n < |buf| ==> buf[n] == 0xFF
  {
    var g := Screen();
    buf := Pack(img, g);
    if OrientationOf(img, g).None? {
      NoneIsWhite(buf, img, g);
    }
  }

  /**
   * `display(imageblack, highlights=None)`: the first 2756 bytes of the
   * black plane under 0x10, the first 2756 highlight bytes under 0x13 only
   * when highlights are given, then refresh (0x12). A plane shorter than
   * 2756 bytes raises `IndexError`.
   */
  function Display(black: seq<bv8>, highlights: Option<seq<bv8>>): (r: Result<seq<Wire>>)
    ensures r.Err? <==> |black| < PlaneBytes || (highlights.Some? && |highlights.value| < PlaneBytes)
    ensures r.Err? ==> r.error == IndexError
    ensures r.Ok? ==> Written(r.value, 0x10) == black[..PlaneBytes]
    ensures r.Ok? && highlights.Some? ==> Written(r.value, 0x13) == highlights.value[..PlaneBytes]
    ensures r.Ok? && highlights.None? ==> Written(r.value, 0x13) == []
    ensures r.Ok? ==> r.value[|r.value| - 1] == Cmd(0x12)
  {
    if |black| < PlaneBytes then Err(IndexError)
    else if highlights.None? then
      var blocks := [Block(0x10, black[..PlaneBytes]), Block(0x12, [])];
      WrittenOnly(blocks, 0x10, 0);
      WrittenBlocks(blocks, 0x13);
      DataUnderNone(blocks, 0x13);
      TransfersEnd(blocks);
      Ok(Transfers(blocks))
    else if |highlights.value| < PlaneBytes then Err(IndexError)
    else
      var blocks := [Block(0x10, black[..PlaneBytes]), Block(0x13, highlights.value[..PlaneBytes]), Block(0x12, [])];
      WrittenOnly(blocks, 0x10, 0);
      WrittenOnly(blocks, 0x13, 1);
      TransfersEnd(blocks);
      Ok(Transfers(blocks))
  }

  /** `Clear`: both planes white, then refresh. */
  function Clear(): (t: seq<Wire>)
    ensures Written(t, 0x10) == Repeat(0xFF, PlaneBytes) && Written(t, 0x13) == Repeat(0xFF, PlaneBytes)
    ensures t[|t| - 1] == Cmd(0x12)
  {
    var blocks := [Block(0x10, Repeat(0xFF, PlaneBytes)), Block(0x13, Repeat(0xFF, PlaneBytes)), Block(0x12, [])];
    WrittenOnly(blocks, 0x10, 0);
    WrittenOnly(blocks, 0x13, 1);
    TransfersEnd(blocks);
    Transfers(blocks)
  }
}
