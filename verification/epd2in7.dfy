/**
 * `epd2in7.py`: the first revision of the 2.7 inch panel, 176 pixels wide
 * and 264 high. A monochrome image goes to the controller's second RAM
 * plane (command 0x13) after an all-white first plane (command 0x10); a
 * four-level grey image is packed four pixels to a byte and split into
 * two planes, the high bit of every pixel's level under 0x10 and the low
 * bit under 0x13.
 */
module Epd2in7 {
  import opened Common
  import opened Bits
  import opened Raster
  import opened Panel
  import opened Gray4

  const Width: nat := 176
  const Height: nat := 264
  /** `int(self.width * self.height / 8)`: the bytes of one RAM plane. */
  const PlaneBytes: nat := 5808
  /** Grey bytes per row of the turned image, four pixels each. */
  const GroupsPerRow: nat := 44

  /** A plane holds one bit per pixel and a grey row four pixels per byte. */
  lemma Geometry()
    ensures PlaneBytes == Width * Height / 8 && PlaneBytes == (Width / 8) * Height
    ensures GroupsPerRow == Width / 4
  {
  }

  /**
   * `getbuffer`: an image of the panel's size, upright or on its side, is
   * converted by PIL (`converted` stands for the bytes PIL produces, which
   * are not modelled); any other size gives a blank buffer of
   * `int(width / 8) * height` zero bytes.
   */
  function GetBuffer(img: Raster, converted: seq<bv8>): (r: seq<bv8>)
    ensures (img.width == Width && img.height == Height) || (img.width == Height && img.height == Width) ==> r == converted
    ensures !((img.width == Width && img.height == Height) || (img.width == Height && img.height == Width)) ==>
              |r| == PlaneBytes && forall i :: 0 <= i < |r| ==> r[i] == 0
  {
    if (img.width == Width && img.height == Height) || (img.width == Height && img.height == Width) then converted
    else Repeat(0, (Width / 8) * Height)
  }

  /**
   * `getbuffer_4Gray`: only an image lying on its side (264 wide, 176 high)
   * is accepted; otherwise the function falls off its end and returns
   * `None`. The image is turned upright, each pixel quantised to four
   * levels, and four neighbouring pixels packed into a byte, the leftmost
   * in the top two bits. Stated against the image as given: grey byte `i`
   * holds the pixels `4 (i % 44)` to `4 (i % 44) + 3` of row `i / 44` of
   * the turned image, which are column `263 - i / 44` of the original.
   */
  function GetBuffer4Gray(img: Raster): (r: Option<seq<bv8>>)
    requires WellFormed(img)
    ensures r.Some? <==> img.width == Height && img.height == Width
    ensures r.Some? ==> |r.value| == 2 * PlaneBytes
    ensures r.Some? ==> forall i, k :: 0 <= i < |r.value| && 0 <= k < 4 ==>
              Top(r.value[i], k) == Quantize(At(img, Height - 1 - i / GroupsPerRow, 4 * (i % GroupsPerRow) + k))
  {
    if img.width == Height && img.height == Width then Some(PackRows(Rotate90(img))) else None
  }

  /** The reshape to rows of four-pixel groups, each group packed by `PackGroup`. */
  function PackRows(t: Raster): (r: seq<bv8>)
    requires WellFormed(t) && t.width == Width && t.height == Height
    ensures |r| == Height * GroupsPerRow
    ensures forall i, k :: 0 <= i < |r| && 0 <= k < 4 ==>
              Top(r[i], k) == Quantize(At(t, 4 * (i % GroupsPerRow) + k, i / GroupsPerRow))
  {
    var n := Height * GroupsPerRow;
    var r := seq(n, i requires 0 <= i < n => GroupBounds(i, 3); Group(t, i / GroupsPerRow, i % GroupsPerRow));
    assert forall i, k :: 0 <= i < n && 0 <= k < 4 ==>
        Top(r[i], k) == Quantize(At(t, 4 * (i % GroupsPerRow) + k, i / GroupsPerRow)) by {
      forall i, k | 0 <= i < n && 0 <= k < 4
        ensures Top(r[i], k) == Quantize(At(t, 4 * (i % GroupsPerRow) + k, i / GroupsPerRow))
      {
        GroupBounds(i, k);
      }
    }
    r
  }

  /** The four pixels `4 g` to `4 g + 3` of row `y`, packed. */
  function Group(t: Raster, y: nat, g: nat): (b: bv8)
    requires WellFormed(t) && t.width == Width && t.height == Height
    requires y < Height && g < GroupsPerRow
    ensures forall k :: 0 <= k < 4 ==> Top(b, k) == Quantize(At(t, 4 * g + k, y))
  {
    PackGroup(t.rows[y][4 * g .. 4 * g + 4])
  }

  /** Grey byte `i` lies inside the turned image. */
  lemma GroupBounds(i: nat, k: nat)
    requires i < Height * GroupsPerRow && k < 4
    ensures i / GroupsPerRow < Height && i % GroupsPerRow < GroupsPerRow && 4 * (i % GroupsPerRow) + k < Width
  {
  }

  /** Grey byte `44 y + g` lies in row `y`, at group `g`. */
  lemma GroupIndex(y: nat, g: nat)
    requires g < GroupsPerRow
    ensures (GroupsPerRow * y + g) / GroupsPerRow == y && (GroupsPerRow * y + g) % GroupsPerRow == g
  {
  }

  /** The blocks `display` sends: a white 0x10 plane, the image on 0x13, then refresh (0x12). */
  function DisplayBlocks(image: seq<bv8>): seq<Block>
    requires |image| >= PlaneBytes
  {
    [Block(0x10, Repeat(0xFF, PlaneBytes)), Block(0x13, image[..PlaneBytes]), Block(0x12, [])]
  }

  /**
   * `display`: the first 5808 image bytes are stored on plane 0x13 and the
   * 0x10 plane is filled white; a shorter image raises `IndexError`.
   */
  function Display(image: seq<bv8>): (r: Result<seq<Wire>>)
    ensures r.Err? <==> |image| < PlaneBytes
    ensures r.Err? ==> r.error == IndexError
    ensures r.Ok? ==> Written(r.value, 0x13) == image[..PlaneBytes]
    ensures r.Ok? ==> Written(r.value, 0x10) == Repeat(0xFF, PlaneBytes)
    ensures r.Ok? ==> r.value[|r.value| - 1] == Cmd(0x12)
  {
    if |image| < PlaneBytes then Err(IndexError)
    else
      var blocks := DisplayBlocks(image);
      WrittenOnly(blocks, 0x13, 1);
      WrittenOnly(blocks, 0x10, 0);
      TransfersEnd(blocks);
      Ok(Transfers(blocks))
  }

  /** The blocks `Clear` sends: `color` on both planes, then refresh. */
  function ClearBlocks(color: bv8): seq<Block>
  {
    [Block(0x10, Repeat(color, PlaneBytes)), Block(0x13, Repeat(color, PlaneBytes)), Block(0x12, [])]
  }

  /** `Clear(color=0xFF)`: both planes are filled with `color`. */
  function Clear(color: bv8): (t: seq<Wire>)
    ensures Written(t, 0x10) == Repeat(color, PlaneBytes) && Written(t, 0x13) == Repeat(color, PlaneBytes)
    ensures t[|t| - 1] == Cmd(0x12)
  {
    var blocks := ClearBlocks(color);
    WrittenOnly(blocks, 0x10, 0);
    WrittenOnly(blocks, 0x13, 1);
    TransfersEnd(blocks);
    Transfers(blocks)
  }

  /** The blocks of `display_4Gray` up to its look-up table, which is not modelled. */
  function Display4GrayBlocks(image: seq<bv8>): seq<Block>
    requires |image| >= 2 * PlaneBytes
  {
    [Block(0x10, Plane(image, HighBit, PlaneBytes)), Block(0x13, Plane(image, LowBit, PlaneBytes)), Block(0x12, [])]
  }

  /**
   * `display_4Gray`: plane 0x10 receives, for each pixel of the grey
   * buffer, the high bit of its level (white and light grey) and plane
   * 0x13 the low bit (white and dark grey), eight pixels to a byte. Each
   * plane is computed by the loops `EncodePlane` models; a buffer shorter
   * than 11616 bytes raises `IndexError`.
   */
  function Display4Gray(image: seq<bv8>): (r: Result<seq<Wire>>)
    ensures r.Err? <==> |image| < 2 * PlaneBytes
    ensures r.Err? ==> r.error == IndexError
    ensures r.Ok? ==> Written(r.value, 0x10) == Plane(image, HighBit, PlaneBytes)
    ensures r.Ok? ==> Written(r.value, 0x13) == Plane(image, LowBit, PlaneBytes)
  {
    if |image| < 2 * PlaneBytes then Err(IndexError)
    else
      var blocks := Display4GrayBlocks(image);
      WrittenOnly(blocks, 0x10, 0);
      WrittenOnly(blocks, 0x13, 1);
      Ok(Transfers(blocks))
  }

  /**
   * From picture to panel: after `getbuffer_4Gray` and `display_4Gray`,
   * the pixel at column `x` of row `y` of the upright panel (column
   * `263 - y`, row `x` of the picture given on its side) is stored at
   * byte `22 y + x / 8`, bit `x % 8`, of both planes: plane 0x10 holds
   * whether its quantised level is white or light grey, plane 0x13 whether
   * it is white or dark grey.
   */
  lemma GreyPixelReachesPlanes(img: Raster, x: nat, y: nat)
    requires WellFormed(img) && img.width == Height && img.height == Width
    requires x < Width && y < Height
    ensures var t := Display4Gray(GetBuffer4Gray(img).value).value;
            var q := Quantize(At(img, Height - 1 - y, x));
            (Bit(Written(t, 0x10)[(Width / 8) * y + x / 8], x % 8) <==> q & 0x80 != 0) &&
            (Bit(Written(t, 0x13)[(Width / 8) * y + x / 8], x % 8) <==> q & 0x40 != 0)
  {
    var buf := GetBuffer4Gray(img).value;
    var q := Quantize(At(img, Height - 1 - y, x));
    GreyByteOfPixel(img, x, y);
    PlaneBitOfPixel(buf, HighBit, x, y);
    PlaneBitOfPixel(buf, LowBit, x, y);
    assert BitFor(HighBit, q) <==> q & 0x80 != 0;
    assert BitFor(LowBit, q) <==> q & 0x40 != 0;
  }

  /** Pixel `x` of upright row `y` is in grey byte `44 y + x / 4`, at position `x % 4`. */
  lemma GreyByteOfPixel(img: Raster, x: nat, y: nat)
    requires WellFormed(img) && img.width == Height && img.height == Width
    requires x < Width && y < Height
    ensures var buf := GetBuffer4Gray(img).value;
            GroupsPerRow * y + x / 4 < |buf| &&
            Top(buf[GroupsPerRow * y + x / 4], x % 4) == Quantize(At(img, Height - 1 - y, x))
  {
    var buf := GetBuffer4Gray(img).value;
    ColumnSplit(x);
    var g := GroupsPerRow * y + x / 4;
    GroupIndex(y, x / 4);
    assert Top(buf[g], x % 4) == Quantize(At(img, Height - 1 - g / GroupsPerRow, 4 * (g % GroupsPerRow) + x % 4));
  }

  /** Pixel `x` of row `y` lands in plane byte `22 y + x / 8`, at bit `x % 8`. */
  lemma PlaneBitOfPixel(buf: seq<bv8>, rule: Rule, x: nat, y: nat)
    requires |buf| >= 2 * PlaneBytes && x < Width && y < Height
    ensures (Width / 8) * y + x / 8 < PlaneBytes && GroupsPerRow * y + x / 4 < |buf|
    ensures Bit(Plane(buf, rule, PlaneBytes)[(Width / 8) * y + x / 8], x % 8) <==>
              BitFor(rule, Top(buf[GroupsPerRow * y + x / 4], x % 4))
  {
    ColumnSplit(x);
    var i := 22 * y + x / 8;
    var m := x % 8;
    assert 2 * i + m / 4 == GroupsPerRow * y + x / 4;
    assert Bit(Plane(buf, rule, PlaneBytes)[i], m) <==> BitFor(rule, Top(buf[2 * i + m / 4], m % 4));
  }

  /**
   * Column `x` is bit `x % 8` of byte `x / 8`, which holds grey bytes
   * `2 (x / 8)` and `2 (x / 8) + 1`; it is pixel `x % 4` of grey group `x / 4`.
   */
  lemma ColumnSplit(x: nat)
    requires x < Width
    ensures x / 8 < 22 && x / 4 == 2 * (x / 8) + (x % 8) / 4 && x % 4 == (x % 8) % 4
    ensures x / 4 < GroupsPerRow && 4 * (x / 4) + x % 4 == x
  {
    var q := x / 8;
    var m := x % 8;
    assert x == 8 * q + m;
    assert x / 4 == 2 * q + m / 4;
  }
}
