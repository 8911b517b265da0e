/**
 * `epd2in13.py`: the first 2.13 inch monochrome panel, 122 pixels wide and
 * 250 high, rows of 16 bytes. The RAM window and cursor take byte column
 * addresses (`x >> 3`) and two-byte row addresses, low byte first; the
 * image is written one row at a time, the cursor moved to each row
 * before it.
 */
module Epd2in13 {
  import opened Common
  import opened Bits
  import opened Raster
  import opened Panel
  import opened MonoBuffer

  const Width: nat := 122
  const Height: nat := 250

  /** The panel's layout: `linewidth` is `ceil(122 / 8)`. */
  function Screen(): (g: Geometry)
    ensures g.width == Width && g.height == Height && g.line == 16 && Valid(g)
  {
    Geometry(Width, Height, RowBytes(Width))
  }

  /** The byte reached by counting up from zero `m` times. */
  function CountTo(m: nat): (b: bv8)
    requires m < 256
    ensures b as int == m
    decreases m
  {
    if m == 0 then 0 else CountTo(m - 1) + 1
  }

  /** The byte holding `m`. */
  function ToByte(m: nat): (b: bv8)
    requires m < 256
    ensures b as int == m
  {
    ByteCast(m);
    m as bv8
  }

  /** Casting a number below 256 to a byte keeps its value. */
  lemma ByteCast(m: nat)
    requires m < 256
    ensures (m as bv8) as int == m
  {
    var b := CountTo(m);
    assert (b as int) as bv8 == b;
  }

  /** `v & 0xFF` for a non-negative `v`. */
  function LowByte(v: nat): (b: bv8)
    ensures b as int == v % 256
  {
    ToByte(v % 256)
  }

  /** A row address as sent: `y & 0xFF`, then `(y >> 8) & 0xFF`. */
  function Address(v: nat): (a: seq<bv8>)
    ensures |a| == 2
    ensures v < 65536 ==> a[0] as int + 256 * a[1] as int == v
  {
    TwoByteAddress(v);
    [LowByte(v), LowByte(v / 256)]
  }

  /** An address below 65536 is recovered from its two bytes. */
  lemma TwoByteAddress(v: nat)
    ensures v < 65536 ==> LowByte(v) as int + 256 * LowByte(v / 256) as int == v
  {
    if v < 65536 {
      var lo := LowByte(v) as int;
      var hi := LowByte(v / 256) as int;
      assert lo == v % 256;
      assert hi == (v / 256) % 256 == v / 256;
      assert v == 256 * (v / 256) + v % 256;
    }
  }

  /**
   * `SetWindows`: command 0x44 with the start and end byte columns
   * `(x >> 3) & 0xFF`, then 0x45 with the start and end rows, each low
   * byte first.
   */
  function SetWindows(xStart: nat, yStart: nat, xEnd: nat, yEnd: nat): (bs: seq<Block>)
    ensures |bs| == 2 && bs[0].cmd == 0x44 && bs[1].cmd == 0x45
    ensures bs[0].data == [LowByte(xStart / 8), LowByte(xEnd / 8)]
    ensures bs[1].data == Address(yStart) + Address(yEnd)
  {
    [Block(0x44, [LowByte(xStart / 8), LowByte(xEnd / 8)]), Block(0x45, Address(yStart) + Address(yEnd))]
  }

  /** `SetCursor`: command 0x4E with the byte column, then 0x4F with the row, low byte first. */
  function SetCursor(x: nat, y: nat): (bs: seq<Block>)
    ensures |bs| == 2 && bs[0].cmd == 0x4E && bs[1].cmd == 0x4F
    ensures bs[0].data == [LowByte(x / 8)] && bs[1].data == Address(y)
  {
    [Block(0x4E, [LowByte(x / 8)]), Block(0x4F, Address(y))]
  }

  /** `TurnOnDisplay`: update control 0xC4, activate, end of frame. */
  const TurnOn: seq<Block> := [Block(0x22, [0xC4]), Block(0x20, []), Block(0xFF, [])]

  /** Rows `0 .. h` of a frame of 16-byte rows, each preceded by moving the cursor to it. */
  function Rows(data: seq<bv8>, h: nat): seq<Block>
    requires 16 * h <= |data|
    decreases h
  {
    if h == 0 then []
    else Rows(data, h - 1) + SetCursor(0, h - 1) + [Block(0x24, data[16 * (h - 1) .. 16 * h])]
  }

  /** The rows store the frame's first `16 h` bytes under 0x24, in order. */
  lemma {:induction false} RowsWrite(data: seq<bv8>, h: nat)
    requires 16 * h <= |data|
    ensures DataUnder(Rows(data, h), 0x24) == data[..16 * h]
    decreases h
  {
    if h > 0 {
      var prev := Rows(data, h - 1);
      var line := data[16 * (h - 1) .. 16 * h];
      var row := SetCursor(0, h - 1) + [Block(0x24, line)];
      assert Rows(data, h) == prev + row;
      RowsWrite(data, h - 1);
      DataUnderAppend(prev, row, 0x24);
      DataUnderOnly(row, 0x24, 2);
      assert data[..16 * (h - 1)] + line == data[..16 * h];
    }
  }

  /** The row address whose two bytes, low first, start at `2 j`. */
  function RowAt(ys: seq<bv8>, j: nat): int
    requires 2 * j + 1 < |ys|
  {
    ys[2 * j] as int + 256 * ys[2 * j + 1] as int
  }

  /** `ys` holds the row addresses `0, 1, ..., h - 1`, in this order. */
  predicate VisitsRows(ys: seq<bv8>, h: nat)
  {
    |ys| == 2 * h && forall j :: 0 <= j < h ==> RowAt(ys, j) == j
  }

  /** The cursor visits rows `0 .. h` in order. */
  lemma {:induction false} RowsCursor(data: seq<bv8>, h: nat)
    requires 16 * h <= |data| && h <= 65536
    ensures VisitsRows(DataUnder(Rows(data, h), 0x4F), h)
    decreases h
  {
    if h > 0 {
      var prev := Rows(data, h - 1);
      var row := SetCursor(0, h - 1) + [Block(0x24, data[16 * (h - 1) .. 16 * h])];
      assert Rows(data, h) == prev + row;
      RowsCursor(data, h - 1);
      DataUnderAppend(prev, row, 0x4F);
      DataUnderOnly(row, 0x4F, 1);
      NextRowVisited(DataUnder(prev, 0x4F), h - 1);
    }
  }

  /** Appending the address of row `h` to the addresses of rows `0 .. h` gives those of rows `0 .. h + 1`. */
  lemma NextRowVisited(ys: seq<bv8>, h: nat)
    requires VisitsRows(ys, h) && h < 65536
    ensures VisitsRows(ys + Address(h), h + 1)
  {
    var zs := ys + Address(h);
    forall j | 0 <= j < h + 1
      ensures RowAt(zs, j) == j
    {
      if j < h {
        assert zs[2 * j] == ys[2 * j] && zs[2 * j + 1] == ys[2 * j + 1];
        assert RowAt(zs, j) == RowAt(ys, j);
      } else {
        assert zs[2 * j] == Address(h)[0] && zs[2 * j + 1] == Address(h)[1];
      }
    }
  }

  /** Neither the window over `h` rows nor the refresh stores anything under 0x24 or 0x4F. */
  lemma FrameEdges(h: nat)
    ensures DataUnder(SetWindows(0, 0, Width, h), 0x24) == [] && DataUnder(SetWindows(0, 0, Width, h), 0x4F) == []
    ensures DataUnder(TurnOn, 0x24) == [] && DataUnder(TurnOn, 0x4F) == []
  {
    DataUnderNone(SetWindows(0, 0, Width, h), 0x24);
    DataUnderNone(SetWindows(0, 0, Width, h), 0x4F);
    DataUnderNone(TurnOn, 0x24);
    DataUnderNone(TurnOn, 0x4F);
  }

  /** The blocks of a frame of `h` rows: window, rows, refresh. */
  function FrameBlocks(data: seq<bv8>, h: nat): seq<Block>
    requires 16 * h <= |data|
  {
    SetWindows(0, 0, Width, h) + Rows(data, h) + TurnOn
  }

  /** What the frame's blocks store under `c` is what its rows store. */
  lemma FrameUnder(data: seq<bv8>, h: nat, c: bv8)
    requires 16 * h <= |data| && (c == 0x24 || c == 0x4F)
    ensures Written(Transfers(FrameBlocks(data, h)), c) == DataUnder(Rows(data, h), c)
  {
    FrameEdges(h);
    Framed(SetWindows(0, 0, Width, h), Rows(data, h), TurnOn, c);
  }

  /** What a frame stores: the rows under 0x24 and the cursor's rows under 0x4F. */
  lemma FrameWrites(data: seq<bv8>, h: nat)
    requires 16 * h <= |data| && h <= 65536
    ensures Written(Transfers(FrameBlocks(data, h)), 0x24) == data[..16 * h]
    ensures VisitsRows(Written(Transfers(FrameBlocks(data, h)), 0x4F), h)
  {
    FrameUnder(data, h, 0x24);
    FrameUnder(data, h, 0x4F);
    RowsWrite(data, h);
    RowsCursor(data, h);
  }

  /** A sequence is its own whole prefix. */
  lemma WholePrefix(s: seq<bv8>)
    ensures s[..|s|] == s
  {
  }

  /**
   * `display`: the window covers the panel, then each of the 250 rows is
   * written after moving the cursor to it; the panel stores exactly the
   * buffer's first 4000 bytes, row by row. A shorter buffer raises
   * `IndexError`.
   */
  function Display(image: seq<bv8>): (r: Result<seq<Wire>>)
    ensures r.Err? <==> |image| < 16 * Height
    ensures r.Err? ==> r.error == IndexError
    ensures r.Ok? ==> Written(r.value, 0x24) == image[..16 * Height]
    ensures r.Ok? ==> VisitsRows(Written(r.value, 0x4F), Height)
  {
    if |image| < 16 * Height then Err(IndexError)
    else
      FrameWrites(image, Height);
      Ok(Transfers(FrameBlocks(image, Height)))
  }

  /** `Clear(color=0xFF)`: every row of the panel is filled with `color`. */
  function Clear(color: bv8): (t: seq<Wire>)
    ensures Written(t, 0x24) == Repeat(color, 16 * Height)
  {
    var data := Repeat(color, 16 * Height);
    FrameWrites(data, Height);
    WholePrefix(data);
    Transfers(FrameBlocks(data, Height))
  }

  /**
   * `getbuffer`: a 4000-byte buffer, white where no black pixel lands. An
   * upright image puts pixel `(x, y)` at column `x` of row `y`; one on its
   * side puts it at column `y` of row `249 - x`; any other size is not
   * drawn.
   */
  method GetBuffer(img: Raster) returns (buf: seq<bv8>)
    requires WellFormed(img)
    ensures |buf| == 16 * Height
    ensures img.width == Width && img.height == Height ==>
              forall col, row :: 0 <= col < 128 && 0 <= row < Height ==>
                (PixelBit(buf, Screen(), col, row) <==> !(col < Width && At(img, col, row) == 0))
    ensures img.width == Height && img.height == Width ==>
              forall col, row :: 0 <= col < 128 && 0 <= row < Height ==>
                (PixelBit(buf, Screen(), col, row) <==> !(col < Width && At(img, Height - 1 - row, col) == 0))
    ensures !(img.width == Width && img.height == Height) && !(img.width == Height && img.height == Width) ==>
              forall n :: 0 <= n < |buf| ==> buf[n] == 0xFF
  {
    var g := Screen();
    buf := Pack(img, g);
    if OrientationOf(img, g).None? {
      NoneIsWhite(buf, img, g);
    }
  }
}
