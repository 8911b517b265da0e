/**
 * `epd2in7_V2.py`: the second revision of the 2.7 inch panel, same 176 by
 * 264 pixels but a different controller. Monochrome images go to both RAM
 * planes (commands 0x24 and 0x26); four-level grey images are split into
 * two planes whose bits are the negations of the first revision's, with
 * the planes in the other order. The grey waveform comes from a 159-byte
 * look-up table whose last entries double as the drive voltages.
 */
module Epd2in7V2 {
  import opened Common
  import opened Panel
  import opened Gray4
  import opened MonoBuffer
  import Epd2in7

  const Width: nat := 176
  const Height: nat := 264
  /** The bytes of one grey plane, as the loops of `display_grayscale` count them. */
  const PlaneBytes: nat := 5808

  /** `LUT_DATA_4Gray`: the grey waveform table followed by the voltage settings. */
  const Lut4Gray: seq<bv8> := [
    0x40, 0x48, 0x80, 0x0, 0x0, 0x0, 0x0, 0x0, 0x0, 0x0, 0x0, 0x0,
    0x8, 0x48, 0x10, 0x0, 0x0, 0x0, 0x0, 0x0, 0x0, 0x0, 0x0, 0x0,
    0x2, 0x48, 0x4, 0x0, 0x0, 0x0, 0x0, 0x0, 0x0, 0x0, 0x0, 0x0,
    0x20, 0x48, 0x1, 0x0, 0x0, 0x0, 0x0, 0x0, 0x0, 0x0, 0x0, 0x0,
    0x0, 0x0, 0x0, 0x0, 0x0, 0x0, 0x0, 0x0, 0x0, 0x0, 0x0, 0x0,
    0xA, 0x19, 0x0, 0x3, 0x8, 0x0, 0x0, 0x14, 0x1, 0x0, 0x14, 0x1,
    0x0, 0x3, 0xA, 0x3, 0x0, 0x8, 0x19, 0x0, 0x0, 0x1, 0x0, 0x0,
    0x0, 0x0, 0x0, 0x1, 0x0, 0x0, 0x0, 0x0, 0x0, 0x0, 0x0, 0x0,
    0x0, 0x0, 0x0, 0x0, 0x0, 0x0, 0x0, 0x0, 0x0, 0x0, 0x0, 0x0,
    0x0, 0x0, 0x0, 0x0, 0x0, 0x0, 0x0, 0x0, 0x0, 0x0, 0x0, 0x0,
    0x0, 0x0, 0x0, 0x0, 0x0, 0x0, 0x0, 0x0, 0x0, 0x0, 0x0, 0x0,
    0x0, 0x0, 0x0, 0x0, 0x0, 0x0, 0x0, 0x0, 0x0, 0x0, 0x0, 0x0,
    0x22, 0x22, 0x22, 0x22, 0x22, 0x22, 0x0, 0x0, 0x0, 0x22, 0x17, 0x41,
    0x0, 0x32, 0x1C
  ]

  /** `TurnOnDisplay`: update control 0xF7, then activate. */
  const TurnOn: seq<Block> := [Block(0x22, [0xF7]), Block(0x20, [])]
  /** `TurnOnDisplay_4GRAY`: update control 0xC7, then activate. */
  const TurnOn4Gray: seq<Block> := [Block(0x22, [0xC7]), Block(0x20, [])]

  /** The row width `display_Base` computes is `ceil(176 / 8)`, 22 bytes, and a plane holds 5808 bytes. */
  lemma RowWidth()
    ensures RowBytes(Width) == 22 && RowBytes(Width) * Height == PlaneBytes
  {
  }

  /**
   * `display_Base`: the buffer, read row by row as `image[i + j * Width]`,
   * goes to both RAM planes, then the panel refreshes. Both planes receive
   * exactly the first 5808 bytes; a shorter buffer raises `IndexError`.
   */
  function DisplayBase(image: seq<bv8>): (r: Result<seq<Wire>>)
    ensures r.Err? <==> |image| < PlaneBytes
    ensures r.Err? ==> r.error == IndexError
    ensures r.Ok? ==> Written(r.value, 0x24) == image[..PlaneBytes] && Written(r.value, 0x26) == image[..PlaneBytes]
    ensures r.Ok? ==> Written(r.value, 0x22) == [0xF7] && r.value[|r.value| - 1] == Cmd(0x20)
  {
    var w := RowBytes(Width);
    if |image| < w * Height then Err(IndexError)
    else
      var rows := RowMajor(image, w, Height);
      var blocks := [Block(0x24, rows), Block(0x26, rows)] + TurnOn;
      RowMajorIsPrefix(image, w, Height);
      WrittenOnly(blocks, 0x24, 0);
      WrittenOnly(blocks, 0x26, 1);
      WrittenOnly(blocks, 0x22, 2);
      TransfersEnd(blocks);
      Ok(Transfers(blocks))
  }

  /**
   * `display_Base_color`: `Width * Height` copies of `color` on each plane;
   * the refresh is commented out in the source, so none is sent.
   */
  function DisplayBaseColor(color: bv8): (t: seq<Wire>)
    ensures Written(t, 0x24) == Repeat(color, PlaneBytes) && Written(t, 0x26) == Repeat(color, PlaneBytes)
    ensures Written(t, 0x20) == [] && Written(t, 0x22) == []
  {
    var blocks := [Block(0x24, Repeat(color, RowBytes(Width) * Height)), Block(0x26, Repeat(color, RowBytes(Width) * Height))];
    WrittenOnly(blocks, 0x24, 0);
    WrittenOnly(blocks, 0x26, 1);
    WrittenBlocks(blocks, 0x20);
    DataUnderNone(blocks, 0x20);
    WrittenBlocks(blocks, 0x22);
    DataUnderNone(blocks, 0x22);
    Transfers(blocks)
  }

  /**
   * `display_grayscale`: plane 0x24 receives, for each pixel of the grey
   * buffer, the negation of the low bit of its level (black and light
   * grey) and plane 0x26 the negation of the high bit (black and dark
   * grey); then the grey refresh. A buffer shorter than 11616 bytes
   * raises `IndexError`.
   */
  function DisplayGrayscale(image: seq<bv8>): (r: Result<seq<Wire>>)
    ensures r.Err? <==> |image| < 2 * PlaneBytes
    ensures r.Err? ==> r.error == IndexError
    ensures r.Ok? ==> Written(r.value, 0x24) == Plane(image, NotLowBit, PlaneBytes)
    ensures r.Ok? ==> Written(r.value, 0x26) == Plane(image, NotHighBit, PlaneBytes)
    ensures r.Ok? ==> Written(r.value, 0x22) == [0xC7] && r.value[|r.value| - 1] == Cmd(0x20)
  {
    if |image| < 2 * PlaneBytes then Err(IndexError)
    else
      var blocks := [Block(0x24, Plane(image, NotLowBit, PlaneBytes)), Block(0x26, Plane(image, NotHighBit, PlaneBytes))] + TurnOn4Gray;
      WrittenOnly(blocks, 0x24, 0);
      WrittenOnly(blocks, 0x26, 1);
      WrittenOnly(blocks, 0x22, 2);
      TransfersEnd(blocks);
      Ok(Transfers(blocks))
  }

  /**
   * The two revisions store the same grey picture differently: the second
   * revision's 0x24 plane is the bitwise complement of the first
   * revision's 0x13 plane, and its 0x26 plane the complement of the
   * first revision's 0x10 plane.
   */
  lemma PlanesAreSwappedComplements(image: seq<bv8>)
    requires |image| >= 2 * PlaneBytes
    ensures var v1 := Epd2in7.Display4Gray(image).value;
            var v2 := DisplayGrayscale(image).value;
            Written(v2, 0x24) == Complement(Written(v1, 0x13)) &&
            Written(v2, 0x26) == Complement(Written(v1, 0x10))
  {
    NegatedPlanes(image, PlaneBytes);
  }

  /** `Lut`: command 0x32 followed by all 159 table entries. */
  function Lut(): (t: seq<Wire>)
    ensures Written(t, 0x32) == Lut4Gray && |Written(t, 0x32)| == 159
  {
    var blocks := [Block(0x32, Lut4Gray)];
    WrittenOnly(blocks, 0x32, 0);
    Transfers(blocks)
  }

  /**
   * The blocks `init_grayscale` sends with the table `lut`, from the soft
   * reset to the RAM address counters; the waits on the busy pin and the
   * reset pin are not modelled.
   */
  function InitGrayscaleBlocks(lut: seq<bv8>): seq<Block>
    requires |lut| == 159
  {
    [Block(0x12, []), Block(0x74, [0x54]), Block(0x7E, [0x3B]), Block(0x01, [0x07, 0x01, 0x00]),
     Block(0x11, [0x03]), Block(0x44, [0x00, 0x15]), Block(0x45, [0x00, 0x00, 0x07, 0x01]),
     Block(0x3C, [0x00]), Block(0x2C, [lut[158]]), Block(0x3F, [lut[153]]),
     Block(0x03, [lut[154]]), Block(0x04, [lut[155], lut[156], lut[157]]),
     Block(0x32, lut), Block(0x4E, [0x00]), Block(0x4F, [0x00, 0x00])]
  }

  /**
   * `init_grayscale` with a 159-entry table: the RAM window spans the 22
   * bytes of a row and the 264 rows (its ends are `0x15` and `0x0107`, low
   * byte first); the VCOM, EOPQ, VGH and source voltages are the table's
   * entries 158, 153, 154 and 155 to 157, the only entries read by index,
   * and the whole table is loaded as the waveform.
   */
  function InitGrayscaleWith(lut: seq<bv8>): (t: seq<Wire>)
    requires |lut| == 159
    ensures var x := Written(t, 0x44); |x| == 2 && x[0] == 0 && 8 * (x[1] as int + 1) == Width
    ensures var y := Written(t, 0x45); |y| == 4 && y[0] == 0 && y[1] == 0 && y[2] as int + 256 * y[3] as int + 1 == Height
    ensures Written(t, 0x32) == lut
    ensures Written(t, 0x2C) == [lut[158]] && Written(t, 0x3F) == [lut[153]] && Written(t, 0x03) == [lut[154]]
    ensures Written(t, 0x04) == lut[155..158]
  {
    InitStoresX(lut);
    InitStoresY(lut);
    InitStoresVcom(lut);
    InitStoresEopq(lut);
    InitStoresGate(lut);
    InitStoresSource(lut);
    InitStoresTable(lut);
    Transfers(InitGrayscaleBlocks(lut))
  }

  /** The column window is bytes 0 to 0x15. */
  lemma InitStoresX(lut: seq<bv8>)
    requires |lut| == 159
    ensures Written(Transfers(InitGrayscaleBlocks(lut)), 0x44) == [0x00, 0x15]
  {
    WrittenOnly(InitGrayscaleBlocks(lut), 0x44, 5);
  }

  /** The row window is rows 0 to 0x0107, low byte first. */
  lemma InitStoresY(lut: seq<bv8>)
    requires |lut| == 159
    ensures Written(Transfers(InitGrayscaleBlocks(lut)), 0x45) == [0x00, 0x00, 0x07, 0x01]
  {
    WrittenOnly(InitGrayscaleBlocks(lut), 0x45, 6);
  }

  /** VCOM is table entry 158. */
  lemma InitStoresVcom(lut: seq<bv8>)
    requires |lut| == 159
    ensures Written(Transfers(InitGrayscaleBlocks(lut)), 0x2C) == [lut[158]]
  {
    WrittenOnly(InitGrayscaleBlocks(lut), 0x2C, 8);
  }

  /** EOPQ is table entry 153. */
  lemma InitStoresEopq(lut: seq<bv8>)
    requires |lut| == 159
    ensures Written(Transfers(InitGrayscaleBlocks(lut)), 0x3F) == [lut[153]]
  {
    WrittenOnly(InitGrayscaleBlocks(lut), 0x3F, 9);
  }

  /** The gate voltage is table entry 154. */
  lemma InitStoresGate(lut: seq<bv8>)
    requires |lut| == 159
    ensures Written(Transfers(InitGrayscaleBlocks(lut)), 0x03) == [lut[154]]
  {
    WrittenOnly(InitGrayscaleBlocks(lut), 0x03, 10);
  }

  /** The source voltages are table entries 155 to 157. */
  lemma InitStoresSource(lut: seq<bv8>)
    requires |lut| == 159
    ensures Written(Transfers(InitGrayscaleBlocks(lut)), 0x04) == lut[155..158]
  {
    WrittenOnly(InitGrayscaleBlocks(lut), 0x04, 11);
  }

  /** The waveform is the whole table. */
  lemma InitStoresTable(lut: seq<bv8>)
    requires |lut| == 159
    ensures Written(Transfers(InitGrayscaleBlocks(lut)), 0x32) == lut
  {
    WrittenOnly(InitGrayscaleBlocks(lut), 0x32, 12);
  }

  /**
   * `init_grayscale` with the driver's own table: the voltages sent are,
   * in order, 0x1C, 0x22, 0x17 and 0x41, 0x00, 0x32, and the waveform
   * loaded is the whole table.
   */
  function InitGrayscale(): (t: seq<Wire>)
    ensures Written(t, 0x2C) == [0x1C] && Written(t, 0x3F) == [0x22] && Written(t, 0x03) == [0x17]
    ensures Written(t, 0x04) == [0x41, 0x00, 0x32]
    ensures Written(t, 0x32) == Lut4Gray
  {
    LutVoltages();
    InitGrayscaleWith(Lut4Gray)
  }

  /** The table has 159 entries and its last six are the voltage settings. */
  lemma LutVoltages()
    ensures |Lut4Gray| == 159
    ensures Lut4Gray[153] == 0x22 && Lut4Gray[154] == 0x17 && Lut4Gray[155..158] == [0x41, 0x00, 0x32] && Lut4Gray[158] == 0x1C
  {
  }
}
