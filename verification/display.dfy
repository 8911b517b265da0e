/**
 * `display.py`: how a rendered image reaches the e-Paper panel. The image
 * may be turned upside down, red pixels are extracted into a second
 * "highlight" image for panels that can show a second colour, and each
 * showing wakes the panel, sends the buffers and puts it back to sleep.
 * Images are grids of pixels; rendering and PIL's conversions are not
 * modelled.
 */
module Display {
  import opened Common
  import opened Registry
  import Layouts

  /** An 8-bit RGB pixel. */
  datatype Rgb = Rgb(r: int, g: int, b: int)

  /** A grid of pixels, row by row; `rgb` is whether PIL's mode is "RGB". */
  datatype Image = Image(rgb: bool, rows: seq<seq<Rgb>>)

  /** A pixel is red when its red channel is above 127 and both others below 127. */
  predicate IsRed(p: Rgb)
  {
    p.r > 127 && p.g < 127 && p.b < 127
  }

  /** `image.rotate(180)`: the last row first, each row reversed. */
  function Rotate180(img: Image): (r: Image)
    ensures r.rgb == img.rgb && |r.rows| == |img.rows|
    ensures forall y :: 0 <= y < |img.rows| ==> |r.rows[y]| == |img.rows[|img.rows| - 1 - y]|
    ensures forall y, x :: 0 <= y < |img.rows| && 0 <= x < |img.rows[|img.rows| - 1 - y]| ==>
              r.rows[y][x] == img.rows[|img.rows| - 1 - y][|img.rows[|img.rows| - 1 - y]| - 1 - x]
  {
    var h := |img.rows|;
    Image(img.rgb, seq(h, y requires 0 <= y < h =>
      var row := img.rows[h - 1 - y];
      seq(|row|, x requires 0 <= x < |row| => row[|row| - 1 - x])))
  }

  /** Turning an image upside down twice gives it back. */
  lemma Rotate180Twice(img: Image)
    ensures Rotate180(Rotate180(img)) == img
  {
    var r := Rotate180(img);
    var rr := Rotate180(r);
    assert |rr.rows| == |img.rows|;
    forall y | 0 <= y < |img.rows|
      ensures rr.rows[y] == img.rows[y]
    {
      assert |rr.rows[y]| == |img.rows[y]|;
    }
  }

  /** Some pixel of the grid is red. */
  predicate AnyRed(rows: seq<seq<Rgb>>)
  {
    exists y, x :: 0 <= y < |rows| && 0 <= x < |rows[y]| && IsRed(rows[y][x])
  }

  /** The "L"-mode highlight grid: 0 where the image is red, 255 elsewhere. */
  function RedMask(rows: seq<seq<Rgb>>): (m: seq<seq<int>>)
    ensures |m| == |rows|
    ensures forall y :: 0 <= y < |rows| ==> |m[y]| == |rows[y]|
    ensures forall y, x :: 0 <= y < |rows| && 0 <= x < |rows[y]| ==>
              m[y][x] == (if IsRed(rows[y][x]) then 0 else 255)
  {
    seq(|rows|, y requires 0 <= y < |rows| =>
      seq(|rows[y]|, x requires 0 <= x < |rows[y]| => if IsRed(rows[y][x]) then 0 else 255))
  }

  /**
   * The highlight image of `show_image`: only for panels with a second
   * colour, RGB images, and when at least one pixel is red.
   */
  function Highlight(hasHighlight: bool, img: Image): (r: Option<seq<seq<int>>>)
    ensures r.Some? <==> hasHighlight && img.rgb && AnyRed(img.rows)
    ensures r.Some? ==> r.value == RedMask(img.rows)
    ensures r.Some? ==> exists y, x :: 0 <= y < |r.value| && 0 <= x < |r.value[y]| && r.value[y][x] == 0
  {
    if hasHighlight && img.rgb && AnyRed(img.rows) then
      var m := RedMask(img.rows);
      assert exists y, x :: 0 <= y < |m| && 0 <= x < |m[y]| && m[y][x] == 0 by {
        var y, x :| 0 <= y < |img.rows| && 0 <= x < |img.rows[y]| && IsRed(img.rows[y][x]);
        assert m[y][x] == 0;
      }
      Some(m)
    else None
  }

  /** The calls a showing makes on the panel driver. */
  datatype PanelCall =
    | Init
    | ShowOne(image: Image)
    | ShowTwo(image: Image, highlight: Option<seq<seq<int>>>)
    | Sleep

  /**
   * `show_image`: flip if configured, compute the highlight, then wake the
   * panel, send one buffer (or two on a panel with a second colour, the
   * second possibly absent) and put it to sleep.
   */
  function ShowImage(hasHighlight: bool, flip: bool, img: Image): (calls: seq<PanelCall>)
    ensures |calls| == 3 && calls[0] == Init && calls[2] == Sleep
    ensures var shown := if flip then Rotate180(img) else img;
            if hasHighlight then calls[1] == ShowTwo(shown, Highlight(true, shown))
            else calls[1] == ShowOne(shown)
  {
    var shown := if flip then Rotate180(img) else img;
    var middle := if hasHighlight then ShowTwo(shown, Highlight(true, shown)) else ShowOne(shown);
    [Init, middle, Sleep]
  }

  /**
   * With `flip`, the highlight is taken from the turned image: its red
   * pixels are where the turned image is red, so the mask sent is the
   * original's mask turned upside down.
   */
  lemma FlippedHighlightIsTurned(img: Image, y: nat, x: nat)
    requires img.rgb && y < |img.rows| && x < |img.rows[y]|
    ensures var calls := ShowImage(true, true, img);
            var h := |img.rows|;
            calls[1].ShowTwo? && calls[1].highlight.Some? ==>
              calls[1].highlight.value[h - 1 - y][|img.rows[y]| - 1 - x] == RedMask(img.rows)[y][x]
  {
    var h := |img.rows|;
    var r := Rotate180(img);
    assert h - 1 - (h - 1 - y) == y;
    assert |img.rows[y]| - 1 - (|img.rows[y]| - 1 - x) == x;
  }

  /**
   * `show`: `LAYOUTS.get(name, LAYOUTS["default"])`. The default is looked
   * up first, so a registry without "default" raises `KeyError` even for a
   * registered name; otherwise an unknown name falls back to "default".
   */
  function ChooseLayout<F>(layouts: Reg<F>, name: string): (r: Result<Entry<F>>)
    ensures "default" !in layouts ==> r == Err(KeyError)
    ensures "default" in layouts && name in layouts ==> r == Ok(layouts[name])
    ensures "default" in layouts && name !in layouts ==> r == Ok(layouts["default"])
  {
    if "default" !in layouts then Err(KeyError)
    else if name in layouts then Ok(layouts[name])
    else Ok(layouts["default"])
  }

  /**
   * With the registered layouts every name finds a layout: its own, or the
   * default layout, which a Python function name with an underscore always
   * gets.
   */
  lemma RegisteredLayoutsAlwaysFound(fs: seq<PyFunc<Layouts.LayoutFunc>>, name: string)
    requires fs == Layouts.Builtins
    ensures ChooseLayout(RegisterAll(map[], fs), name).Ok?
    ensures '_' in name ==> ChooseLayout(RegisterAll(map[], fs), name).value.func.body == Layouts.DefaultLayout
  {
    Layouts.LayoutsContents(fs, "default");
    Layouts.LayoutsContents(fs, name);
    Layouts.BuiltinNames();
    assert Names(fs)[0] == "default";
    if '_' in name {
      Layouts.UnderscoreNamesNeverRegistered(fs, name);
    }
  }
}
