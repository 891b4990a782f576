/** Drawing a whole board (`draw_img`): every cell, in row-major order, is
    drawn as one glyph cell of an RGB buffer `width * 8` pixels wide and
    `height * 14` pixels tall. */
module Render {
  import opened Bytes
  import opened Things
  import opened World
  import opened ColorCodes
  import opened Raster

  /** The overlay cell used for boards whose overlay is not drawn: a blank
      character, colour 0x07. */
  const SyntheticOverlayCell := OverlayCell(Blank, 0x07)

  /** The overlay the renderer reads: the stored one in normal and static
      mode, else `cells` synthetic blank cells. */
  function EffectiveOverlay(overlay: Option<(OverlayMode, seq<OverlayCell>)>, cells: nat): (r: seq<OverlayCell>)
    ensures (overlay.Some? && !overlay.value.0.OtherMode?) ==> r == overlay.value.1
    ensures !(overlay.Some? && !overlay.value.0.OtherMode?) ==>
              |r| == cells && forall i :: 0 <= i < cells ==> r[i].ch == Blank
  {
    match overlay
    case Some((NormalMode, data)) => data
    case Some((StaticMode, data)) => data
    case _ => seq(cells, _ => SyntheticOverlayCell)
  }

  /** Builds the stand-in overlay cell by cell: `cells` synthetic blank
      cells. */
  method SyntheticOverlay(cells: nat) returns (r: seq<OverlayCell>)
    ensures |r| == cells
    ensures forall i :: 0 <= i < cells ==> r[i] == SyntheticOverlayCell
  {
    r := [];
    for i := 0 to cells
      invariant |r| == i
      invariant forall j :: 0 <= j < i ==> r[j] == SyntheticOverlayCell
    {
      r := r + [SyntheticOverlayCell];
    }
  }

  /** The overlay `draw_img` draws with: the stored cells in normal and
      static mode, else a freshly built synthetic overlay. */
  method SelectOverlay(overlay: Option<(OverlayMode, seq<OverlayCell>)>, cells: nat) returns (r: seq<OverlayCell>)
    ensures r == EffectiveOverlay(overlay, cells)
  {
    match overlay {
      case Some((StaticMode, data)) =>
        r := data;
      case Some((NormalMode, data)) =>
        r := data;
      case _ =>
        r := SyntheticOverlay(cells);
    }
  }

  /** A new buffer of `size` bytes, each pushed as zero. */
  method ZeroedBuffer(size: nat) returns (pixels: array<u8>)
    ensures fresh(pixels) && pixels.Length == size
    ensures forall k :: 0 <= k < size ==> pixels[k] == 0
  {
    pixels := new u8[size];
    for i := 0 to size
      invariant forall j :: 0 <= j < i ==> pixels[j] == 0
    {
      pixels[i] := 0;
    }
  }

  /** Everything drawing a board reads, as values. */
  datatype View = View(width: nat, height: nat,
                       level: seq<Cell>, under: seq<Cell>, overlay: seq<OverlayCell>,
                       robotGlyphs: seq<u8>, sensorGlyphs: seq<u8>,
                       charset: seq<u8>, palette: seq<Rgb>)

  function RobotGlyphs(robots: seq<Robot>): (r: seq<u8>)
    reads robots
    ensures |r| == |robots| && forall i :: 0 <= i < |robots| ==> r[i] == robots[i].ch
  {
    seq(|robots|, i reads robots requires 0 <= i < |robots| => robots[i].ch)
  }

  function SensorGlyphs(sensors: seq<Sensor>): (r: seq<u8>)
    ensures |r| == |sensors| && forall i :: 0 <= i < |sensors| ==> r[i] == sensors[i].ch
  {
    seq(|sensors|, i requires 0 <= i < |sensors| => sensors[i].ch)
  }

  /** What `draw_img` reads of the world, the board and its robots. */
  function ViewOf(world: WorldState, board: Board, robots: seq<Robot>): View
    reads world, world.charset, board, robots
  {
    View(board.width, board.height, board.level, board.under,
         EffectiveOverlay(board.overlay, board.width * board.height),
         RobotGlyphs(robots), SensorGlyphs(board.sensors),
         world.charset[..], world.palette)
  }

  function Cells(v: View): nat {
    v.width * v.height
  }

  /** Bytes between two pixel rows of the image. */
  function Stride(v: View): nat {
    v.width * GlyphWidth * 3
  }

  /** Bytes of the whole image. */
  function ImageSize(v: View): nat {
    v.width * GlyphWidth * (v.height * GlyphHeight) * 3
  }

  /** The layers have one entry per cell, the palette length is a usable
      divisor and scales within a byte, and the font has all 256 glyphs. */
  predicate Shaped(v: View) {
    |v.level| == Cells(v) && |v.under| == Cells(v) && |v.overlay| == Cells(v) &&
    PaletteSize(|v.palette|) && PaletteSixBit(v.palette) && |v.charset| >= CharsetBytes
  }

  /** The glyph and the palette entries one cell is drawn with. */
  datatype Look = Look(glyph: u8, fg: u8, bg: u8)

  /** A cell can be drawn: a robot or sensor it shows exists, and its
      background part names a palette entry. */
  predicate CellDrawable(v: View, pos: nat)
    requires Shaped(v) && pos < Cells(v)
  {
    (v.overlay[pos].ch != Blank ||
     GlyphDefined(v.level[pos].id, v.level[pos].param, v.robotGlyphs, v.sensorGlyphs)) &&
    ResolveColor(v.level[pos].color, v.under[pos].color,
                 v.overlay[pos].ch, v.overlay[pos].color, |v.palette|) / |v.palette| < |v.palette|
  }

  predicate RenderOk(v: View) {
    Shaped(v) && forall pos :: 0 <= pos < Cells(v) ==> CellDrawable(v, pos)
  }

  /** Cell `pos` shows the overlay's character when that is visible and its
      thing's glyph otherwise, in the two parts of its resolved code. */
  function CellLook(v: View, pos: nat): (r: Look)
    requires Shaped(v) && pos < Cells(v) && CellDrawable(v, pos)
    ensures r.fg < |v.palette| && r.bg < |v.palette|
  {
    var cell, o, n := v.level[pos], v.overlay[pos], |v.palette|;
    var glyph := if o.ch != Blank then o.ch
                 else CharFromId(cell.id, cell.param, v.robotGlyphs, v.sensorGlyphs);
    var code := ResolveColor(cell.color, v.under[pos].color, o.ch, o.color, n);
    Look(glyph, Foreground(code, n), Background(code, n))
  }

  /** The cell that byte `k` of the image belongs to, in row-major order. */
  function CellIndexOf(v: View, k: nat): nat
    requires v.width > 0
  {
    PixelRow(k, Stride(v)) / GlyphHeight * v.width + PixelCol(k, Stride(v)) / GlyphWidth
  }

  /** Every byte of the image belongs to one of its cells. */
  lemma ByteInSomeCell(v: View, k: nat)
    requires k < ImageSize(v)
    ensures v.width > 0 && v.height > 0
    ensures PixelCol(k, Stride(v)) / GlyphWidth < v.width
    ensures CellIndexOf(v, k) < Cells(v)
  {
    var w, h, stride := v.width, v.height, Stride(v);
    assert ImageSize(v) == h * GlyphHeight * stride;
    DivBelow(k, stride, h * GlyphHeight);
    var a := PixelRow(k, stride) / GlyphHeight;
    var b := PixelCol(k, stride) / GlyphWidth;
    DivBelow(k % stride, 3, w * GlyphWidth);
    MulMonotone(a + 1, h, w);
  }

  /** Byte `k` lies in the cell drawn at (`pos % width`, `pos / width`)
      exactly when its cell index is `pos`. */
  lemma CellOfByte(v: View, k: nat, pos: nat)
    requires k < ImageSize(v) && pos < Cells(v)
    ensures v.width > 0
    ensures InCell(k, Stride(v), pos % v.width, pos / v.width) <==> CellIndexOf(v, k) == pos
  {
    ByteInSomeCell(v, k);
    var a := PixelRow(k, Stride(v)) / GlyphHeight;
    var b := PixelCol(k, Stride(v)) / GlyphWidth;
    if CellIndexOf(v, k) == pos {
      DivModUnique(pos, v.width, a, b);
    }
  }

  /** The glyph cell at cell column `x`, cell row `y` lies within one pixel
      row span and within the image. */
  lemma CellSpan(v: View, x: nat, y: nat)
    requires x < v.width && y < v.height
    ensures (x + 1) * GlyphWidth * 3 <= Stride(v)
    ensures Offset(y * GlyphHeight + GlyphHeight - 1, x * GlyphWidth + GlyphWidth - 1, 3, Stride(v))
              <= ImageSize(v)
  {
    var stride := Stride(v);
    MulMonotone(x + 1, v.width, GlyphWidth * 3);
    MulMonotone(y * GlyphHeight + GlyphHeight, v.height * GlyphHeight, stride);
    assert ImageSize(v) == v.height * GlyphHeight * stride;
  }

  /** Cell `pos` sits at a cell column and row of the image. */
  lemma CellPlace(v: View, pos: nat)
    requires pos < Cells(v)
    ensures v.width > 0 && pos / v.width < v.height
  {
    var w, h := v.width, v.height;
    if pos / w >= h {
      MulMonotone(h, pos / w, w);
    }
  }

  /** The glyph cell of cell `pos` lies within one pixel row span and
      within the image. */
  lemma CellFits(v: View, pos: nat)
    requires pos < Cells(v)
    ensures v.width > 0
    ensures (pos % v.width + 1) * GlyphWidth * 3 <= Stride(v)
    ensures Offset(pos / v.width * GlyphHeight + GlyphHeight - 1,
                   pos % v.width * GlyphWidth + GlyphWidth - 1, 3, Stride(v)) <= ImageSize(v)
  {
    CellPlace(v, pos);
    CellSpan(v, pos % v.width, pos / v.width);
  }

  /** The value of byte `k` of a board's image. */
  function RenderedByte(v: View, k: nat): u8
    requires RenderOk(v) && k < ImageSize(v)
  {
    ByteInSomeCell(v, k);
    var look := CellLook(v, CellIndexOf(v, k));
    CellByte(v.charset, v.palette, look.glyph, look.fg, look.bg, k, Stride(v))
  }

  /** `buf` holds the image's bytes for cells `0 .. pos - 1` and zeros
      elsewhere. */
  predicate DrawnBefore(v: View, buf: seq<u8>, pos: nat)
    requires RenderOk(v)
  {
    |buf| == ImageSize(v) &&
    forall k :: 0 <= k < |buf| ==>
      buf[k] == if v.width > 0 && CellIndexOf(v, k) < pos then RenderedByte(v, k) else 0
  }

  /** Drawing cell `pos` over a buffer holding cells `0 .. pos - 1` gives
      one holding cells `0 .. pos`. */
  lemma DrawNextCell(v: View, pos: nat, before: seq<u8>, after: seq<u8>)
    requires RenderOk(v) && pos < Cells(v) && DrawnBefore(v, before, pos) && |after| == |before|
    requires v.width > 0
    requires forall k :: 0 <= k < |after| ==>
               after[k] == if InCell(k, Stride(v), pos % v.width, pos / v.width)
                           then CellByte(v.charset, v.palette, CellLook(v, pos).glyph,
                                         CellLook(v, pos).fg, CellLook(v, pos).bg, k, Stride(v))
                           else before[k]
    ensures DrawnBefore(v, after, pos + 1)
  {
    forall k | 0 <= k < |after|
      ensures after[k] == if CellIndexOf(v, k) < pos + 1 then RenderedByte(v, k) else 0
    {
      CellOfByte(v, k, pos);
    }
  }

  /** Draws cell `pos` of a board (one turn of `draw_img`'s cell loop):
      its character is the overlay's when that is not blank and its thing's
      glyph otherwise; its colour is its own code with the background taken
      from the under layer when it has none, then the overlay's colour laid
      over it. The buffer then holds cells `0 .. pos`. */
  method DrawCell(v: View, pos: nat, pixels: array<u8>)
    requires RenderOk(v) && pos < Cells(v)
    requires DrawnBefore(v, pixels[..], pos)
    modifies pixels
    ensures DrawnBefore(v, pixels[..], pos + 1)
  {
    assert CellDrawable(v, pos);
    var cell, under, o := v.level[pos], v.under[pos], v.overlay[pos];
    var n := |v.palette|;
    var overlayVisible := o.ch != Blank;
    var overlaySeeThrough := o.color / n == 0 && o.color != 0;
    var ch := if !overlayVisible then CharFromId(cell.id, cell.param, v.robotGlyphs, v.sensorGlyphs)
              else o.ch;
    var color := cell.color;
    if color / n == 0 {
      color := WrappingAdd(BackgroundPart(under.color, n), color);
    }
    assert color == FillBackground(cell.color, under.color, n);
    if overlayVisible {
      if overlaySeeThrough {
        color := WrappingAdd(BackgroundPart(color, n), o.color);
      } else {
        color := o.color;
      }
    }
    assert color == ResolveColor(cell.color, under.color, o.ch, o.color, n);
    assert Look(ch, Foreground(color, n), Background(color, n)) == CellLook(v, pos);

    var x, y := pos % v.width, pos / v.width;
    CellFits(v, pos);
    ghost var before := pixels[..];
    DrawChar(ch, Foreground(color, n), Background(color, n), x, y, Stride(v), v.charset, v.palette, pixels);
    DrawNextCell(v, pos, before, pixels[..]);
  }

  /** Draws a board: a zeroed buffer of exactly `width*8 * height*14 * 3`
      bytes, then every cell in row-major order with its glyph and colours.
      The result is the rendered image byte for byte. */
  method DrawImg(world: WorldState, board: Board, robots: seq<Robot>) returns (pixels: array<u8>)
    requires RenderOk(ViewOf(world, board, robots))
    ensures fresh(pixels)
    ensures pixels.Length == board.width * GlyphWidth * (board.height * GlyphHeight) * 3
    ensures forall k :: 0 <= k < pixels.Length ==> pixels[k] == RenderedByte(ViewOf(world, board, robots), k)
  {
    var pxWidth := board.width * GlyphWidth;
    var pxHeight := board.height * GlyphHeight;
    var size := pxWidth * pxHeight * 3;
    pixels := ZeroedBuffer(size);
    var overlay := SelectOverlay(board.overlay, board.width * board.height);
    var v := View(board.width, board.height, board.level, board.under, overlay,
                  RobotGlyphs(robots), SensorGlyphs(board.sensors), world.charset[..], world.palette);
    assert v == ViewOf(world, board, robots);

    var pos := 0;
    while pos < |v.level|
      invariant 0 <= pos <= Cells(v)
      invariant DrawnBefore(v, pixels[..], pos)
    {
      DrawCell(v, pos, pixels);
      pos := pos + 1;
    }
    forall k | 0 <= k < size
      ensures pixels[k] == RenderedByte(v, k)
    {
      ByteInSomeCell(v, k);
      assert pixels[k] == pixels[..][k];
    }
  }

  /** Where pixel (`row`, `col`), channel `chan` of the cell at index `pos`
      lies: inside the image, in cell `pos`, at that row, column and channel
      of the cell. */
  lemma PixelOfCell(v: View, pos: nat, row: nat, col: nat, chan: nat)
    requires pos < Cells(v) && row < GlyphHeight && col < GlyphWidth && chan < 3
    ensures v.width > 0
    ensures var k := Offset(pos / v.width * GlyphHeight + row, pos % v.width * GlyphWidth + col,
                            chan, Stride(v));
            k < ImageSize(v) && CellIndexOf(v, k) == pos &&
            PixelRow(k, Stride(v)) % GlyphHeight == row && PixelCol(k, Stride(v)) % GlyphWidth == col &&
            Channel(k, Stride(v)) == chan
  {
    CellPlace(v, pos);
    var x, y := pos % v.width, pos / v.width;
    CellPixelAt(v, x, y, row, col, chan);
    assert pos == y * v.width + x;
  }

  /** Channel `chan` of pixel (`row`, `col`) of the glyph cell at cell
      column `x`, cell row `y` lies in the image, in that cell, at that row,
      column and channel. */
  lemma CellPixelAt(v: View, x: nat, y: nat, row: nat, col: nat, chan: nat)
    requires x < v.width && y < v.height && row < GlyphHeight && col < GlyphWidth && chan < 3
    ensures var k := Offset(y * GlyphHeight + row, x * GlyphWidth + col, chan, Stride(v));
            k < ImageSize(v) &&
            PixelRow(k, Stride(v)) / GlyphHeight == y && PixelRow(k, Stride(v)) % GlyphHeight == row &&
            PixelCol(k, Stride(v)) / GlyphWidth == x && PixelCol(k, Stride(v)) % GlyphWidth == col &&
            Channel(k, Stride(v)) == chan
  {
    CellSpan(v, x, y);
    var stride := Stride(v);
    var prow, pcol := y * GlyphHeight + row, x * GlyphWidth + col;
    assert Offset(prow, pcol, chan, stride) < ImageSize(v) by {
      MulMonotone(prow, y * GlyphHeight + GlyphHeight - 1, stride);
    }
    Locate(prow, pcol, chan, stride);
    DivModUnique(prow, GlyphHeight, y, row);
    DivModUnique(pcol, GlyphWidth, x, col);
  }

  /** Byte for byte, the cell at index `pos` is drawn at cell column
      `pos % width`, cell row `pos / width`: channel `chan` of its pixel
      (`row`, `col`) is the scaled foreground entry where the glyph is lit
      and the scaled background entry elsewhere. */
  lemma RenderedCellPixel(v: View, pos: nat, row: nat, col: nat, chan: nat)
    requires RenderOk(v) && pos < Cells(v)
    requires row < GlyphHeight && col < GlyphWidth && chan < 3
    ensures v.width > 0
    ensures Offset(pos / v.width * GlyphHeight + row, pos % v.width * GlyphWidth + col, chan, Stride(v))
              < ImageSize(v)
    ensures var look := CellLook(v, pos);
            RenderedByte(v, Offset(pos / v.width * GlyphHeight + row,
                                   pos % v.width * GlyphWidth + col, chan, Stride(v)))
              == Scaled(CellPixel(v.charset, v.palette, look.glyph, look.fg, look.bg, row, col), chan)
  {
    PixelOfCell(v, pos, row, col, chan);
  }

  /** For palette lengths dividing 256, a cell's colours read layer by
      layer: foreground from a visible overlay else the cell; background
      from an opaque visible overlay, else the cell, else the layer beneath. */
  lemma {:induction false} CellColoursByLayers(v: View, pos: nat)
    requires RenderOk(v) && pos < Cells(v) && 256 % |v.palette| == 0
    ensures var cell, o := v.level[pos], v.overlay[pos];
            CellLook(v, pos).fg
              == LayeredForeground(cell.color, v.under[pos].color, o.ch, o.color, |v.palette|) &&
            CellLook(v, pos).bg
              == LayeredBackground(cell.color, v.under[pos].color, o.ch, o.color, |v.palette|)
  {
    var cell, o := v.level[pos], v.overlay[pos];
    ResolveMatchesLayers(cell.color, v.under[pos].color, o.ch, o.color, |v.palette|);
  }

  /** A board whose overlay is absent or not drawn shows every cell's own
      glyph, in colours decided by the cell and the layer beneath alone. */
  lemma HiddenOverlayShowsThings(v: View, stored: Option<(OverlayMode, seq<OverlayCell>)>, pos: nat)
    requires !(stored.Some? && !stored.value.0.OtherMode?)
    requires v.overlay == EffectiveOverlay(stored, Cells(v))
    requires RenderOk(v) && pos < Cells(v)
    ensures var cell, n := v.level[pos], |v.palette|;
            var filled := FillBackground(cell.color, v.under[pos].color, n);
            CellLook(v, pos)
              == Look(CharFromId(cell.id, cell.param, v.robotGlyphs, v.sensorGlyphs),
                      Foreground(filled, n), Background(filled, n))
  {
  }

  /** With at least 16 palette entries, a board whose layers fit and whose
      robot and sensor cells name existing entries can always be drawn. */
  lemma {:induction false} DrawableWithSixteenColours(v: View)
    requires Shaped(v) && |v.palette| >= 16
    requires forall pos :: 0 <= pos < Cells(v) ==>
               GlyphDefined(v.level[pos].id, v.level[pos].param, v.robotGlyphs, v.sensorGlyphs)
    ensures RenderOk(v)
  {
    forall pos | 0 <= pos < Cells(v)
      ensures CellDrawable(v, pos)
    {
      var cell, o := v.level[pos], v.overlay[pos];
      BackgroundInPalette(ResolveColor(cell.color, v.under[pos].color, o.ch, o.color, |v.palette|),
                          |v.palette|);
    }
  }

  /** Two cells, blank and normal, both coded 0x10 with 16 colours and no
      overlay: glyphs 32 and 178, each foreground 0 on background 1. */
  lemma TwoCellBoard(charset: seq<u8>, palette: seq<Rgb>)
    requires |charset| >= CharsetBytes && |palette| == 16 && PaletteSixBit(palette)
    ensures var v := View(2, 1, [Cell(Space, 0x10, 0), Cell(Normal, 0x10, 0)],
                          [Cell(Space, 0, 0), Cell(Space, 0, 0)],
                          EffectiveOverlay(None, 2), [], [], charset, palette);
            RenderOk(v) && CellLook(v, 0) == Look(32, 0, 1) && CellLook(v, 1) == Look(178, 0, 1)
  {
  }
}
