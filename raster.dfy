/** Drawing one glyph (`draw_char`): a glyph is 14 rows of one byte each,
    the most significant bit being the leftmost of 8 pixels; each pixel is
    3 bytes (red, green, blue) of a flat buffer whose pixel rows lie
    `stride` bytes apart. */
module Raster {
  import opened Bytes
  import opened World

  const GlyphWidth: nat := 8
  const GlyphHeight: nat := 14
  /** Bytes of a full 256-glyph font. */
  const CharsetBytes: nat := 256 * 14

  /** A palette entry within the six bits per channel of the world format,
      so that scaling by 4 stays within a byte. */
  predicate SixBit(c: Rgb) {
    c.r <= 63 && c.g <= 63 && c.b <= 63
  }

  predicate PaletteSixBit(palette: seq<Rgb>) {
    forall i :: 0 <= i < |palette| ==> SixBit(palette[i])
  }

  /** Output value of channel `chan` (0 red, 1 green, 2 blue) of an entry. */
  function Scaled(c: Rgb, chan: nat): u8
    requires SixBit(c) && chan < 3
  {
    (if chan == 0 then c.r else if chan == 1 then c.g else c.b) * 4
  }

  /** Whether pixel column `col` (0 = leftmost) of row `row` of glyph `ch`
      is lit: bit `7 - col` of the row's byte. */
  predicate GlyphLit(charset: seq<u8>, ch: u8, row: nat, col: nat)
    requires |charset| >= CharsetBytes && row < GlyphHeight && col < GlyphWidth
  {
    BitSet(charset[ch * GlyphHeight + row], 7 - col)
  }

  // Where byte `k` of the buffer lies: pixel row, pixel column, channel.

  function PixelRow(k: nat, stride: nat): nat
    requires stride > 0
  {
    k / stride
  }

  function PixelCol(k: nat, stride: nat): nat
    requires stride > 0
  {
    k % stride / 3
  }

  function Channel(k: nat, stride: nat): nat
    requires stride > 0
  {
    k % stride % 3
  }

  /** The byte holding channel `chan` of the pixel at (`prow`, `pcol`). */
  function Offset(prow: nat, pcol: nat, chan: nat, stride: nat): nat {
    prow * stride + pcol * 3 + chan
  }

  /** Byte `k` belongs to the glyph cell in cell column `x`, cell row `y`. */
  predicate InCell(k: nat, stride: nat, x: nat, y: nat)
    requires stride > 0
  {
    PixelRow(k, stride) / GlyphHeight == y && PixelCol(k, stride) / GlyphWidth == x
  }

  /** The entry a pixel of a glyph cell shows: foreground where the glyph
      is lit, background elsewhere. */
  function CellPixel(charset: seq<u8>, palette: seq<Rgb>, ch: u8, fg: u8, bg: u8, row: nat, col: nat): Rgb
    requires |charset| >= CharsetBytes && fg < |palette| && bg < |palette|
    requires row < GlyphHeight && col < GlyphWidth
  {
    if GlyphLit(charset, ch, row, col) then palette[fg] else palette[bg]
  }

  /** The value drawing glyph `ch` in `fg` on `bg` gives byte `k` of its cell. */
  function CellByte(charset: seq<u8>, palette: seq<Rgb>, ch: u8, fg: u8, bg: u8, k: nat, stride: nat): u8
    requires |charset| >= CharsetBytes && fg < |palette| && bg < |palette|
    requires SixBit(palette[fg]) && SixBit(palette[bg]) && stride > 0
  {
    Scaled(CellPixel(charset, palette, ch, fg, bg,
                     PixelRow(k, stride) % GlyphHeight, PixelCol(k, stride) % GlyphWidth),
           Channel(k, stride))
  }

  /** Each byte of a pixel row has exactly one (pixel row, column, channel). */
  lemma Locate(prow: nat, pcol: nat, chan: nat, stride: nat)
    requires chan < 3 && pcol * 3 + chan < stride
    ensures PixelRow(Offset(prow, pcol, chan, stride), stride) == prow
    ensures PixelCol(Offset(prow, pcol, chan, stride), stride) == pcol
    ensures Channel(Offset(prow, pcol, chan, stride), stride) == chan
  {
    var k := Offset(prow, pcol, chan, stride);
    DivModUnique(k, stride, prow, pcol * 3 + chan);
    DivModUnique(pcol * 3 + chan, 3, pcol, chan);
  }

  /** Every byte is the byte of its own pixel row, column and channel. */
  lemma Compose(k: nat, stride: nat)
    requires stride > 0
    ensures k == Offset(PixelRow(k, stride), PixelCol(k, stride), Channel(k, stride), stride)
  {
  }

  /** Writes one pixel: the three bytes at (`prow`, `pcol`) get the scaled
      channels of `c`. */
  method PutPixel(pixels: array<u8>, stride: nat, prow: nat, pcol: nat, c: Rgb)
    requires SixBit(c) && (pcol + 1) * 3 <= stride
    requires Offset(prow, pcol, 3, stride) <= pixels.Length
    modifies pixels
    ensures forall k :: 0 <= k < pixels.Length ==>
              pixels[k] == if PixelRow(k, stride) == prow && PixelCol(k, stride) == pcol
                           then Scaled(c, Channel(k, stride)) else old(pixels[k])
  {
    var start := Offset(prow, pcol, 0, stride);
    pixels[start] := c.r * 4;
    pixels[start + 1] := c.g * 4;
    pixels[start + 2] := c.b * 4;
    Locate(prow, pcol, 0, stride);
    Locate(prow, pcol, 1, stride);
    Locate(prow, pcol, 2, stride);
    forall k | 0 <= k < pixels.Length
      ensures pixels[k] == if PixelRow(k, stride) == prow && PixelCol(k, stride) == pcol
                           then Scaled(c, Channel(k, stride)) else old(pixels[k])
    {
      Compose(k, stride);
    }
  }

  /** Bytes of the cell at (`x`, `y`) that the row-by-row, right-to-left
      drawing has reached once rows before `row` are done and, in `row`,
      bits 1 .. `bit - 1` (columns `9 - bit` .. 7). */
  predicate Drawn(k: nat, stride: nat, x: nat, y: nat, row: nat, bit: nat)
    requires stride > 0
  {
    InCell(k, stride, x, y) &&
    (PixelRow(k, stride) % GlyphHeight < row ||
     (PixelRow(k, stride) % GlyphHeight == row && PixelCol(k, stride) % GlyphWidth + bit >= 9))
  }

  /** Draws glyph `ch` in palette entries `fg` on `bg` into the cell at cell
      column `x`, cell row `y`: the cell's bytes take the glyph's pixels and
      every other byte is left as it was. */
  method DrawChar(ch: u8, fg: u8, bg: u8, x: nat, y: nat, stride: nat,
                  charset: seq<u8>, palette: seq<Rgb>, pixels: array<u8>)
    requires |charset| >= CharsetBytes
    requires fg < |palette| && bg < |palette| && SixBit(palette[fg]) && SixBit(palette[bg])
    requires (x + 1) * GlyphWidth * 3 <= stride
    requires Offset(y * GlyphHeight + GlyphHeight - 1, x * GlyphWidth + GlyphWidth - 1, 3, stride) <= pixels.Length
    modifies pixels
    ensures forall k :: 0 <= k < pixels.Length ==>
              pixels[k] == if InCell(k, stride, x, y)
                           then CellByte(charset, palette, ch, fg, bg, k, stride)
                           else old(pixels[k])
  {
    var yOff := 0;
    while yOff < GlyphHeight
      invariant 0 <= yOff <= GlyphHeight
      invariant forall k :: 0 <= k < pixels.Length ==>
                  pixels[k] == if Drawn(k, stride, x, y, yOff, 1)
                               then CellByte(charset, palette, ch, fg, bg, k, stride)
                               else old(pixels[k])
    {
      var byte := charset[ch * GlyphHeight + yOff];
      for bit := 1 to 9
        invariant forall k :: 0 <= k < pixels.Length ==>
                    pixels[k] == if Drawn(k, stride, x, y, yOff, bit)
                                 then CellByte(charset, palette, ch, fg, bg, k, stride)
                                 else old(pixels[k])
      {
        var color := if BitSet(byte, bit - 1) then palette[fg] else palette[bg];
        MulMonotone(y * GlyphHeight + yOff, y * GlyphHeight + GlyphHeight - 1, stride);
        PutPixel(pixels, stride, y * GlyphHeight + yOff, (x + 1) * GlyphWidth - bit, color);
      }
      yOff := yOff + 1;
    }
  }

  /** A glyph drawn with equal foreground and background is a block of one
      colour, whatever its bitmap. */
  lemma UniformWhenColoursEqual(charset: seq<u8>, palette: seq<Rgb>, ch: u8, c: u8, k: nat, stride: nat)
    requires |charset| >= CharsetBytes && c < |palette| && SixBit(palette[c]) && stride > 0
    ensures CellByte(charset, palette, ch, c, c, k, stride) == Scaled(palette[c], Channel(k, stride))
  {
  }

  /** The most significant bit of a glyph row is its leftmost pixel and the
      least significant its rightmost. */
  lemma MsbIsLeftmost(charset: seq<u8>, ch: u8, row: nat)
    requires |charset| >= CharsetBytes && row < GlyphHeight
    ensures GlyphLit(charset, ch, row, 0) <==> charset[ch * GlyphHeight + row] >= 128
    ensures GlyphLit(charset, ch, row, 7) <==> charset[ch * GlyphHeight + row] % 2 == 1
  {
  }
}
