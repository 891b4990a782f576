/** Colour codes and how a cell's final colours are chosen from the cell,
    the layer beneath it and the overlay above it (the colour arithmetic of
    `draw_img`). A colour code packs `background * n + foreground`, where `n`
    is the palette length. */
module ColorCodes {
  import opened Bytes
  import opened Things

  /** A palette length usable as a divisor after `len as u8`. */
  predicate PaletteSize(n: int) {
    1 <= n <= 255
  }

  /** The foreground part of a colour code. */
  function Foreground(code: u8, n: int): (r: u8)
    requires PaletteSize(n)
    ensures r < n
  {
    code % n
  }

  /** The background part of a colour code. */
  function Background(code: u8, n: int): u8
    requires PaletteSize(n)
  {
    code / n
  }

  /** An overlay colour is see-through when its background part is zero,
      unless the whole code is zero. */
  predicate SeeThrough(overlayColor: u8, n: int)
    requires PaletteSize(n)
  {
    overlayColor / n == 0 && overlayColor != 0
  }

  /** `code / n * n`: the code with its foreground part cleared. */
  function BackgroundPart(code: u8, n: int): (r: u8)
    requires PaletteSize(n)
    ensures r == code - code % n
  {
    assert code == code / n * n + code % n;
    code / n * n
  }

  /** A cell whose background part is zero takes the background part of
      the cell beneath it (a `u8` addition). */
  function FillBackground(color: u8, underColor: u8, n: int): u8
    requires PaletteSize(n)
  {
    if color / n == 0 then WrappingAdd(BackgroundPart(underColor, n), color) else color
  }

  /** The colour code a cell is drawn with. First the background fill-in;
      then a visible overlay either lays its foreground over the result
      (see-through, a `u8` addition) or replaces the code outright. */
  function ResolveColor(color: u8, underColor: u8, overlayChar: u8, overlayColor: u8, n: int): u8
    requires PaletteSize(n)
  {
    var filled := FillBackground(color, underColor, n);
    if overlayChar == Blank then filled
    else if SeeThrough(overlayColor, n) then WrappingAdd(BackgroundPart(filled, n), overlayColor)
    else overlayColor
  }

  /** The background a cell shows, read layer by layer: an opaque visible
      overlay decides it; otherwise the cell's own background, or the one
      beneath when the cell's is zero. */
  function LayeredBackground(color: u8, underColor: u8, overlayChar: u8, overlayColor: u8, n: int): u8
    requires PaletteSize(n)
  {
    if overlayChar != Blank && !SeeThrough(overlayColor, n) then overlayColor / n
    else if color / n != 0 then color / n
    else underColor / n
  }

  /** The foreground a cell shows: a visible overlay's, else the cell's own. */
  function LayeredForeground(color: u8, underColor: u8, overlayChar: u8, overlayColor: u8, n: int): u8
    requires PaletteSize(n)
  {
    if overlayChar != Blank then overlayColor % n else color % n
  }

  /** Rebuilding a code from a background and a foreground part loses
      nothing as long as the sum fits a byte. */
  lemma PackUnpack(bg: int, fg: int, n: int)
    requires PaletteSize(n) && 0 <= bg && 0 <= fg < n
    ensures (bg * n + fg) / n == bg && (bg * n + fg) % n == fg
  {
    DivModUnique(bg * n + fg, n, bg, fg);
  }

  /** With a palette length that divides 256, filling in a background part
      never carries past 255. */
  lemma FillDoesNotWrap(code: u8, fg: int, n: int)
    requires PaletteSize(n) && 256 % n == 0 && 0 <= fg < n
    ensures code / n * n + fg < 256
  {
    var q, m := code / n, 256 / n;
    DivModUnique(256, n, m, 0);
    assert q * n <= code;
    if q >= m {
      MulMonotone(m, q, n);
      assert false;
    }
    MulMonotone(q + 1, m, n);
  }

  /** Putting a foreground part `fg` under the background part of `code`
      gives a code with exactly those two parts, when `n` divides 256. */
  lemma {:induction false} ReplaceForeground(code: u8, fg: u8, n: int)
    requires PaletteSize(n) && 256 % n == 0 && fg < n
    ensures WrappingAdd(BackgroundPart(code, n), fg) % n == fg
    ensures WrappingAdd(BackgroundPart(code, n), fg) / n == code / n
  {
    FillDoesNotWrap(code, fg, n);
    PackUnpack(code / n, fg, n);
  }

  /** The fill-in step keeps the cell's foreground and gives it a background
      part: its own, or the one beneath when its own is zero. */
  lemma {:induction false} FillBackgroundParts(color: u8, underColor: u8, n: int)
    requires PaletteSize(n) && 256 % n == 0
    ensures FillBackground(color, underColor, n) % n == color % n
    ensures FillBackground(color, underColor, n) / n
              == if color / n != 0 then color / n else underColor / n
  {
    if color / n == 0 {
      ReplaceForeground(underColor, color, n);
    }
  }

  /** The arithmetic resolution agrees with the layer-by-layer reading for
      every palette length dividing 256 (16 colours among them). */
  lemma {:induction false} ResolveMatchesLayers(color: u8, underColor: u8, overlayChar: u8, overlayColor: u8, n: int)
    requires PaletteSize(n) && 256 % n == 0
    ensures ResolveColor(color, underColor, overlayChar, overlayColor, n) % n
              == LayeredForeground(color, underColor, overlayChar, overlayColor, n)
    ensures ResolveColor(color, underColor, overlayChar, overlayColor, n) / n
              == LayeredBackground(color, underColor, overlayChar, overlayColor, n)
  {
    var filled := FillBackground(color, underColor, n);
    FillBackgroundParts(color, underColor, n);
    if overlayChar != Blank && SeeThrough(overlayColor, n) {
      ReplaceForeground(filled, overlayColor, n);
    }
  }

  /** With 16 or more palette entries every background part indexes the
      palette, whatever the byte. */
  lemma BackgroundInPalette(code: u8, n: int)
    requires PaletteSize(n) && 16 <= n
    ensures code / n < n
  {
    MulMonotone(16, n, n);
    DivBelow(code, n, n);
  }

  /** When a palette length does not divide 256 the fill-in can carry past
      255 and wrap: with 100 colours, a cell coded 99 over a cell coded 200
      ends up with code 43 rather than background 2, foreground 99. */
  lemma FillWrapsForHundredColours()
    ensures ResolveColor(99, 200, Blank, 0, 100) == 43
    ensures LayeredBackground(99, 200, Blank, 0, 100) == 2
    ensures LayeredForeground(99, 200, Blank, 0, 100) == 99
  {
  }

  /** A cell with a non-zero background and no visible overlay keeps its
      own code: fg and bg are its two parts. */
  lemma OpaqueCellKeepsItsCode(color: u8, underColor: u8, overlayColor: u8, n: int)
    requires PaletteSize(n) && color / n != 0
    ensures ResolveColor(color, underColor, Blank, overlayColor, n) == color
  {
  }

  /** A visible overlay that is not see-through (the zero code included)
      decides the code alone, whatever the cell and the layer beneath. */
  lemma OpaqueOverlayReplaces(color: u8, underColor: u8, overlayChar: u8, overlayColor: u8, n: int)
    requires PaletteSize(n) && overlayChar != Blank && !SeeThrough(overlayColor, n)
    ensures ResolveColor(color, underColor, overlayChar, overlayColor, n) == overlayColor
  {
  }

  /** The overlay character `X` with colour 0 over a cell coded 0x23, with 16
      colours: the zero code is not see-through, so the cell is drawn black
      on black. */
  lemma ZeroOverlayColourIsOpaque()
    ensures ResolveColor(0x23, 0, 'X' as u8, 0x00, 16) % 16 == 0
    ensures ResolveColor(0x23, 0, 'X' as u8, 0x00, 16) / 16 == 0
  {
  }
}
