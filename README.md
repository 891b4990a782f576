# mzxview core in Dafny

A model of the rendering core of `mzxview`, a tool that draws one board of a
MegaZeux world as an RGB image. The model covers, in `src/main.rs`:

- `char_from_id`: the glyph a kind of thing shows (module `Things`);
- the colour arithmetic of `draw_img`: colour codes packed as
  `background * n + foreground`, with `n` the palette length, the background
  fill-in from the layer beneath and the see-through or opaque overlay
  (module `ColorCodes`);
- `draw_char`: one 8×14 glyph cell written into a flat RGB buffer, row by
  row and bit by bit (module `Raster`);
- `draw_img`: the zeroed buffer of `width*8 * height*14 * 3` bytes, the
  overlay or its synthetic stand-in, and the cell loop (module `Render`);
- `run_robot_until_end` and `run_all_robots`: the pass that runs each
  robot's program up to its first `End` or `Wait` before drawing, acting on
  `LoadCharSet`, `LoadPalette`, `SetColor`, `Char`, `Color` and
  `PlayerColor` (module `Robots`).

Module `World` holds the data model: the world state (font bytes as an
`array<u8>`, the palette as a `seq<Rgb>`), the board (layers, overlay,
sensors, player position) and the robots, as classes whose fields the pass
updates in place. Module `Bytes` holds `u8` and the division facts.

The imperative parts stay imperative. `Raster.DrawChar` keeps the nested
row and bit loops over an `array<u8>` and is proved byte for byte against
`Raster.CellByte`. `Render.DrawImg` fills the buffer cell by cell and is
proved byte for byte against `Render.RenderedByte`, the image as a function
of the board. `Robots.RunRobotUntilEnd` and `Robots.RunAllRobots` mutate
the world, the board and the robots and are proved equal to the value-level
runs `Robots.RunUntilEnd` and `Robots.RunAll`. The properties are proved
about those functions.

A font file of the wrong length (`copy_from_slice`), a palette file whose
partial trailing triple is reached (`new[1]` or `new[2]` on a short chunk) and an
out-of-range `SetColor` index make the code fail; the model states each as
a precondition (`Robots.CommandOk`).

## Model

| member | source | states |
|---|---|---|
| Bytes.TruncateU8 | src/main.rs:267-269 | `as u8` keeps a value below 256 unchanged and otherwise agrees with it modulo 256 |
| Bytes.WrappingAdd | src/main.rs:200 | the `u8` sum is the exact sum when it fits and the sum minus 256 when it does not |
| Things.CharFromId | src/main.rs:52-159 | the glyph of a thing: a fixed byte for most kinds, the parameter byte for custom, moving-wall, hurt and text kinds, the 1-based robot or sensor character for robots and sensors, `!` for any other kind |
| Things.ParametricGlyphIsParam | src/main.rs:59-131 | custom tiles, moving walls, custom hurt and text show their parameter byte unchanged |
| Things.IndexedGlyphIsLookup | src/main.rs:151-152 | a sensor shows `sensors[param-1].ch`, a robot or pushable robot `robots[param-1].ch`, for `1 <= param <= len` |
| Things.UnlistedGlyph | src/main.rs:157 | a kind outside the table shows `!` |
| Things.FixedGlyphIgnoresParam | src/main.rs:54-155 | every other listed kind shows a glyph that depends on neither the parameter nor the robot and sensor lists |
| ColorCodes.SeeThrough | src/main.rs:193 | an overlay colour is see-through when its background part is zero and the code itself is not zero |
| ColorCodes.FillBackground | src/main.rs:199-201 | a code with a zero background part gets the under layer's background part added to it, a `u8` addition that wraps; any other code is kept |
| ColorCodes.ResolveColor | src/main.rs:192-208 | the under-layer fill-in, then for a visible overlay the see-through blend onto the filled code's background part or the opaque replace, with `u8` additions wrapping |
| ColorCodes.PackUnpack | src/main.rs:209-211 | splitting `bg*n + fg` with `fg < n` gives back `bg` and `fg` |
| ColorCodes.FillDoesNotWrap | src/main.rs:199-201 | when `n` divides 256, a code's background part plus a foreground below `n` stays below 256 |
| ColorCodes.ReplaceForeground | src/main.rs:203-204 | when `n` divides 256, adding `fg < n` to a code's background part gives a code with that background and foreground `fg` |
| ColorCodes.FillBackgroundParts | src/main.rs:199-201 | when `n` divides 256, the fill-in keeps the cell's foreground and takes the under layer's background exactly when the cell's own is zero |
| ColorCodes.ResolveMatchesLayers | src/main.rs:192-211 | for every `n` dividing 256 the resolved foreground is the visible overlay's else the cell's, and the background is an opaque visible overlay's, else the cell's, else the under layer's |
| ColorCodes.OpaqueCellKeepsItsCode | src/main.rs:199-201 | a cell with a non-zero background and no visible overlay keeps its code |
| ColorCodes.OpaqueOverlayReplaces | src/main.rs:202-207 | a visible overlay that is not see-through, colour 0 included, decides the code alone |
| ColorCodes.ZeroOverlayColourIsOpaque | src/main.rs:193 | overlay `X` in colour 0 over a cell coded 0x23, with 16 colours, draws foreground 0 on background 0 |
| ColorCodes.FillWrapsForHundredColours | src/main.rs:199-201 | with 100 colours a cell coded 99 over one coded 200 gets code 43, not background 2 and foreground 99 as layering would give |
| ColorCodes.BackgroundInPalette | src/main.rs:209-211 | with 16 or more palette entries every code's background part indexes the palette |
| Raster.Scaled | src/main.rs:45-47 | an output channel is the palette channel times 4 |
| Raster.GlyphLit | src/main.rs:34-37 | pixel column `col` of row `row` of glyph `ch` is lit when bit `7 - col` of the row's byte is set |
| Raster.CellPixel | src/main.rs:37-41 | a pixel shows the foreground entry where the glyph is lit and the background entry elsewhere |
| Raster.CellByte | src/main.rs:36-47 | byte `k` of a glyph cell is the scaled channel of the entry its pixel shows |
| Raster.PutPixel | src/main.rs:42-47 | the three bytes of one pixel become the colour's channels times 4; every other byte is unchanged |
| Raster.DrawChar | src/main.rs:25-50 | every byte of the 8×14 cell at `(x, y)` gets the scaled foreground entry where the glyph bit is set and the background entry elsewhere; every byte outside the cell is unchanged |
| Raster.UniformWhenColoursEqual | src/main.rs:36-47 | with equal foreground and background the cell is one colour whatever the glyph |
| Raster.MsbIsLeftmost | src/main.rs:36-42 | the leftmost pixel of a glyph row is its most significant bit, the rightmost its least significant |
| Render.EffectiveOverlay | src/main.rs:175-186 | normal and static overlays are drawn as stored; otherwise one blank cell per board cell |
| Render.SyntheticOverlay | src/main.rs:179-184 | the built stand-in has one `(32, 0x07)` cell per board cell |
| Render.SelectOverlay | src/main.rs:175-186 | the overlay chosen is the one `EffectiveOverlay` describes |
| Render.ZeroedBuffer | src/main.rs:169-173 | a new buffer of exactly `size` bytes, all zero |
| Render.CellLook | src/main.rs:192-211 | a drawable cell's foreground and background both index the palette |
| Render.ByteInSomeCell | src/main.rs:166-169 | every byte of the `width*8 * height*14 * 3` buffer lies in one of the `width*height` cells |
| Render.CellFits | src/main.rs:209-214 | the glyph cell of cell `pos`, drawn at `(pos % width, pos / width)`, lies within one pixel row span and within the buffer |
| Render.PixelOfCell | src/main.rs:42 | the byte `draw_char` writes for a row, column and channel of cell `pos` belongs to cell `pos` at that row, column and channel |
| Render.DrawCell | src/main.rs:188-217 | drawing cell `pos` over a buffer holding cells `0 .. pos-1` gives one holding cells `0 .. pos` of the image |
| Render.DrawImg | src/main.rs:161-221 | the result is a new buffer of `width*8 * height*14 * 3` bytes equal to the rendered image byte for byte |
| Render.RenderedByte | src/main.rs:188-217 | byte `k` of a board's image is the byte its cell's glyph, foreground and background give it |
| Render.RenderedCellPixel | src/main.rs:188-217 | channel `chan` of pixel `(row, col)` of cell `pos` is the scaled foreground entry where the glyph is lit and the background entry elsewhere |
| Render.CellColoursByLayers | src/main.rs:192-211 | for palette lengths dividing 256 a drawn cell's colours read layer by layer |
| Render.HiddenOverlayShowsThings | src/main.rs:176-201 | without a drawn overlay every cell shows its thing's glyph in its filled-in colours |
| Render.DrawableWithSixteenColours | src/main.rs:164-217 | with 16 or more colours and existing robots and sensors every board whose layers fit can be drawn |
| Render.TwoCellBoard | src/main.rs:188-217 | a blank and a normal cell coded 0x10 with 16 colours show glyphs 32 and 178, foreground 0 on background 1 |
| Robots.IsStop | src/main.rs:232 | `End` and `Wait` end a robot's run |
| Robots.RecolorCell | src/main.rs:276-281 | the level with only the colour code of one cell replaced |
| Robots.LoadedPalette | src/main.rs:253-257 | entry `i` takes byte triple `i` of the file while there is one; the other entries stay |
| Robots.ReplaceCharset | src/main.rs:239 | the font's bytes become the file's bytes |
| Robots.LoadPaletteData | src/main.rs:247-263 | the palette becomes `LoadedPalette` of the old palette and the file; the font is untouched |
| Robots.Step | src/main.rs:231-284 | one instruction keeps every size and changes no cell except the colours of the robot's and the player's cells |
| Robots.RunUntilEnd | src/main.rs:230-285 | a run keeps every size and changes no cell except the colours of the robot's and the player's cells |
| Robots.RunRobotUntilEnd | src/main.rs:223-286 | the world, the board and the robot's character end as `RunUntilEnd` says |
| Robots.RunAll | src/main.rs:293-296 | running the robots in list order keeps every size and gives one final character per robot |
| Robots.RunAllAt | src/main.rs:294-296 | robot `i` runs first from the current scene and the later robots start from the scene it leaves |
| Robots.RunAllRobots | src/main.rs:288-297 | the world, the board and every robot's character end as `RunAll` says |
| Robots.StepChangesOneThing | src/main.rs:253-281 | `LoadCharSet` changes only the font, `LoadPalette` and `SetColor` only the palette (`SetColor` one entry), `Char` only the character, `Color` and `PlayerColor` only their cell's colour; a missing file changes nothing |
| Robots.StopIgnoresRest | src/main.rs:230-232 | nothing after the first `End` or `Wait` has any effect |
| Robots.RunSequence | src/main.rs:230-285 | a stop-free first part runs to completion and the rest runs from the state it leaves |
| Robots.SetColorThenEnd | src/main.rs:264-271 | `SetColor(5, 10, 20, 30); End; ...` sets entry 5 to (10, 20, 30) and nothing else |
| Robots.RunKeepsPaletteSixBit | src/main.rs:247-271 | a run whose colour values are all six-bit keeps every palette entry six-bit |
| Robots.RunAllAppend | src/main.rs:293-296 | running a list of robots is running its first part and then its second from the scene the first leaves |

## Left out

- `main` and `print_usage`: argument parsing, world loading, board selection, exit codes and messages.
- File access: a file is an entry of a map from names to byte contents; a name missing from the map is a file that cannot be opened, which changes nothing. The message printed on failure and the failure of `read_to_end` are not modelled.
- The image encoding (`RgbImage::from_raw` and the PNG write): `Render.DrawImg` returns the byte buffer, whose length is exactly the one `from_raw` expects.
- `Thing::from_u8`: things are a datatype of the kinds the glyph table lists plus `Unlisted`; numeric kind identifiers and the failure on an invalid one are not modelled.
- Counters and `resolve`: every instruction argument is an already-resolved integer. No instruction the pass acts on writes a counter, so the resolved values do not depend on the order of the run.
- `level_at_mut`: a position indexes the level at `y * width + x`, the layout the renderer reads; an index outside the level is excluded by precondition.
- The robot's program and position are constants of the robot; the pass changes only its character.
- Overlay modes other than normal and static are one case, `OtherMode`; sensors carry only their character.
- Logging.
- `Charset::nth`: glyph `ch` is read from font bytes `ch*14 .. ch*14+13`, the layout of the font store, which is not part of this model.
- Render.DrawImg: requires the palette length to be 1 to 255 (`len as u8` is the divisor: 256 entries would divide by zero, and longer palettes would be truncated, 272 entries giving divisor 16), every palette channel to be at most 63 (`* 4` would overflow a byte), a font of at least 256 glyphs, and the three layers to have one entry per cell (the cell loop zips them and stops at the shortest).
- Render.DrawImg: requires every cell's resolved background part to index the palette, whatever its glyph. The code reads the background entry only for unlit pixels, so a cell whose glyph has all 112 pixels lit (glyph 219 with every row 0xFF, say) is drawn by the code even when its background part is out of range; the model excludes such boards. `Render.DrawableWithSixteenColours` shows the requirement always holds with 16 or more colours.
- Render.DrawImg: requires each robot or sensor cell with no visible overlay to name an existing robot or sensor, as the code fails there; a cell whose overlay is visible never looks its thing up, and the model asks nothing of it.
- ColorCodes.ResolveColor: `u8` additions wrap modulo 256 as an optimised build does; a debug build stops with an overflow instead. `ColorCodes.FillDoesNotWrap` shows no wrap happens when the palette length divides 256.
- Raster.DrawChar: requires the cell to lie in one pixel row span (`(x+1)*8*3 <= stride`). The code does not check this: with a narrower stride the cell's right part would land in the next pixel row. `draw_img`'s only call meets it (`x = pos % width < width`, `stride = width*24`), and the model does not describe the overrun. It also requires the cell to lie inside the buffer and both colours to index the palette, where the code fails on an out-of-range slice or on the entry it reads.
- Robots.RunRobotUntilEnd: requires a font file to have the font's exact length, a palette file's trailing partial triple never to be reached, a `SetColor` index to lie in the palette and the robot's and player's cells to exist; the code fails in each case.
