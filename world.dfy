/** The state the renderer reads and the robot pre-pass changes: the world's
    font and palette, one board, and that board's robots. */
module World {
  import opened Bytes
  import Things

  datatype Option<T> = None | Some(value: T)

  /** A palette entry. The world format stores six bits per channel. */
  datatype Rgb = Rgb(r: u8, g: u8, b: u8)

  /** A board cell: the thing standing there, its colour code
      (`background * paletteSize + foreground`) and its parameter byte. */
  datatype Cell = Cell(id: Things.Thing, color: u8, param: u8)

  /** An overlay cell: a character and a colour code. */
  datatype OverlayCell = OverlayCell(ch: u8, color: u8)

  /** How a board's overlay is shown. Only the normal and static modes draw
      the stored overlay; `OtherMode` covers every remaining mode. */
  datatype OverlayMode = NormalMode | StaticMode | OtherMode

  /** A board position, column `x` and row `y`. */
  datatype Position = Position(x: nat, y: nat)

  /** A sensor; only its display character matters to drawing. */
  datatype Sensor = Sensor(ch: u8)

  /** A robot instruction with its operands already resolved against the
      counters. File operands name a file next to the world file. Every
      instruction the pre-pass does not act on is `OtherCommand`. */
  datatype Command =
    | End
    | Wait
    | LoadCharSet(charsetFile: string)
    | LoadPalette(paletteFile: string)
    | SetColor(index: int, red: int, green: int, blue: int)
    | Char(glyph: u8)
    | Color(code: u8)
    | PlayerColor(playerCode: u8)
    | OtherCommand

  /** The world-wide render state: the font's bytes (14 per glyph) and the
      palette entries. */
  class WorldState {
    var charset: array<u8>
    var palette: seq<Rgb>

    constructor (charset: array<u8>, palette: seq<Rgb>)
      ensures this.charset == charset && this.palette == palette
    {
      this.charset := charset;
      this.palette := palette;
    }

  }

  /** One board: its size, the visible and hidden cell layers, the optional
      overlay, the sensors and the player's position. Only the visible layer
      is changed, by the robot pre-pass. */
  class Board {
    const width: nat
    const height: nat
    var level: seq<Cell>
    const under: seq<Cell>
    const overlay: Option<(OverlayMode, seq<OverlayCell>)>
    const sensors: seq<Sensor>
    const playerPos: Position

    constructor (width: nat, height: nat, level: seq<Cell>, under: seq<Cell>,
                 overlay: Option<(OverlayMode, seq<OverlayCell>)>,
                 sensors: seq<Sensor>, playerPos: Position)
      ensures this.width == width && this.height == height
      ensures this.level == level && this.under == under && this.overlay == overlay
      ensures this.sensors == sensors && this.playerPos == playerPos
    {
      this.width, this.height := width, height;
      this.level, this.under, this.overlay := level, under, overlay;
      this.sensors, this.playerPos := sensors, playerPos;
    }
  }

  /** A robot: its display character, which its own `Char` instruction may
      change, its program and its position on the board. */
  class Robot {
    var ch: u8
    const program: seq<Command>
    const position: Position

    constructor (ch: u8, program: seq<Command>, position: Position)
      ensures this.ch == ch && this.program == program && this.position == position
    {
      this.ch, this.program, this.position := ch, program, position;
    }
  }
}
