/** The glyph table: which character of the font a board cell shows,
    given the kind of thing standing in it (`char_from_id`). */
module Things {
  import opened Bytes

  /** Character code of the blank glyph, `b' '`. */
  const Blank: u8 := 32
  /** Character code shown for kinds the table does not list, `b'!'`. */
  const Unknown: u8 := 33

  /** The kinds of thing a board cell can hold. `Unlisted` stands for every
      further kind of the world format, none of which has an entry in the
      glyph table. */
  datatype Thing =
    | Space | Normal | Solid | Tree
    | CustomBlock | Breakaway | CustomBreak | Boulder | Crate | CustomPush
    | Box | CustomBox | Fake | Carpet | Floor | Tiles | CustomFloor
    | StillWater | NWater | SWater | EWater | WWater
    | Chest | Gem | MagicGem | Health | Ring | Potion | Energizer | Goop
    | Bomb | Explosion | Key | Lock | Stairs | Cave | Gate | OpenGate
    | Coin | NMovingWall | SMovingWall | EMovingWall | WMovingWall | Pouch
    | SliderNS | SliderEW | LazerGun | Forest
    | Whirlpool1 | Whirlpool2 | Whirlpool3 | Whirlpool4 | InvisibleWall
    | Ricochet | CustomHurt | Text
    | Snake | Eye | Thief | SlimeBlob | Runner | Ghost | Dragon | Fish
    | Shark | Spider | Goblin | SpittingTiger | Bear | BearCub
    | Sensor | RobotPushable | Robot | Sign | Scroll | Player
    | Unlisted

  /** Kinds whose glyph is the cell's parameter byte itself. */
  predicate IsParametric(t: Thing) {
    || t.CustomBlock? || t.CustomBreak? || t.CustomPush? || t.CustomBox? || t.CustomFloor?
    || t.NMovingWall? || t.SMovingWall? || t.EMovingWall? || t.WMovingWall?
    || t.CustomHurt? || t.Text?
  }

  /** Kinds whose parameter byte is a 1-based index into the board's robots. */
  predicate IsRobot(t: Thing) {
    t.Robot? || t.RobotPushable?
  }

  /** Kinds whose glyph is looked up in the robot or sensor list. */
  predicate IsIndexed(t: Thing) {
    IsRobot(t) || t.Sensor?
  }

  /** What the table needs to succeed: a robot or sensor cell must name an
      existing entry; `param - 1` is used as the index, so 0 is out of range. */
  predicate GlyphDefined(t: Thing, param: u8, robotGlyphs: seq<u8>, sensorGlyphs: seq<u8>) {
    (IsRobot(t) ==> 1 <= param <= |robotGlyphs|) &&
    (t.Sensor? ==> 1 <= param <= |sensorGlyphs|)
  }

  /** The glyph shown for a cell holding `t` with parameter byte `param`.
      `robotGlyphs` and `sensorGlyphs` are the current display characters of
      the board's robots and sensors, in list order. */
  function CharFromId(t: Thing, param: u8, robotGlyphs: seq<u8>, sensorGlyphs: seq<u8>): (r: u8)
    requires GlyphDefined(t, param, robotGlyphs, sensorGlyphs)
  {
    match t
    case Space => Blank
    case Normal => 178
    case Solid => 219
    case Tree => 6

    case CustomBlock => param
    case Breakaway => 177
    case CustomBreak => param
    case Boulder => 233
    case Crate => 254
    case CustomPush => param
    case Box => 254
    case CustomBox => param
    case Fake => 178
    case Carpet => 177
    case Floor => 176
    case Tiles => 254
    case CustomFloor => param

    case StillWater => 176
    case NWater => 24
    case SWater => 25
    case EWater => 26
    case WWater => 27

    case Chest => 160
    case Gem => 4
    case MagicGem => 4
    case Health => 3
    case Ring => 9
    case Potion => 150
    case Energizer => 7
    case Goop => 176

    case Bomb => 11

    case Explosion => 177
    case Key => 12
    case Lock => 10

    case Stairs => 240
    case Cave => 239

    case Gate => 22
    case OpenGate => 95

    case Coin => 7
    case NMovingWall => param
    case SMovingWall => param
    case EMovingWall => param
    case WMovingWall => param
    case Pouch => 229

    case SliderNS => 18
    case SliderEW => 29

    case LazerGun => 206

    case Forest => 178

    case Whirlpool1 => 54
    case Whirlpool2 => 64
    case Whirlpool3 => 57
    case Whirlpool4 => 149
    case InvisibleWall => Blank

    case Ricochet => 42

    case CustomHurt => param
    case Text => param

    case Snake => 235
    case Eye => 236
    case Thief => 1
    case SlimeBlob => 42
    case Runner => 2
    case Ghost => 234
    case Dragon => 21
    case Fish => 224
    case Shark => 94
    case Spider => 15
    case Goblin => 5
    case SpittingTiger => 227

    case Bear => 153
    case BearCub => 148

    case Sensor => sensorGlyphs[param - 1]
    case RobotPushable => robotGlyphs[param - 1]
    case Robot => robotGlyphs[param - 1]
    case Sign => 226
    case Scroll => 232
    case Player => 0x02

    case Unlisted => Unknown
  }

  /** Custom tiles, moving walls, custom hurt and text show their parameter
      byte unchanged. */
  lemma ParametricGlyphIsParam(t: Thing, param: u8, robotGlyphs: seq<u8>, sensorGlyphs: seq<u8>)
    requires IsParametric(t)
    ensures CharFromId(t, param, robotGlyphs, sensorGlyphs) == param
  {
  }

  /** A robot shows the character of the robot its parameter byte names
      (1-based), a sensor that of the sensor it names. */
  lemma IndexedGlyphIsLookup(t: Thing, param: u8, robotGlyphs: seq<u8>, sensorGlyphs: seq<u8>)
    requires IsIndexed(t) && GlyphDefined(t, param, robotGlyphs, sensorGlyphs)
    ensures CharFromId(t, param, robotGlyphs, sensorGlyphs)
              == if t.Sensor? then sensorGlyphs[param - 1] else robotGlyphs[param - 1]
  {
  }

  /** A kind outside the table shows `!`. */
  lemma UnlistedGlyph(param: u8, robotGlyphs: seq<u8>, sensorGlyphs: seq<u8>)
    ensures CharFromId(Unlisted, param, robotGlyphs, sensorGlyphs) == Unknown
  {
  }

  /** Every kind that is neither parametric nor indexed has a fixed glyph:
      neither the parameter byte nor the robot and sensor lists matter. */
  lemma FixedGlyphIgnoresParam(t: Thing, p: u8, q: u8,
                               robots1: seq<u8>, sensors1: seq<u8>,
                               robots2: seq<u8>, sensors2: seq<u8>)
    requires !IsParametric(t) && !IsIndexed(t)
    ensures CharFromId(t, p, robots1, sensors1) == CharFromId(t, q, robots2, sensors2)
  {
  }
}
