/** The pre-render pass (`run_robot_until_end`, `run_all_robots`): each
    robot's program runs from its start up to its first `End` or `Wait`,
    acting only on the instructions that change the font, the palette, the
    robot's own character or the colour of a cell. */
module Robots {
  import opened Bytes
  import opened World
  import opened Raster

  /** What the pass can change, as values: the font's bytes, the palette
      and the board's visible layer. */
  datatype Scene = Scene(charset: seq<u8>, palette: seq<Rgb>, level: seq<Cell>)

  /** The sizes in a scene, which the pass never changes. */
  datatype Shape = Shape(charsetLen: nat, paletteLen: nat, levelLen: nat)

  function ShapeOf(s: Scene): Shape {
    Shape(|s.charset|, |s.palette|, |s.level|)
  }

  /** What the pass reads and never changes: the board's width, the
      player's position, and the contents of the files next to the world
      file; a name missing from `files` is a file that cannot be opened. */
  datatype Env = Env(width: nat, playerPos: Position, files: map<string, seq<u8>>)

  /** The index of a board position in the board's layers. */
  function LevelIndex(width: nat, p: Position): nat {
    p.y * width + p.x
  }

  /** `End` and `Wait` end a robot's run. */
  predicate IsStop(c: Command) {
    c.End? || c.Wait?
  }

  /** A palette file of `len` bytes fills `entries` entries from its byte
      triples without reaching a partial trailing triple. */
  predicate TriplesFit(len: nat, entries: nat) {
    len % 3 == 0 || len / 3 >= entries
  }

  /** What an instruction needs to run without failing: a font file of the
      font's exact length, a palette file whose triples fit, a palette index
      in range, and cells that exist. */
  predicate CommandOk(c: Command, shape: Shape, robotPos: Position, env: Env) {
    match c
    case LoadCharSet(f) => f in env.files ==> |env.files[f]| == shape.charsetLen
    case LoadPalette(f) => f in env.files ==> TriplesFit(|env.files[f]|, shape.paletteLen)
    case SetColor(index, _, _, _) => 0 <= index < shape.paletteLen
    case Color(_) => LevelIndex(env.width, robotPos) < shape.levelLen
    case PlayerColor(_) => LevelIndex(env.width, env.playerPos) < shape.levelLen
    case _ => true
  }

  /** Every instruction before the first `End` or `Wait` can run. */
  predicate ProgramOk(prog: seq<Command>, shape: Shape, robotPos: Position, env: Env)
    decreases |prog|
  {
    prog == [] || IsStop(prog[0]) ||
    (CommandOk(prog[0], shape, robotPos, env) && ProgramOk(prog[1..], shape, robotPos, env))
  }

  /** The palette after loading a palette file: entry `i` takes the `i`-th
      byte triple of `data` while there is one, and the other entries stay. */
  function LoadedPalette(palette: seq<Rgb>, data: seq<u8>): (r: seq<Rgb>)
    requires TriplesFit(|data|, |palette|)
    ensures |r| == |palette|
    ensures forall i :: 0 <= i < |palette| ==>
              r[i] == if i < |data| / 3 then Rgb(data[3 * i], data[3 * i + 1], data[3 * i + 2])
                      else palette[i]
    decreases |palette|
  {
    if palette == [] || data == [] then palette
    else [Rgb(data[0], data[1], data[2])] + LoadedPalette(palette[1..], data[3..])
  }

  /** The level with only the colour code of cell `i` replaced. */
  function RecolorCell(level: seq<Cell>, i: nat, code: u8): seq<Cell>
    requires i < |level|
  {
    level[i := level[i].(color := code)]
  }

  /** `after` differs from `before` at most in the colour codes of cells
      `a` and `b`. */
  predicate OnlyColoursAt(before: seq<Cell>, after: seq<Cell>, a: nat, b: nat) {
    |after| == |before| &&
    forall i :: 0 <= i < |before| ==>
      after[i].id == before[i].id && after[i].param == before[i].param &&
      (i != a && i != b ==> after[i] == before[i])
  }

  /** A scene together with the running robot's character. */
  datatype Outcome = Outcome(scene: Scene, ch: u8)

  /** One instruction. Files that cannot be opened and all instructions
      the pass does not act on leave everything as it was. */
  function Step(c: Command, s: Scene, ch: u8, robotPos: Position, env: Env): (r: Outcome)
    requires CommandOk(c, ShapeOf(s), robotPos, env)
    ensures ShapeOf(r.scene) == ShapeOf(s)
    ensures OnlyColoursAt(s.level, r.scene.level,
                          LevelIndex(env.width, robotPos), LevelIndex(env.width, env.playerPos))
  {
    match c
    case LoadCharSet(f) =>
      if f in env.files then Outcome(s.(charset := env.files[f]), ch) else Outcome(s, ch)
    case LoadPalette(f) =>
      if f in env.files then Outcome(s.(palette := LoadedPalette(s.palette, env.files[f])), ch)
      else Outcome(s, ch)
    case SetColor(index, red, green, blue) =>
      var entry := Rgb(TruncateU8(red), TruncateU8(green), TruncateU8(blue));
      Outcome(s.(palette := s.palette[index := entry]), ch)
    case Char(g) => Outcome(s, g)
    case Color(code) =>
      Outcome(s.(level := RecolorCell(s.level, LevelIndex(env.width, robotPos), code)), ch)
    case PlayerColor(code) =>
      Outcome(s.(level := RecolorCell(s.level, LevelIndex(env.width, env.playerPos), code)), ch)
    case _ => Outcome(s, ch)
  }

  /** A robot's run: its instructions in order up to the first `End` or
      `Wait`. It changes no cell's thing or parameter, and no cell's colour
      but the robot's own cell's and the player's. */
  function RunUntilEnd(prog: seq<Command>, s: Scene, ch: u8, robotPos: Position, env: Env): (r: Outcome)
    requires ProgramOk(prog, ShapeOf(s), robotPos, env)
    ensures ShapeOf(r.scene) == ShapeOf(s)
    ensures OnlyColoursAt(s.level, r.scene.level,
                          LevelIndex(env.width, robotPos), LevelIndex(env.width, env.playerPos))
    decreases |prog|
  {
    if prog == [] || IsStop(prog[0]) then Outcome(s, ch)
    else
      var next := Step(prog[0], s, ch, robotPos, env);
      RunUntilEnd(prog[1..], next.scene, next.ch, robotPos, env)
  }

  /** A robot as the pass sees it. */
  datatype RobotView = RobotView(program: seq<Command>, position: Position, ch: u8)

  /** The final scene and every robot's final character. */
  datatype AllOutcome = AllOutcome(scene: Scene, glyphs: seq<u8>)

  predicate AllProgramsOk(rs: seq<RobotView>, shape: Shape, env: Env) {
    forall i :: 0 <= i < |rs| ==> ProgramOk(rs[i].program, shape, rs[i].position, env)
  }

  /** All robots of a board, in list order, each starting from the scene
      the previous one left. */
  function RunAll(rs: seq<RobotView>, s: Scene, env: Env): (r: AllOutcome)
    requires AllProgramsOk(rs, ShapeOf(s), env)
    ensures ShapeOf(r.scene) == ShapeOf(s) && |r.glyphs| == |rs|
    decreases |rs|
  {
    if rs == [] then AllOutcome(s, [])
    else
      var first := RunUntilEnd(rs[0].program, s, rs[0].ch, rs[0].position, env);
      var rest := RunAll(rs[1..], first.scene, env);
      AllOutcome(rest.scene, [first.ch] + rest.glyphs)
  }

  /** Unfolds `RunAll` at position `i` of a robot list: robot `i` runs
      first, its character leads the glyphs, and the later robots start from
      the scene it leaves. */
  lemma RunAllAt(rs: seq<RobotView>, i: nat, s: Scene, env: Env)
    requires i < |rs| && AllProgramsOk(rs[i..], ShapeOf(s), env)
    ensures ProgramOk(rs[i].program, ShapeOf(s), rs[i].position, env)
    ensures var first := RunUntilEnd(rs[i].program, s, rs[i].ch, rs[i].position, env);
            var all := RunAll(rs[i..], s, env);
            AllProgramsOk(rs[i + 1..], ShapeOf(first.scene), env) &&
            all.glyphs[0] == first.ch &&
            RunAll(rs[i + 1..], first.scene, env) == AllOutcome(all.scene, all.glyphs[1..])
  {
    assert rs[i..][0] == rs[i];
    assert rs[i..][1..] == rs[i + 1..];
  }

  // The pass on the world's objects.

  function SceneOf(world: WorldState, board: Board): Scene
    reads world, world.charset, board
  {
    Scene(world.charset[..], world.palette, board.level)
  }

  function EnvOf(board: Board, files: map<string, seq<u8>>): Env {
    Env(board.width, board.playerPos, files)
  }

  function RobotViews(robots: seq<Robot>): (r: seq<RobotView>)
    reads robots
    ensures |r| == |robots|
    ensures forall i :: 0 <= i < |robots| ==>
              r[i] == RobotView(robots[i].program, robots[i].position, robots[i].ch)
  {
    seq(|robots|, i reads robots requires 0 <= i < |robots| =>
                    RobotView(robots[i].program, robots[i].position, robots[i].ch))
  }

  /** Overwrites the whole font with `data` (`copy_from_slice`). */
  method ReplaceCharset(world: WorldState, data: seq<u8>)
    requires |data| == world.charset.Length
    modifies world.charset
    ensures world.charset[..] == data
  {
    forall i | 0 <= i < world.charset.Length {
      world.charset[i] := data[i];
    }
  }

  /** Loads a palette file: pairs the file's byte triples with the palette
      entries, in order, for as long as both last. */
  method LoadPaletteData(world: WorldState, data: seq<u8>)
    requires TriplesFit(|data|, |world.palette|)
    modifies world
    ensures world.palette == LoadedPalette(old(world.palette), data)
    ensures world.charset == old(world.charset)
  {
    ghost var before := world.palette;
    var i := 0;
    while i < |world.palette| && 3 * i < |data|
      invariant 0 <= i <= |world.palette| == |before|
      invariant world.charset == old(world.charset)
      invariant forall j :: 0 <= j < i ==> 3 * j + 3 <= |data|
      invariant forall j :: 0 <= j < |before| ==>
                  world.palette[j] == if j < i then Rgb(data[3 * j], data[3 * j + 1], data[3 * j + 2])
                                      else before[j]
    {
      world.palette := world.palette[i := Rgb(data[3 * i], data[3 * i + 1], data[3 * i + 2])];
      i := i + 1;
    }
  }

  /** Runs one robot's program up to its first `End` or `Wait`. */
  method RunRobotUntilEnd(world: WorldState, board: Board, files: map<string, seq<u8>>, robot: Robot)
    requires ProgramOk(robot.program, ShapeOf(SceneOf(world, board)), robot.position, EnvOf(board, files))
    modifies world, world.charset, board, robot
    ensures world.charset == old(world.charset)
    ensures var r := RunUntilEnd(robot.program, old(SceneOf(world, board)), old(robot.ch),
                                 robot.position, EnvOf(board, files));
            SceneOf(world, board) == r.scene && robot.ch == r.ch
  {
    ghost var s0, ch0, env := SceneOf(world, board), robot.ch, EnvOf(board, files);
    var prog := robot.program;
    var i := 0;
    while i < |prog|
      invariant 0 <= i <= |prog|
      invariant world.charset == old(world.charset)
      invariant ShapeOf(SceneOf(world, board)) == ShapeOf(s0)
      invariant ProgramOk(prog[i..], ShapeOf(s0), robot.position, env)
      invariant RunUntilEnd(prog[i..], SceneOf(world, board), robot.ch, robot.position, env)
                  == RunUntilEnd(prog, s0, ch0, robot.position, env)
    {
      ghost var s, ch := SceneOf(world, board), robot.ch;
      assert prog[i..][0] == prog[i] && prog[i..][1..] == prog[i + 1..];
      match prog[i] {
        case End =>
          break;
        case Wait =>
          break;
        case LoadCharSet(f) =>
          if f in files {
            ReplaceCharset(world, files[f]);
          }
        case LoadPalette(f) =>
          if f in files {
            LoadPaletteData(world, files[f]);
          }
        case SetColor(index, red, green, blue) =>
          world.palette := world.palette[index := Rgb(TruncateU8(red), TruncateU8(green), TruncateU8(blue))];
        case Char(g) =>
          robot.ch := g;
        case Color(code) =>
          var p := LevelIndex(board.width, robot.position);
          board.level := board.level[p := board.level[p].(color := code)];
        case PlayerColor(code) =>
          var p := LevelIndex(board.width, board.playerPos);
          board.level := board.level[p := board.level[p].(color := code)];
        case OtherCommand =>
      }
      assert Outcome(SceneOf(world, board), robot.ch) == Step(prog[i], s, ch, robot.position, env);
      i := i + 1;
    }
  }

  /** Runs every robot of a board, in list order. */
  method RunAllRobots(world: WorldState, board: Board, robots: seq<Robot>, files: map<string, seq<u8>>)
    requires forall i, j :: 0 <= i < j < |robots| ==> robots[i] != robots[j]
    requires AllProgramsOk(RobotViews(robots), ShapeOf(SceneOf(world, board)), EnvOf(board, files))
    modifies world, world.charset, board, robots
    ensures world.charset == old(world.charset)
    ensures var r := RunAll(old(RobotViews(robots)), old(SceneOf(world, board)), EnvOf(board, files));
            SceneOf(world, board) == r.scene &&
            forall i :: 0 <= i < |robots| ==> robots[i].ch == r.glyphs[i]
  {
    ghost var views, s0, env := RobotViews(robots), SceneOf(world, board), EnvOf(board, files);
    ghost var total := RunAll(views, s0, env);
    var i := 0;
    while i < |robots|
      invariant 0 <= i <= |robots|
      invariant world.charset == old(world.charset)
      invariant forall j :: 0 <= j < |robots| ==>
                  robots[j].ch == if j < i then total.glyphs[j] else views[j].ch
      invariant AllProgramsOk(views[i..], ShapeOf(SceneOf(world, board)), env)
      invariant RunAll(views[i..], SceneOf(world, board), env) == AllOutcome(total.scene, total.glyphs[i..])
    {
      ghost var cur := SceneOf(world, board);
      RunAllAt(views, i, cur, env);
      assert views[i] == RobotView(robots[i].program, robots[i].position, robots[i].ch);
      RunRobotUntilEnd(world, board, files, robots[i]);
      assert total.glyphs[i..][1..] == total.glyphs[i + 1..];
      i := i + 1;
    }
  }

  // Properties of the pass.

  /** Each instruction changes one thing at most: `LoadCharSet` only the
      font, `LoadPalette` and `SetColor` only the palette (`SetColor` one
      entry), `Char` only the robot's character, `Color` and `PlayerColor`
      only the level; a file that cannot be opened changes nothing. */
  lemma StepChangesOneThing(c: Command, s: Scene, ch: u8, robotPos: Position, env: Env)
    requires CommandOk(c, ShapeOf(s), robotPos, env)
    ensures var r := Step(c, s, ch, robotPos, env);
            (r.scene.charset != s.charset ==> c.LoadCharSet?) &&
            (r.scene.palette != s.palette ==> c.LoadPalette? || c.SetColor?) &&
            (r.ch != ch ==> c.Char?) &&
            (r.scene.level != s.level ==> c.Color? || c.PlayerColor?)
    ensures c.SetColor? ==>
              forall j :: 0 <= j < |s.palette| && j != c.index ==>
                Step(c, s, ch, robotPos, env).scene.palette[j] == s.palette[j]
    ensures c.Color? ==>
              Step(c, s, ch, robotPos, env).scene.level
                == RecolorCell(s.level, LevelIndex(env.width, robotPos), c.code)
    ensures c.PlayerColor? ==>
              Step(c, s, ch, robotPos, env).scene.level
                == RecolorCell(s.level, LevelIndex(env.width, env.playerPos), c.playerCode)
    ensures (c.LoadCharSet? && c.charsetFile !in env.files) ||
            (c.LoadPalette? && c.paletteFile !in env.files) ==>
              Step(c, s, ch, robotPos, env) == Outcome(s, ch)
  {
  }

  /** Nothing after the first `End` or `Wait` has any effect. */
  lemma {:induction false} StopIgnoresRest(p: seq<Command>, stop: Command, rest1: seq<Command>,
                                           rest2: seq<Command>, s: Scene, ch: u8,
                                           robotPos: Position, env: Env)
    requires IsStop(stop) && ProgramOk(p + [stop] + rest1, ShapeOf(s), robotPos, env)
    ensures ProgramOk(p + [stop] + rest2, ShapeOf(s), robotPos, env)
    ensures RunUntilEnd(p + [stop] + rest1, s, ch, robotPos, env)
              == RunUntilEnd(p + [stop] + rest2, s, ch, robotPos, env)
    decreases |p|
  {
    var q1, q2 := p + [stop] + rest1, p + [stop] + rest2;
    if p == [] {
      assert q1[0] == stop && q2[0] == stop;
    } else {
      assert q1[0] == p[0] && q2[0] == p[0];
      assert q1[1..] == p[1..] + [stop] + rest1;
      assert q2[1..] == p[1..] + [stop] + rest2;
      if !IsStop(p[0]) {
        var next := Step(p[0], s, ch, robotPos, env);
        StopIgnoresRest(p[1..], stop, rest1, rest2, next.scene, next.ch, robotPos, env);
      }
    }
  }

  /** Instructions run in order: a stop-free first part runs to completion
      and the rest starts from the scene and character it leaves. */
  lemma {:induction false} RunSequence(p: seq<Command>, q: seq<Command>, s: Scene, ch: u8,
                                       robotPos: Position, env: Env)
    requires forall j :: 0 <= j < |p| ==> !IsStop(p[j])
    requires ProgramOk(p + q, ShapeOf(s), robotPos, env)
    ensures ProgramOk(p, ShapeOf(s), robotPos, env)
    ensures var mid := RunUntilEnd(p, s, ch, robotPos, env);
            ProgramOk(q, ShapeOf(mid.scene), robotPos, env) &&
            RunUntilEnd(p + q, s, ch, robotPos, env) == RunUntilEnd(q, mid.scene, mid.ch, robotPos, env)
    decreases |p|
  {
    if p == [] {
      assert p + q == q;
    } else {
      assert (p + q)[0] == p[0];
      assert (p + q)[1..] == p[1..] + q;
      var next := Step(p[0], s, ch, robotPos, env);
      RunSequence(p[1..], q, next.scene, next.ch, robotPos, env);
    }
  }

  /** The program `SetColor(5, 10, 20, 30); End; ...` sets palette entry 5
      to (10, 20, 30) and changes nothing else, whatever follows `End`. */
  lemma SetColorThenEnd(rest: seq<Command>, s: Scene, ch: u8, robotPos: Position, env: Env)
    requires |s.palette| > 5
    ensures ProgramOk([SetColor(5, 10, 20, 30), End] + rest, ShapeOf(s), robotPos, env)
    ensures RunUntilEnd([SetColor(5, 10, 20, 30), End] + rest, s, ch, robotPos, env)
              == Outcome(s.(palette := s.palette[5 := Rgb(10, 20, 30)]), ch)
  {
    var prog := [SetColor(5, 10, 20, 30), End] + rest;
    assert prog[0] == SetColor(5, 10, 20, 30);
    assert prog[1..][0] == End;
  }

  /** The colour values an instruction brings into the palette are six-bit
      ones. */
  predicate SixBitSource(c: Command, env: Env) {
    match c
    case SetColor(_, red, green, blue) => 0 <= red <= 63 && 0 <= green <= 63 && 0 <= blue <= 63
    case LoadPalette(f) => f in env.files ==> forall k :: 0 <= k < |env.files[f]| ==> env.files[f][k] <= 63
    case _ => true
  }

  predicate SixBitSources(prog: seq<Command>, env: Env)
    decreases |prog|
  {
    prog == [] || IsStop(prog[0]) || (SixBitSource(prog[0], env) && SixBitSources(prog[1..], env))
  }

  /** A run whose colour values are all six-bit keeps a drawable palette
      drawable. */
  lemma {:induction false} RunKeepsPaletteSixBit(prog: seq<Command>, s: Scene, ch: u8,
                                                 robotPos: Position, env: Env)
    requires ProgramOk(prog, ShapeOf(s), robotPos, env)
    requires SixBitSources(prog, env) && PaletteSixBit(s.palette)
    ensures PaletteSixBit(RunUntilEnd(prog, s, ch, robotPos, env).scene.palette)
    decreases |prog|
  {
    if prog != [] && !IsStop(prog[0]) {
      var next := Step(prog[0], s, ch, robotPos, env);
      assert PaletteSixBit(next.scene.palette) by {
        match prog[0]
        case LoadPalette(f) =>
          if f in env.files {
            var data := env.files[f];
            forall i | 0 <= i < |s.palette|
              ensures SixBit(next.scene.palette[i])
            {
              if i < |data| / 3 {
                assert data[3 * i] <= 63 && data[3 * i + 1] <= 63 && data[3 * i + 2] <= 63;
              }
            }
          }
        case _ =>
      }
      RunKeepsPaletteSixBit(prog[1..], next.scene, next.ch, robotPos, env);
    }
  }

  /** Robots run in list order: running a list is running its first part,
      then its second part from the scene the first part leaves. */
  lemma {:induction false} RunAllAppend(rs1: seq<RobotView>, rs2: seq<RobotView>, s: Scene, env: Env)
    requires AllProgramsOk(rs1 + rs2, ShapeOf(s), env)
    ensures AllProgramsOk(rs1, ShapeOf(s), env)
    ensures var first := RunAll(rs1, s, env);
            AllProgramsOk(rs2, ShapeOf(first.scene), env) &&
            RunAll(rs1 + rs2, s, env)
              == AllOutcome(RunAll(rs2, first.scene, env).scene,
                            first.glyphs + RunAll(rs2, first.scene, env).glyphs)
    decreases |rs1|
  {
    if rs1 == [] {
      assert rs1 + rs2 == rs2;
    } else {
      var all := rs1 + rs2;
      assert all[0] == rs1[0];
      assert all[1..] == rs1[1..] + rs2;
      assert forall i :: 0 <= i < |rs1| ==> rs1[i] == all[i];
      var head := RunUntilEnd(rs1[0].program, s, rs1[0].ch, rs1[0].position, env);
      RunAllAppend(rs1[1..], rs2, head.scene, env);
    }
  }
}
