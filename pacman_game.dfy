/**
 * The pacman example's game layer: directions, the shared game context, the
 * three levels and their hand-over, and the food count a level takes from
 * its level files when it is built.
 *
 * u32 arithmetic follows a debug build: an addition that would overflow
 * panics, so callers must keep it in range; `as u32` truncates.
 */
module PacmanGame {
  import opened Wrappers
  import Geometry
  import E = InputEvents
  import InputLayer = Input
  import LevelFiles

  const WindowWidth := 960
  const WindowHeight := 720
  const U32Limit := LevelFiles.U32Limit

  datatype Dir = Up | Down | Left | Right {
    predicate IsVertical() {
      this == Up || this == Down
    }

    /** The reverse direction: on the same axis, never the same. */
    function Opposite(): (d: Dir)
      ensures d != this && d.IsVertical() == IsVertical()
    {
      match this
      case Up => Down
      case Down => Up
      case Left => Right
      case Right => Left
    }
  }

  lemma OppositeIsInvolution(d: Dir)
    ensures d.Opposite().Opposite() == d
  {
  }

  const AllDirs: seq<Dir> := [Up, Down, Left, Right]

  /** What `random_dirs` may return: the four directions in some order. */
  predicate IsShuffle(dirs: seq<Dir>) {
    |dirs| == 4 && multiset(dirs) == multiset(AllDirs)
  }

  lemma ShuffleHasEveryDir(dirs: seq<Dir>)
    requires IsShuffle(dirs)
    ensures forall d: Dir :: d in dirs
  {
    forall d: Dir ensures d in dirs {
      assert d == AllDirs[0] || d == AllDirs[1] || d == AllDirs[2] || d == AllDirs[3];
      assert d in AllDirs;
      assert d in multiset(dirs);
    }
  }

  /** The state the entities share: score, whether Pacman lives, food left, where Pacman is. */
  class GameCtx {
    var score: nat
    var pacmanAlive: bool
    var foodCount: nat
    var pacmanCenter: Geometry.Point

    ghost predicate Valid()
      reads this
    {
      score < U32Limit && foodCount < U32Limit
    }

    constructor ()
      ensures Valid() && score == 0 && pacmanAlive && foodCount == 0
      ensures pacmanCenter == Geometry.Point(0.0, 0.0)
    {
      score, pacmanAlive, foodCount := 0, true, 0;
      pacmanCenter := Geometry.Point(0.0, 0.0);
    }
  }

  datatype Levels = TitleScreen | Level1 | Level2

  /** The level each one's `next_level` names. */
  function Successor(l: Levels): (r: Levels)
    ensures r != l
  {
    match l
    case TitleScreen => Level1
    case Level1 => Level2
    case Level2 => TitleScreen
  }

  /** The title screen, level 1 and level 2 follow each other in a cycle of three. */
  lemma LevelsCycle(l: Levels)
    ensures Successor(Successor(Successor(l))) == l
    ensures Successor(Successor(l)) != l
  {
  }

  /** One level; the two playing levels also own a scene, which is not part of this model. */
  class Level {
    const kind: Levels
    var running: bool
    var next: bool

    constructor (kind: Levels)
      ensures this.kind == kind && running && !next
    {
      this.kind := kind;
      running, next := true, false;
    }

    function IsRunning(): bool
      reads this
    {
      running
    }

    /** Escape held stops the game; Enter pressed on the title screen asks for the next level. */
    method Input(input: InputLayer.InputManager)
      requires input.Valid()
      modifies this
      ensures running <==> old(running) && !input.KeyDown(E.Escape)
      ensures next <==> old(next) || (kind == TitleScreen && input.KeyPressed(E.Enter))
    {
      if input.KeyDown(E.Escape) {
        running := false;
      }
      if kind == TitleScreen && input.KeyPressed(E.Enter) {
        next := true;
      }
    }

    /** A playing level is over once no food is left; the title screen's hook does nothing. */
    method PostUpdate(ctx: GameCtx)
      modifies this
      ensures running == old(running)
      ensures next <==> old(next) || (kind != TitleScreen && ctx.foodCount == 0)
    {
      if kind != TitleScreen && ctx.foodCount == 0 {
        next := true;
      }
    }

    function NextLevel(): (r: Option<Levels>)
      reads this
      ensures r.Some? <==> next
      ensures r.Some? ==> r.value == Successor(kind)
    {
      if next then Some(Successor(kind)) else None
    }
  }

  /** The contents of the level files, or None for a file that cannot be read. */
  datatype LevelData = LevelData(foods: Option<string>, specials: Option<string>)

  /** How many positions `read_positions` yields for a file, if it yields any. */
  function ParsedCount(file: Option<string>): (r: Option<nat>)
    ensures r.Some? ==> file.Some? && r.value == |LevelFiles.KeptLines(file.value)|
  {
    match file
    case None => None
    case Some(content) =>
      var kept := LevelFiles.KeptLines(content);
      if forall k :: 0 <= k < |kept| ==> LevelFiles.ParsePosition(kept[k]).Some? then Some(|kept|) else None
  }

  /**
   * The food count a new level leaves in the context: the number of foods
   * (truncated to u32) if that file parses, else the old count; plus the
   * number of specials (truncated to u32) if that file parses.
   */
  function FoodCount(previous: nat, foods: Option<nat>, specials: Option<nat>): (r: nat)
    ensures foods.Some? && specials.Some? && foods.value < U32Limit && specials.value < U32Limit ==>
      r == foods.value + specials.value
    ensures foods.Some? && specials.Some? ==> r == foods.value % U32Limit + specials.value % U32Limit
    ensures foods.None? && specials.None? ==> r == previous
    ensures foods.None? && specials.Some? ==> r == previous + specials.value % U32Limit
    ensures foods.Some? && specials.None? ==> r == foods.value % U32Limit
  {
    var base := if foods.Some? then foods.value % U32Limit else previous;
    if specials.Some? then base + specials.value % U32Limit else base
  }

  /** The `+=` on the count does not overflow. */
  predicate CountFits(previous: nat, data: LevelData) {
    FoodCount(previous, ParsedCount(data.foods), ParsedCount(data.specials)) < U32Limit
  }

  /** What `Level1::new`/`Level2::new` do to the food count. */
  method LoadFoodCount(ctx: GameCtx, data: LevelData)
    requires ctx.Valid() && CountFits(ctx.foodCount, data)
    modifies ctx
    ensures ctx.Valid()
    ensures ctx.foodCount == FoodCount(old(ctx.foodCount), ParsedCount(data.foods), ParsedCount(data.specials))
    ensures ctx.score == old(ctx.score) && ctx.pacmanAlive == old(ctx.pacmanAlive)
    ensures ctx.pacmanCenter == old(ctx.pacmanCenter)
  {
    if data.foods.Some? {
      var ps := LevelFiles.ReadPositions(data.foods.value);
      assert ps.Some? <==> ParsedCount(data.foods).Some?;
      if ps.Some? {
        ctx.foodCount := |ps.value| % U32Limit;
      }
    } else {
      assert ParsedCount(data.foods).None?;
    }
    if data.specials.Some? {
      var ps := LevelFiles.ReadPositions(data.specials.value);
      assert ps.Some? <==> ParsedCount(data.specials).Some?;
      if ps.Some? {
        ctx.foodCount := ctx.foodCount + |ps.value| % U32Limit;
      }
    }
  }

  /** A level whose files were written from two position lists counts every food and special. */
  lemma FoodCountOfWrittenLevel(foods: seq<(nat, nat)>, specials: seq<(nat, nat)>, previous: nat)
    requires forall k :: 0 <= k < |foods| ==> LevelFiles.FitsU32(foods[k])
    requires forall k :: 0 <= k < |specials| ==> LevelFiles.FitsU32(specials[k])
    requires |foods| < U32Limit && |specials| < U32Limit
    ensures FoodCount(previous,
      ParsedCount(Some(LevelFiles.Unlines(LevelFiles.FormatPositions(foods)))),
      ParsedCount(Some(LevelFiles.Unlines(LevelFiles.FormatPositions(specials))))) == |foods| + |specials|
  {
    LevelFiles.PositionsRoundTrip(foods);
    LevelFiles.PositionsRoundTrip(specials);
  }

  /** A missing foods file leaves the previous level's count in place. */
  lemma MissingFoodsKeepsOldCount(previous: nat)
    ensures FoodCount(previous, ParsedCount(None), ParsedCount(None)) == previous
  {
  }

  class Game {
    var level: Level
    const ctx: GameCtx
    const level1: LevelData
    const level2: LevelData

    ghost predicate Valid()
      reads this, ctx
    {
      ctx.Valid()
    }

    constructor (level1: LevelData, level2: LevelData)
      ensures Valid() && fresh(level) && fresh(ctx)
      ensures level.kind == TitleScreen && level.running && !level.next
      ensures ctx.score == 0 && ctx.foodCount == 0 && ctx.pacmanAlive
      ensures this.level1 == level1 && this.level2 == level2
    {
      level := new Level(TitleScreen);
      ctx := new GameCtx();
      this.level1, this.level2 := level1, level2;
    }

    function IsRunning(): bool
      reads this, level
    {
      level.running
    }

    function DataFor(kind: Levels): LevelData
      reads this
    {
      if kind == Level1 then level1 else level2
    }

    method Input(input: InputLayer.InputManager)
      requires input.Valid()
      modifies level
      ensures level.running <==> old(level.running) && !input.KeyDown(E.Escape)
      ensures level.next <==> old(level.next) || (level.kind == TitleScreen && input.KeyPressed(E.Enter))
    {
      level.Input(input);
    }

    /**
     * After the level's own hook, a level that asked to be left is replaced
     * by a fresh instance of its successor; a playing successor reloads the
     * food count from its files.
     */
    method PostUpdate()
      requires Valid()
      requires (level.next || (level.kind != TitleScreen && ctx.foodCount == 0)) && Successor(level.kind) != TitleScreen ==>
        CountFits(ctx.foodCount, DataFor(Successor(level.kind)))
      modifies this, level, ctx
      ensures Valid()
      ensures ctx.score == old(ctx.score) && ctx.pacmanAlive == old(ctx.pacmanAlive)
      ensures ctx.pacmanCenter == old(ctx.pacmanCenter)
      ensures
        var leaving := old(level.next) || (old(level.kind) != TitleScreen && old(ctx.foodCount) == 0);
        var target := Successor(old(level.kind));
        (!leaving ==> (level == old(level) && level.running == old(level.running) && !level.next &&
          ctx.foodCount == old(ctx.foodCount))) &&
        (leaving ==> fresh(level) && level.kind == target && level.running && !level.next) &&
        (leaving && target == TitleScreen ==> ctx.foodCount == old(ctx.foodCount)) &&
        (leaving && target != TitleScreen ==>
          ctx.foodCount == FoodCount(old(ctx.foodCount), ParsedCount(DataFor(target).foods), ParsedCount(DataFor(target).specials)))
    {
      level.PostUpdate(ctx);
      var upcoming := level.NextLevel();
      if upcoming.Some? {
        var entered := new Level(upcoming.value);
        if upcoming.value != TitleScreen {
          LoadFoodCount(ctx, DataFor(upcoming.value));
        }
        level := entered;
      }
    }
  }
}
