/**
 * The pacman example's entities: pivots (the junctions of the maze), food and
 * special pellets, Pacman and the ghosts, how each one moves and how each
 * pair reacts to a collision, and the two enums the scene stores them as.
 */
module PacmanEntities {
  import opened Wrappers
  import opened PacmanGame
  import Geometry
  import E = InputEvents
  import InputLayer = Input
  import LevelFiles

  type Rect = Geometry.Rect
  type Point = Geometry.Point

  const PacmanSpeed := 200.0
  const GhostSpeed := 180.0
  const PivotSize := 8.0
  const FoodSize := 8.0
  const SpecialSize := 16.0
  const ActorSize := 40.0

  // ---------------------------------------------------------------- geometry

  /** `set_center` on a rectangle: same size, centred on (cx, cy). */
  function Recenter(r: Rect, cx: real, cy: real): (q: Rect)
    ensures q.Bounds().Center() == Geometry.Point(cx, cy)
    ensures q.width == r.width && q.height == r.height
  {
    Geometry.RectShape(r).SetCenter(cx, cy).rect
  }

  /** `Rect::new(0, 0, size, size)` followed by `set_center(x, y)`. */
  function CenteredSquare(size: real, x: nat, y: nat): (q: Rect)
    ensures q.Bounds().Center() == Geometry.Point(x as real, y as real)
    ensures q.width == size && q.height == size
  {
    Recenter(Geometry.Rect(0.0, 0.0, size, size), x as real, y as real)
  }

  function Center(r: Rect): Point {
    r.Bounds().Center()
  }

  /** The unit step of a direction; y grows downwards. */
  function Offset(d: Dir): (real, real) {
    match d
    case Up => (0.0, -1.0)
    case Down => (0.0, 1.0)
    case Left => (-1.0, 0.0)
    case Right => (1.0, 0.0)
  }

  /** One frame's movement: `move_by` of `delta` in direction `d`. */
  function Advance(r: Rect, d: Dir, delta: real): (q: Rect)
    ensures q.width == r.width && q.height == r.height
    ensures Center(q) == Geometry.Point(Center(r).x + Offset(d).0 * delta, Center(r).y + Offset(d).1 * delta)
  {
    match d
    case Up => Geometry.RectShape(r).MoveBy(0.0, -delta).rect
    case Down => Geometry.RectShape(r).MoveBy(0.0, delta).rect
    case Left => Geometry.RectShape(r).MoveBy(-delta, 0.0).rect
    case Right => Geometry.RectShape(r).MoveBy(delta, 0.0).rect
  }

  /** Moving one way and then back by the same amount returns to the start; a move keeps the other axis. */
  lemma AdvanceThenBack(r: Rect, d: Dir, delta: real)
    ensures Advance(Advance(r, d, delta), d.Opposite(), delta) == r
    ensures d.IsVertical() ==> Center(Advance(r, d, delta)).x == Center(r).x
    ensures !d.IsVertical() ==> Center(Advance(r, d, delta)).y == Center(r).y
  {
    var q := Advance(r, d, delta);
    var back := Advance(q, d.Opposite(), delta);
    assert back.width == r.width && back.height == r.height;
    assert Center(back) == Center(r);
  }

  predicate InWindow(p: Point) {
    0.0 <= p.x <= WindowWidth as real && 0.0 <= p.y <= WindowHeight as real
  }

  /** Horizontal wrap: leaving on the left re-enters on the right edge and vice versa. */
  function WrapX(r: Rect): (q: Rect)
    ensures q.width == r.width && q.height == r.height && Center(q).y == Center(r).y
    ensures Center(r).x < 0.0 ==> Center(q).x == WindowWidth as real
    ensures Center(r).x > WindowWidth as real ==> Center(q).x == 0.0
    ensures 0.0 <= Center(r).x <= WindowWidth as real ==> q == r
  {
    var c := Center(r);
    if c.x < 0.0 then Recenter(r, WindowWidth as real, c.y)
    else if c.x > WindowWidth as real then Recenter(r, 0.0, c.y)
    else r
  }

  /** Vertical wrap, the same on the other axis. */
  function WrapY(r: Rect): (q: Rect)
    ensures q.width == r.width && q.height == r.height && Center(q).x == Center(r).x
    ensures Center(r).y < 0.0 ==> Center(q).y == WindowHeight as real
    ensures Center(r).y > WindowHeight as real ==> Center(q).y == 0.0
    ensures 0.0 <= Center(r).y <= WindowHeight as real ==> q == r
  {
    var c := Center(r);
    if c.y < 0.0 then Recenter(r, c.x, WindowHeight as real)
    else if c.y > WindowHeight as real then Recenter(r, c.x, 0.0)
    else r
  }

  /** The torus wrap both actors apply after moving: the centre always ends inside the window. */
  function Wrap(r: Rect): (q: Rect)
    ensures q.width == r.width && q.height == r.height
    ensures InWindow(Center(q))
    ensures InWindow(Center(r)) ==> q == r
  {
    WrapY(WrapX(r))
  }

  /** Wrapping twice is wrapping once. */
  lemma WrapIdempotent(r: Rect)
    ensures Wrap(Wrap(r)) == Wrap(r)
  {
  }

  /** A centre one step past the right edge reappears on the left edge at the same height. */
  lemma WrapAcrossRightEdge(r: Rect)
    requires Center(r).x > WindowWidth as real && 0.0 <= Center(r).y <= WindowHeight as real
    ensures Center(Wrap(r)) == Geometry.Point(0.0, Center(r).y)
  {
  }

  // ---------------------------------------------------------------- pivots

  /** A junction: an 8x8 box and the directions that may be taken from it. Pivots never change. */
  datatype Pivot = Pivot(bbox: Rect, up: bool, down: bool, left: bool, right: bool) {
    predicate Allows(d: Dir) {
      match d
      case Up => up
      case Down => down
      case Left => left
      case Right => right
    }

    predicate ShouldBeRemoved() {
      false
    }

    /** Does the centre of box `r` lie on this pivot (edges included)? */
    predicate Holds(r: Rect) {
      Center(r).Intersects(Geometry.RectRef(bbox))
    }
  }

  /** `Pivot::new` from one row of a pivots file. */
  function NewPivot(row: LevelFiles.PivotRow): (p: Pivot)
    ensures Center(p.bbox) == Geometry.Point(row.x as real, row.y as real)
    ensures p.bbox.width == PivotSize && p.bbox.height == PivotSize
    ensures p.Allows(Up) == row.up && p.Allows(Down) == row.down
    ensures p.Allows(Left) == row.left && p.Allows(Right) == row.right
    ensures !p.ShouldBeRemoved()
  {
    Pivot(CenteredSquare(PivotSize, row.x, row.y), row.up, row.down, row.left, row.right)
  }

  /** A pivot holds a box exactly when the box's centre lies in the pivot's box, edges included. */
  lemma HoldsIsContainment(p: Pivot, r: Rect)
    ensures p.Holds(r) <==>
      p.bbox.x <= Center(r).x <= p.bbox.x + p.bbox.width && p.bbox.y <= Center(r).y <= p.bbox.y + p.bbox.height
  {
    assert p.Holds(r) == Center(r).IntersectsRect(p.bbox);
  }

  /** A pivot holds every box centred within it, whatever the box's size. */
  lemma PivotHoldsCenteredBox(p: Pivot, r: Rect)
    requires 0.0 <= p.bbox.width && 0.0 <= p.bbox.height
    requires Center(r) == Center(p.bbox)
    ensures p.Holds(r)
  {
  }

  /** `find` over the shuffled directions: the first one the pivot allows. */
  function FirstAllowed(p: Pivot, order: seq<Dir>): (r: Option<Dir>)
    ensures r.Some? ==> r.value in order && p.Allows(r.value)
    ensures r.Some? ==> exists k :: 0 <= k < |order| && order[k] == r.value && forall j :: 0 <= j < k ==> !p.Allows(order[j])
    ensures r.None? <==> forall k :: 0 <= k < |order| ==> !p.Allows(order[k])
    decreases |order|
  {
    if |order| == 0 then None
    else if p.Allows(order[0]) then Some(order[0])
    else
      var rest := FirstAllowed(p, order[1..]);
      assert forall k :: 1 <= k < |order| ==> order[k] == order[1..][k - 1];
      if rest.Some? then
        ghost var k :| 0 <= k < |order[1..]| && order[1..][k] == rest.value && forall j :: 0 <= j < k ==> !p.Allows(order[1..][j]);
        assert order[k + 1] == rest.value;
        Some(rest.value)
      else
        None
  }

  /** Over any shuffle of the four directions, `find` fails only at a pivot that allows none. */
  lemma FirstAllowedOnShuffle(p: Pivot, order: seq<Dir>)
    requires IsShuffle(order)
    ensures FirstAllowed(p, order).None? <==> !p.up && !p.down && !p.left && !p.right
  {
    ShuffleHasEveryDir(order);
    if FirstAllowed(p, order).None? {
      forall d: Dir ensures !p.Allows(d) {
        var k :| 0 <= k < |order| && order[k] == d;
      }
      assert !p.Allows(Up) && !p.Allows(Down) && !p.Allows(Left) && !p.Allows(Right);
    }
  }

  // ---------------------------------------------------------------- pellets

  /** A food (8x8) or special (16x16) pellet; it is removed once eaten. */
  class Pellet {
    const bbox: Rect
    var eaten: bool

    constructor (size: real, x: nat, y: nat)
      ensures bbox == CenteredSquare(size, x, y) && !eaten
    {
      bbox := CenteredSquare(size, x, y);
      eaten := false;
    }

    function ShouldBeRemoved(): bool
      reads this
    {
      eaten
    }

    /** Eaten by Pacman: marks itself and takes one off the food count (a u32, so it must be positive). */
    method OnPacman(ctx: GameCtx)
      requires ctx.foodCount >= 1
      modifies this, ctx
      ensures eaten && ShouldBeRemoved()
      ensures ctx.foodCount == old(ctx.foodCount) - 1
      ensures ctx.score == old(ctx.score) && ctx.pacmanAlive == old(ctx.pacmanAlive)
      ensures ctx.pacmanCenter == old(ctx.pacmanCenter)
    {
      eaten := true;
      ctx.foodCount := ctx.foodCount - 1;
    }
  }

  // ---------------------------------------------------------------- Pacman

  datatype State = Idle | Moving(dir: Dir)

  /** A state a pivot does not block: idle, or moving in a direction it allows. */
  predicate Permits(p: Pivot, s: State) {
    s.Moving? ==> p.Allows(s.dir)
  }

  /** The direction the arrow keys ask for this frame, Up taking precedence over Down over Left over Right. */
  function RequestedDir(input: InputLayer.InputManager): (r: Option<Dir>)
    requires input.Valid()
    reads input, input.keyboard, input.mouse, input.keyboard.keys, input.keyboard.keysCtrl
    ensures r == Some(Up) <==> input.KeyPressed(E.Up)
    ensures r == Some(Down) <==> !input.KeyPressed(E.Up) && input.KeyPressed(E.Down)
    ensures r == Some(Left) <==> !input.KeyPressed(E.Up) && !input.KeyPressed(E.Down) && input.KeyPressed(E.Left)
    ensures r == Some(Right) <==>
      !input.KeyPressed(E.Up) && !input.KeyPressed(E.Down) && !input.KeyPressed(E.Left) && input.KeyPressed(E.Right)
    ensures r.None? <==>
      !input.KeyPressed(E.Up) && !input.KeyPressed(E.Down) && !input.KeyPressed(E.Left) && !input.KeyPressed(E.Right)
  {
    if input.KeyPressed(E.Up) then Some(Up)
    else if input.KeyPressed(E.Down) then Some(Down)
    else if input.KeyPressed(E.Left) then Some(Left)
    else if input.KeyPressed(E.Right) then Some(Right)
    else None
  }

  /**
   * What a pivot does to Pacman's box and current state, given the state it
   * remembers: at a pivot holding its centre, a blocked direction stops it
   * and a remembered direction the pivot allows is taken; whenever the
   * current state changes, the box is snapped onto the pivot's centre.
   */
  function PacmanAtPivot(p: Pivot, box: Rect, curr: State, next: State): (r: (Rect, State))
    ensures !p.Holds(box) ==> r == (box, curr)
    ensures p.Holds(box) ==> Permits(p, r.1)
    ensures p.Holds(box) && next.Moving? && p.Allows(next.dir) ==> r.1 == next
    ensures p.Holds(box) && !(next.Moving? && p.Allows(next.dir)) ==>
      r.1 == if Permits(p, curr) then curr else Idle
    ensures r.1 == curr ==> r.0 == box
    ensures r.1 != curr ==> r.0 == Recenter(box, Center(p.bbox).x, Center(p.bbox).y)
  {
    if !p.Holds(box) then (box, curr)
    else
      var c := Center(p.bbox);
      var (box1, curr1) := if curr.Moving? && !p.Allows(curr.dir) then (Recenter(box, c.x, c.y), Idle) else (box, curr);
      if next.Moving? && curr1 != next && p.Allows(next.dir) then (Recenter(box1, c.x, c.y), next) else (box1, curr1)
  }

  class Pacman {
    var bbox: Rect
    var currState: State
    var nextState: State

    constructor (x: nat, y: nat)
      ensures bbox == CenteredSquare(ActorSize, x, y) && currState == Idle && nextState == Idle
    {
      bbox := CenteredSquare(ActorSize, x, y);
      currState, nextState := Idle, Idle;
    }

    function ShouldBeRemoved(): bool {
      false
    }

    /**
     * A requested direction is remembered for the next pivot; only a request
     * to reverse takes effect at once.
     */
    method Input(input: InputLayer.InputManager)
      requires input.Valid()
      modifies this
      ensures bbox == old(bbox)
      ensures RequestedDir(input).None? ==> currState == old(currState) && nextState == old(nextState)
      ensures RequestedDir(input).Some? ==> nextState == Moving(RequestedDir(input).value)
      ensures RequestedDir(input).Some? ==>
        currState == if old(currState) == Moving(RequestedDir(input).value.Opposite()) then nextState else old(currState)
      ensures currState == old(currState) || (currState.Moving? && old(currState) == Moving(currState.dir.Opposite()))
    {
      if input.KeyPressed(E.Up) {
        nextState := Moving(Up);
        if currState == Moving(Down) {
          currState := nextState;
        }
      } else if input.KeyPressed(E.Down) {
        nextState := Moving(Down);
        if currState == Moving(Up) {
          currState := nextState;
        }
      } else if input.KeyPressed(E.Left) {
        nextState := Moving(Left);
        if currState == Moving(Right) {
          currState := nextState;
        }
      } else if input.KeyPressed(E.Right) {
        nextState := Moving(Right);
        if currState == Moving(Left) {
          currState := nextState;
        }
      }
    }

    /** Moves at 200 px/s in the current direction, wraps around the window and publishes the centre. */
    method Update(ctx: GameCtx, frameTime: real)
      modifies this, ctx
      ensures bbox == Wrap(if old(currState).Moving? then Advance(old(bbox), old(currState).dir, PacmanSpeed * frameTime) else old(bbox))
      ensures InWindow(Center(bbox))
      ensures bbox.width == old(bbox.width) && bbox.height == old(bbox.height)
      ensures currState == old(currState) && nextState == old(nextState)
      ensures ctx.pacmanCenter == Center(bbox)
      ensures ctx.score == old(ctx.score) && ctx.foodCount == old(ctx.foodCount) && ctx.pacmanAlive == old(ctx.pacmanAlive)
    {
      var deltaSpeed := PacmanSpeed * frameTime;
      match currState {
        case Idle =>
        case Moving(d) => bbox := Advance(bbox, d, deltaSpeed);
      }
      bbox := WrapX(bbox);
      bbox := WrapY(bbox);
      ctx.pacmanCenter := Geometry.Point(Center(bbox).x, Center(bbox).y);
    }

    /** `on_pivot` for Pacman; the remembered state is kept. */
    method OnPivot(pivot: Pivot)
      modifies this
      ensures (bbox, currState) == PacmanAtPivot(pivot, old(bbox), old(currState), old(nextState))
      ensures nextState == old(nextState)
    {
      if !pivot.Holds(bbox) {
        return;
      }
      var c := Center(pivot.bbox);
      if currState.Moving? && !pivot.Allows(currState.dir) {
        bbox := Recenter(bbox, c.x, c.y);
        currState := Idle;
      }
      if nextState.Moving? && currState != nextState && pivot.Allows(nextState.dir) {
        bbox := Recenter(bbox, c.x, c.y);
        currState := nextState;
      }
    }

    method OnFood(ctx: GameCtx)
      requires ctx.score + 1 < U32Limit
      modifies ctx
      ensures ctx.score == old(ctx.score) + 1
      ensures ctx.foodCount == old(ctx.foodCount) && ctx.pacmanAlive == old(ctx.pacmanAlive)
      ensures ctx.pacmanCenter == old(ctx.pacmanCenter)
    {
      ctx.score := ctx.score + 1;
    }

    method OnSpecial(ctx: GameCtx)
      requires ctx.score + 10 < U32Limit
      modifies ctx
      ensures ctx.score == old(ctx.score) + 10
      ensures ctx.foodCount == old(ctx.foodCount) && ctx.pacmanAlive == old(ctx.pacmanAlive)
      ensures ctx.pacmanCenter == old(ctx.pacmanCenter)
    {
      ctx.score := ctx.score + 10;
    }

    method OnGhost(ctx: GameCtx)
      modifies ctx
      ensures !ctx.pacmanAlive
      ensures ctx.score == old(ctx.score) && ctx.foodCount == old(ctx.foodCount)
      ensures ctx.pacmanCenter == old(ctx.pacmanCenter)
    {
      ctx.pacmanAlive := false;
    }
  }

  // ---------------------------------------------------------------- ghosts

  /**
   * What a pivot does to a ghost's box and direction: at a pivot holding its
   * centre that blocks its direction, the ghost is snapped onto the pivot and
   * takes the first direction of `order` the pivot allows, or turns back when
   * the pivot allows none.
   */
  function GhostAtPivot(p: Pivot, box: Rect, dir: Dir, order: seq<Dir>): (r: (Rect, Dir))
    ensures !p.Holds(box) || p.Allows(dir) ==> r == (box, dir)
    ensures p.Holds(box) && !p.Allows(dir) ==> r.0 == Recenter(box, Center(p.bbox).x, Center(p.bbox).y)
    ensures p.Holds(box) && !p.Allows(dir) && (exists k :: 0 <= k < |order| && p.Allows(order[k])) ==>
      p.Allows(r.1) && exists k :: 0 <= k < |order| && order[k] == r.1 && forall j :: 0 <= j < k ==> !p.Allows(order[j])
    ensures p.Holds(box) && !p.Allows(dir) && (forall k :: 0 <= k < |order| ==> !p.Allows(order[k])) ==>
      r.1 == dir.Opposite()
  {
    if !p.Holds(box) || p.Allows(dir) then (box, dir)
    else
      var c := Center(p.bbox);
      var first := FirstAllowed(p, order);
      (Recenter(box, c.x, c.y), if first.Some? then first.value else dir.Opposite())
  }

  /** Over a shuffle of the four directions a ghost leaves every pivot that allows some direction in an allowed one. */
  lemma GhostLeavesByAllowedDir(p: Pivot, box: Rect, dir: Dir, order: seq<Dir>)
    requires IsShuffle(order) && p.Holds(box)
    requires p.up || p.down || p.left || p.right
    ensures p.Allows(GhostAtPivot(p, box, dir, order).1)
  {
    FirstAllowedOnShuffle(p, order);
  }

  /** A ghost's colour selects its sprite only and is not modelled. */
  class Ghost {
    var bbox: Rect
    var dir: Dir
    var alive: bool

    constructor (x: nat, y: nat)
      ensures bbox == CenteredSquare(ActorSize, x, y) && dir == Up && alive
    {
      bbox := CenteredSquare(ActorSize, x, y);
      dir, alive := Up, true;
    }

    function ShouldBeRemoved(): bool
      reads this
    {
      !alive
    }

    /** Moves at 180 px/s in its direction and wraps around the window. */
    method Update(frameTime: real)
      modifies this
      ensures bbox == Wrap(Advance(old(bbox), old(dir), GhostSpeed * frameTime))
      ensures InWindow(Center(bbox))
      ensures dir == old(dir) && alive == old(alive)
    {
      var deltaSpeed := GhostSpeed * frameTime;
      bbox := Advance(bbox, dir, deltaSpeed);
      bbox := WrapX(bbox);
      bbox := WrapY(bbox);
    }

    /** `on_pivot` for a ghost, with `order` the shuffle `random_dirs` returned. */
    method OnPivot(pivot: Pivot, order: seq<Dir>)
      requires IsShuffle(order)
      modifies this
      ensures (bbox, dir) == GhostAtPivot(pivot, old(bbox), old(dir), order)
      ensures alive == old(alive)
    {
      if !pivot.Holds(bbox) {
        return;
      }
      if !pivot.Allows(dir) {
        var c := Center(pivot.bbox);
        bbox := Recenter(bbox, c.x, c.y);
        match FirstAllowed(pivot, order)
        case Some(d) => dir := d;
        case None => dir := dir.Opposite();
      }
    }

    method OnPacman()
      modifies this
      ensures !alive && ShouldBeRemoved()
      ensures bbox == old(bbox) && dir == old(dir)
    {
      alive := false;
    }
  }

  // ---------------------------------------------------------------- the two enums

  datatype StaticEntity = PivotEntity(pivot: Pivot) | FoodEntity(food: Pellet) | SpecialEntity(special: Pellet) {
    function Objects(): set<object> {
      match this
      case PivotEntity(_) => {}
      case FoodEntity(f) => {f}
      case SpecialEntity(s) => {s}
    }

    function BBox(): Geometry.ShapeRef {
      match this
      case PivotEntity(p) => Geometry.RectRef(p.bbox)
      case FoodEntity(f) => Geometry.RectRef(f.bbox)
      case SpecialEntity(s) => Geometry.RectRef(s.bbox)
    }

    /** Pivots stay; pellets go once eaten. */
    predicate ShouldBeRemoved()
      reads Objects()
    {
      match this
      case PivotEntity(p) => p.ShouldBeRemoved()
      case FoodEntity(f) => f.ShouldBeRemoved()
      case SpecialEntity(s) => s.ShouldBeRemoved()
    }
  }

  datatype DynamicEntity = PacmanEntity(pacman: Pacman) | GhostEntity(chaser: Ghost) {
    function Objects(): set<object> {
      match this
      case PacmanEntity(p) => {p}
      case GhostEntity(g) => {g}
    }

    function BBox(): Geometry.ShapeRef
      reads Objects()
    {
      match this
      case PacmanEntity(p) => Geometry.RectRef(p.bbox)
      case GhostEntity(g) => Geometry.RectRef(g.bbox)
    }

    /** Pacman is never removed; a ghost is once it has met Pacman. */
    predicate ShouldBeRemoved()
      reads Objects()
    {
      match this
      case PacmanEntity(p) => p.ShouldBeRemoved()
      case GhostEntity(g) => g.ShouldBeRemoved()
    }
  }

  lemma RemovalRules(s: StaticEntity, d: DynamicEntity)
    ensures s.PivotEntity? ==> !s.ShouldBeRemoved()
    ensures s.FoodEntity? ==> (s.ShouldBeRemoved() <==> s.food.eaten)
    ensures s.SpecialEntity? ==> (s.ShouldBeRemoved() <==> s.special.eaten)
    ensures d.PacmanEntity? ==> !d.ShouldBeRemoved()
    ensures d.GhostEntity? ==> (d.ShouldBeRemoved() <==> !d.chaser.alive)
  {
  }

  /** Only Pacman reads the keyboard. */
  method DynamicInput(d: DynamicEntity, input: InputLayer.InputManager)
    requires input.Valid()
    modifies d.Objects()
    ensures d.GhostEntity? ==> unchanged(d.chaser)
    ensures d.PacmanEntity? ==> d.pacman.bbox == old(d.pacman.bbox)
    ensures d.PacmanEntity? && RequestedDir(input).None? ==>
      d.pacman.currState == old(d.pacman.currState) && d.pacman.nextState == old(d.pacman.nextState)
    ensures d.PacmanEntity? && RequestedDir(input).Some? ==> d.pacman.nextState == Moving(RequestedDir(input).value)
    ensures d.PacmanEntity? && RequestedDir(input).Some? ==>
      d.pacman.currState ==
        if old(d.pacman.currState) == Moving(RequestedDir(input).value.Opposite()) then d.pacman.nextState else old(d.pacman.currState)
  {
    match d
    case PacmanEntity(p) => p.Input(input);
    case GhostEntity(_) =>
  }

  method DynamicUpdate(d: DynamicEntity, ctx: GameCtx, frameTime: real)
    modifies d.Objects(), ctx
    ensures d.GhostEntity? ==> unchanged(ctx)
    ensures InWindow(Center(match d case PacmanEntity(p) => p.bbox case GhostEntity(g) => g.bbox))
    ensures d.PacmanEntity? ==>
      d.pacman.bbox == Wrap(if old(d.pacman.currState).Moving?
        then Advance(old(d.pacman.bbox), old(d.pacman.currState).dir, PacmanSpeed * frameTime) else old(d.pacman.bbox)) &&
      d.pacman.currState == old(d.pacman.currState) && d.pacman.nextState == old(d.pacman.nextState) &&
      ctx.pacmanCenter == Center(d.pacman.bbox) &&
      ctx.score == old(ctx.score) && ctx.foodCount == old(ctx.foodCount) && ctx.pacmanAlive == old(ctx.pacmanAlive)
    ensures d.GhostEntity? ==>
      d.chaser.bbox == Wrap(Advance(old(d.chaser.bbox), old(d.chaser.dir), GhostSpeed * frameTime)) &&
      d.chaser.dir == old(d.chaser.dir) && d.chaser.alive == old(d.chaser.alive)
  {
    match d
    case PacmanEntity(p) => p.Update(ctx, frameTime);
    case GhostEntity(g) => g.Update(frameTime);
  }

  /** A static entity's reaction to a dynamic one: only a pellet touched by Pacman reacts, by being eaten. */
  method StaticOnDynamic(s: StaticEntity, d: DynamicEntity, ctx: GameCtx)
    requires !s.PivotEntity? && d.PacmanEntity? ==> ctx.foodCount >= 1
    modifies s.Objects(), ctx
    ensures !s.PivotEntity? && d.PacmanEntity? ==> s.ShouldBeRemoved() && ctx.foodCount == old(ctx.foodCount) - 1
    ensures !(!s.PivotEntity? && d.PacmanEntity?) ==> unchanged(s.Objects()) && unchanged(ctx)
    ensures ctx.score == old(ctx.score) && ctx.pacmanAlive == old(ctx.pacmanAlive)
    ensures ctx.pacmanCenter == old(ctx.pacmanCenter)
  {
    match (s, d)
    case (FoodEntity(f), PacmanEntity(_)) => f.OnPacman(ctx);
    case (SpecialEntity(sp), PacmanEntity(_)) => sp.OnPacman(ctx);
    case (PivotEntity(_), PacmanEntity(_)) =>
    case (_, GhostEntity(_)) =>
  }

  /**
   * A dynamic entity's reaction to a static one: Pacman scores 1 for a food
   * and 10 for a special and steers at a pivot; a ghost steers at a pivot
   * and ignores pellets.
   */
  method DynamicOnStatic(d: DynamicEntity, s: StaticEntity, ctx: GameCtx, order: seq<Dir>)
    requires IsShuffle(order)
    requires d.PacmanEntity? && s.FoodEntity? ==> ctx.score + 1 < U32Limit
    requires d.PacmanEntity? && s.SpecialEntity? ==> ctx.score + 10 < U32Limit
    modifies d.Objects(), ctx
    ensures ctx.foodCount == old(ctx.foodCount) && ctx.pacmanAlive == old(ctx.pacmanAlive)
    ensures ctx.pacmanCenter == old(ctx.pacmanCenter)
    ensures d.PacmanEntity? && s.FoodEntity? ==> ctx.score == old(ctx.score) + 1 && unchanged(d.pacman)
    ensures d.PacmanEntity? && s.SpecialEntity? ==> ctx.score == old(ctx.score) + 10 && unchanged(d.pacman)
    ensures s.PivotEntity? || d.GhostEntity? ==> ctx.score == old(ctx.score)
    ensures d.GhostEntity? && !s.PivotEntity? ==> unchanged(d.chaser)
    ensures d.PacmanEntity? && s.PivotEntity? ==>
      (d.pacman.bbox, d.pacman.currState) == PacmanAtPivot(s.pivot, old(d.pacman.bbox), old(d.pacman.currState), old(d.pacman.nextState)) &&
      d.pacman.nextState == old(d.pacman.nextState)
    ensures d.GhostEntity? && s.PivotEntity? ==>
      (d.chaser.bbox, d.chaser.dir) == GhostAtPivot(s.pivot, old(d.chaser.bbox), old(d.chaser.dir), order) &&
      d.chaser.alive == old(d.chaser.alive)
  {
    match (d, s)
    case (PacmanEntity(p), PivotEntity(pivot)) => p.OnPivot(pivot);
    case (PacmanEntity(p), FoodEntity(_)) => p.OnFood(ctx);
    case (PacmanEntity(p), SpecialEntity(_)) => p.OnSpecial(ctx);
    case (GhostEntity(g), PivotEntity(pivot)) => g.OnPivot(pivot, order);
    case (GhostEntity(_), _) =>
  }

  /** Between two dynamic entities only Pacman and a ghost react: Pacman dies and the ghost is removed. */
  method DynamicOnDynamic(d: DynamicEntity, other: DynamicEntity, ctx: GameCtx)
    modifies d.Objects(), ctx
    ensures d.PacmanEntity? && other.GhostEntity? ==> !ctx.pacmanAlive && unchanged(d.pacman)
    ensures d.GhostEntity? && other.PacmanEntity? ==> d.ShouldBeRemoved() && unchanged(ctx)
    ensures d.PacmanEntity? == other.PacmanEntity? ==> unchanged(d.Objects()) && unchanged(ctx)
    ensures d.GhostEntity? && other.PacmanEntity? ==> d.chaser.bbox == old(d.chaser.bbox) && d.chaser.dir == old(d.chaser.dir)
    ensures ctx.score == old(ctx.score) && ctx.foodCount == old(ctx.foodCount)
    ensures ctx.pacmanCenter == old(ctx.pacmanCenter)
  {
    match (d, other)
    case (PacmanEntity(p), GhostEntity(_)) => p.OnGhost(ctx);
    case (GhostEntity(g), PacmanEntity(_)) => g.OnPacman();
    case (_, _) =>
  }

  /** A pivot built from a row holds every box centred at most half its size away from (x, y) on each axis. */
  lemma RowPivotHolds(row: LevelFiles.PivotRow, box: Rect)
    requires row.x as real - PivotSize / 2.0 <= Center(box).x <= row.x as real + PivotSize / 2.0
    requires row.y as real - PivotSize / 2.0 <= Center(box).y <= row.y as real + PivotSize / 2.0
    ensures NewPivot(row).Holds(box)
  {
    var p := NewPivot(row);
    assert p.bbox.x == row.x as real - PivotSize / 2.0 && p.bbox.y == row.y as real - PivotSize / 2.0;
    HoldsIsContainment(p, box);
  }

  /**
   * Pacman heading right with Up remembered, anywhere on a pivot open
   * upwards, turns up and lands on the pivot's centre.
   */
  lemma TurnAtJunction(x: nat, y: nat, offset: real)
    requires -PivotSize / 2.0 <= offset <= PivotSize / 2.0
    ensures PacmanAtPivot(NewPivot(LevelFiles.PivotRow(true, false, true, true, x, y)),
      Recenter(Geometry.Rect(0.0, 0.0, ActorSize, ActorSize), x as real + offset, y as real), Moving(Right), Moving(Up)) ==
      (CenteredSquare(ActorSize, x, y), Moving(Up))
  {
    var row := LevelFiles.PivotRow(true, false, true, true, x, y);
    var box := Recenter(Geometry.Rect(0.0, 0.0, ActorSize, ActorSize), x as real + offset, y as real);
    RowPivotHolds(row, box);
    var snapped := Recenter(box, x as real, y as real);
    assert PacmanAtPivot(NewPivot(row), box, Moving(Right), Moving(Up)) == (snapped, Moving(Up));
    SquareOfCenterAndSize(snapped, CenteredSquare(ActorSize, x, y));
  }

  /** Pacman running right into a wall with nothing remembered stops on the pivot's centre. */
  lemma StopAtWall(x: nat, y: nat, offset: real)
    requires -PivotSize / 2.0 <= offset <= PivotSize / 2.0
    ensures PacmanAtPivot(NewPivot(LevelFiles.PivotRow(true, true, true, false, x, y)),
      Recenter(Geometry.Rect(0.0, 0.0, ActorSize, ActorSize), x as real + offset, y as real), Moving(Right), Idle) ==
      (CenteredSquare(ActorSize, x, y), Idle)
  {
    var row := LevelFiles.PivotRow(true, true, true, false, x, y);
    var box := Recenter(Geometry.Rect(0.0, 0.0, ActorSize, ActorSize), x as real + offset, y as real);
    RowPivotHolds(row, box);
    var snapped := Recenter(box, x as real, y as real);
    assert PacmanAtPivot(NewPivot(row), box, Moving(Right), Idle) == (snapped, Idle);
    SquareOfCenterAndSize(snapped, CenteredSquare(ActorSize, x, y));
  }

  /** A ghost heading up into a dead end that only opens backwards turns around, whatever the shuffle. */
  lemma GhostAtDeadEnd(x: nat, y: nat, order: seq<Dir>)
    requires IsShuffle(order)
    ensures GhostAtPivot(NewPivot(LevelFiles.PivotRow(false, true, false, false, x, y)),
      CenteredSquare(ActorSize, x, y), Up, order) == (CenteredSquare(ActorSize, x, y), Down)
  {
    var row := LevelFiles.PivotRow(false, true, false, false, x, y);
    var pivot := NewPivot(row);
    var box := CenteredSquare(ActorSize, x, y);
    RowPivotHolds(row, box);
    ShuffleHasEveryDir(order);
    var k :| 0 <= k < |order| && order[k] == Down;
    var r := GhostAtPivot(pivot, box, Up, order);
    assert r.1 == Down;
    SquareOfCenterAndSize(r.0, box);
  }

  /** Two rectangles with the same size and centre are the same rectangle. */
  lemma SquareOfCenterAndSize(a: Rect, b: Rect)
    requires a.width == b.width && a.height == b.height && Center(a) == Center(b)
    ensures a == b
  {
  }
}
