# bronze — a Dafny model of the engine core and the pacman example

bronze is a small 2D game engine written in Rust on top of SFML, with a
pacman game as its main example. This project models and proves properties of:

- **Geometry** (`geometry.dfy`, module `Geometry`): points, rectangles,
  circles, the `Shape` enum, the `Mixed` composite and the type-erased
  `ShapeRef` handle. It covers their bounding boxes, the `Movable` setters
  and the double-dispatched intersection tests.
- **The scene** (`scene.dfy`, module `Scene`): the static and dynamic
  entity vectors, appending, removal by pointer identity with `swap_remove`,
  the lifecycle traversals, and the O(n²) collision broad phase that fires
  both callbacks of every pair.
- **Input** (`input.dfy`, module `Input`, and `engine_input.dfy`, module
  `EngineInput`, the older copy with the shorter names). These are the
  keyboard and mouse tables over arrays with their edge queries. Both are
  proved against a value-level meaning of the event stream in
  `input_events.dfy` (module `InputEvents`).
- **The resource pool** (`resources.dfy`, module `Resources`): one lazily
  filled cell per enum variant and kind, and a loader that runs at most once
  per id.
- **Pacman level files** (`level_files.dfy`, module `LevelFiles`): `str::lines`,
  `split_whitespace`, the `char`/`u32` parsers, `char_to_bool`, `read_pivots`
  and `read_positions`. It also has writers for both formats, so the readers
  can be proved to recover what was written.
- **Pacman game layer** (`pacman_game.dfy`, module `PacmanGame`): `Dir`,
  the shared `GameCtx`, the three levels and their cycle, the food count a
  level loads, and `Game::post_update`'s level switch.
- **Pacman entities** (`pacman_entities.dfy`, module `PacmanEntities`):
  pivots, food and special pellets, Pacman's current/remembered state
  machine, the ghosts' direction choice, wrap-around, scoring and deaths,
  and the collision dispatch of the `StaticEntity`/`DynamicEntity` enums.

Modelling choices:

- Coordinates are `real`.
- `as i32` is truncation toward zero (`Geometry.AsI32`).
- `u32` fields are `nat`. Their bounds are stated where a debug build would
  panic on overflow, and `as u32` is written out as `% 2^32`.
- Objects whose fields the source updates in place are Dafny classes:
  - the input tables are `array<bool>`;
  - the scene's vectors are `seq` fields;
  - the entities, the levels and the game are classes.
- The scene's entities are `Scene.Body` objects. Dafny's reference equality
  therefore stands for `std::ptr::eq`.
- Every engine-supplied hook or callback appends to a `Scene.Trace`. A
  collision callback also gives its receiver a new shape and records the
  other entity's shape as it saw it. This shows that pairs are computed
  before any callback runs, and that callbacks see live objects.

Behaviour of the code worth noting, which the model reproduces:

- `Point::intersects_point` compares coordinates after `as i32`, which
  truncates toward zero. So (−0.9, 0) meets (0.9, 0), and a zero-sized
  `Rect` does not behave like a `Point` (`Geometry.ZeroRectDiffersFromPoint`).
- When a level's foods file cannot be read or parsed, `food_count` keeps its
  previous value (`PacmanGame.MissingFoodsKeepsOldCount`).
- The entities take `bbox.center()`, which returns a vector, as a `Point`
  before calling `intersects`. The model does the same (`PacmanEntities.Pivot.Holds`).

## Model

| member | source | states |
|---|---|---|
| Geometry.MinOf | bronze/src/shape.rs:554-568 | the minimum over the members' sides is one of them and is below every one |
| Geometry.MaxOf | bronze/src/shape.rs:570-584 | the maximum over the members' sides is one of them and is above every one |
| Geometry.Rect.ClosestPoint | bronze/src/shape.rs:340-357 | the clamped point lies in the rectangle whenever width and height are non-negative, and is the circle centre itself when that centre is inside |
| Geometry.Shape.SetPosition | bronze/src/shape.rs:467-485 | the top-left corner moves to (x, y), the extent is kept and the kind is kept |
| Geometry.Shape.MoveBy | bronze/src/shape.rs:478-485 | the box moves by (dx, dy) and keeps its extent and kind |
| Geometry.Shape.SetCenter | bronze/src/shape.rs:65-68 | afterwards `center() == (x, y)`, and width and height are unchanged |
| Geometry.Shape.SetLeft | bronze/src/shape.rs:70-73 | only `left` changes, to x |
| Geometry.Shape.SetTop | bronze/src/shape.rs:75-78 | only `top` changes, to y |
| Geometry.Shape.SetRight | bronze/src/shape.rs:80-83 | afterwards `right() == x`; `top` and the extent are kept |
| Geometry.Shape.SetBottom | bronze/src/shape.rs:85-88 | afterwards `bottom() == y`; `left` and the extent are kept |
| Geometry.Mixed.Project | bronze/src/shape.rs:553-584 | one side per member's box, in member order |
| Geometry.AnyIff | bronze/src/shape.rs:594-616 | `iter().any` holds exactly when some element satisfies the predicate |
| Geometry.SqrtFreeComparison | bronze/src/shape.rs:430-435 | for any non-negative square root s of d², `s <= r` agrees with the squared comparison the model uses |
| Geometry.AsI32IsTruncation | bronze/src/shape.rs:250-252 | `as i32` rounds toward zero: less than 1 away from the value, never past it, and odd-symmetric |
| Geometry.PointsMeetOnTruncatedGrid | bronze/src/shape.rs:250-252 | points meet on the truncated grid; (−0.9, 0) meets (0.9, 0) and (−1, 0) does not meet (0, 0) |
| Geometry.PointRectIsInclusive | bronze/src/shape.rs:254-259 | a point meets a rectangle iff it lies in [x, x+w]×[y, y+h], edges included; the corner meets it iff the extent is non-negative |
| Geometry.RectsMeetUnlessSeparated | bronze/src/shape.rs:333-338 | two rectangles meet iff no axis separates them; the test is symmetric, a non-negative rectangle meets itself and a shared edge counts |
| Geometry.CircleGeometry | bronze/src/shape.rs:414-420 | a circle's centre is (x+r, y+r) and its width and height are 2r |
| Geometry.CirclesMeetIffCentresClose | bronze/src/shape.rs:430-435 | two circles meet iff the distance between their centres is at most r1 + r2 |
| Geometry.CircleBoundaryExamples | bronze/src/shape.rs:430-435 | the boundary is inclusive: centres exactly r1 + r2 apart meet, 0.001 further apart do not |
| Geometry.RectCircleUsesClosestPoint | bronze/src/shape.rs:340-358 | rectangle–circle is the point–circle test on the clamped point, and a centre inside the rectangle always meets it |
| Geometry.MixedIntersectsPointIff | bronze/src/shape.rs:594-598 | a composite meets a point iff one of its members does |
| Geometry.MixedIntersectsIff | bronze/src/shape.rs:612-616 | a composite meets any handle iff one of its members does |
| Geometry.MixedBoundsAreUnion | bronze/src/shape.rs:553-592 | left/top are the least member left/top and right/bottom the greatest member right/bottom, each attained by a member; width and height are derived from them |
| Geometry.EmptyMixed | bronze/src/shape.rs:553-618 | an empty composite is the zero box at the origin and meets nothing, in either direction |
| Geometry.NoneIsInert | bronze/src/shape.rs:104-183 | `ShapeRef::None` has left, top, width and height 0 and meets nothing, in either direction |
| Geometry.ShapesMeetSymmetric | bronze/src/shape.rs:250-439 | between the concrete kinds the swapped delegation makes intersection symmetric |
| Geometry.ShapeMeetsMembers | bronze/src/shape.rs:544-550 | a concrete shape meets a handle iff it meets one of the handle's members |
| Geometry.IntersectsIffMembersMeet | bronze/src/shape.rs:175-183 | two handles meet iff a member of one meets a member of the other |
| Geometry.IntersectsSymmetric | bronze/src/shape.rs:175-183 | intersection is symmetric for every pair of handles, composites and `None` included |
| Geometry.IntersectsMixedAgrees | bronze/src/shape.rs:54-56 | the trait's default `intersects_mixed` agrees with the generic dispatch on a composite |
| Geometry.ShapeMeetsItself | bronze/src/shape.rs:250-439 | a shape with non-negative extent meets itself |
| Geometry.HandleMeetsItself | bronze/src/shape.rs:175-183 | a handle with a member of non-negative extent meets itself |
| Geometry.ZeroRectDiffersFromPoint | bronze/src/shape.rs:250-259 | points compare on the truncated grid but a zero-sized rectangle compares exactly, so the two differ |
| Geometry.MixedIsDisjunctive | bronze/src/shape.rs:594-618 | a composite hits through one member however far away the others are |
| Geometry.BBox.Right | bronze/src/shape.rs:19-22 | no contract of its own: `left + width`; the composite case is stated by `Geometry.MixedBoundsAreUnion` |
| Geometry.BBox.Bottom | bronze/src/shape.rs:24-27 | no contract of its own: `top + height`; the composite case is stated by `Geometry.MixedBoundsAreUnion` |
| Geometry.BBox.CenterX | bronze/src/shape.rs:29-32 | no contract of its own: the midpoint of left and right; `Geometry.CircleGeometry` and `Geometry.Shape.SetCenter` state it for circles and moved shapes |
| Geometry.BBox.CenterY | bronze/src/shape.rs:34-37 | no contract of its own: the midpoint of top and bottom; used as `CenterX` is |
| Geometry.BBox.Position | bronze/src/shape.rs:39-42 | no contract of its own: the top-left corner; `Geometry.Shape.SetPosition` states how it moves |
| Geometry.BBox.Center | bronze/src/shape.rs:44-47 | no contract of its own: the pair of `center_x` and `center_y`; `Geometry.Shape.SetCenter` states how it moves |
| Geometry.SquaredDistance | bronze/src/shape.rs:202-206 | no contract of its own: the squared Euclidean distance that `distance` takes the root of; `Geometry.SqrtFreeComparison` relates the two |
| Geometry.Point.Bounds | bronze/src/shape.rs:233-248 | no contract of its own: a zero-sized box at the point |
| Geometry.Point.IntersectsPoint | bronze/src/shape.rs:250-252 | no contract of its own: equal coordinates after `as i32`; `Geometry.PointsMeetOnTruncatedGrid` and `Geometry.ZeroRectDiffersFromPoint` state its meaning |
| Geometry.Point.IntersectsRect | bronze/src/shape.rs:254-259 | no contract of its own: `Geometry.PointRectIsInclusive` states it is the closed-box test |
| Geometry.Point.IntersectsCircle | bronze/src/shape.rs:261-263 | no contract of its own: delegates to the circle; `Geometry.ShapesMeetSymmetric` states the swap is symmetric |
| Geometry.Point.Intersects | bronze/src/shape.rs:265-267 | no contract of its own: double dispatch on the other shape; `Geometry.ShapeMeetsMembers` states its meaning for every handle |
| Geometry.Rect.Bounds | bronze/src/shape.rs:312-327 | no contract of its own: the rectangle itself as a box |
| Geometry.Rect.IntersectsPoint | bronze/src/shape.rs:329-331 | no contract of its own: delegates to the point; `Geometry.PointRectIsInclusive` and `Geometry.ShapesMeetSymmetric` state its meaning |
| Geometry.Rect.IntersectsRect | bronze/src/shape.rs:333-338 | no contract of its own: `Geometry.RectsMeetUnlessSeparated` states it is the separating-axis test |
| Geometry.Rect.IntersectsCircle | bronze/src/shape.rs:340-358 | no contract of its own: `Geometry.RectCircleUsesClosestPoint` states it is the point–circle test on the clamped point |
| Geometry.Rect.Intersects | bronze/src/shape.rs:360-362 | no contract of its own: double dispatch; `Geometry.ShapeMeetsMembers` states its meaning |
| Geometry.Circle.Bounds | bronze/src/shape.rs:405-420 | no contract of its own: `Geometry.CircleGeometry` states the centre (x+r, y+r) and extent 2r |
| Geometry.Circle.IntersectsPoint | bronze/src/shape.rs:422-424 | no contract of its own: the point is within the radius of the centre, as a squared comparison (`Geometry.SqrtFreeComparison`) |
| Geometry.Circle.IntersectsRect | bronze/src/shape.rs:426-428 | no contract of its own: delegates to the rectangle; `Geometry.RectCircleUsesClosestPoint` states its meaning |
| Geometry.Circle.IntersectsCircle | bronze/src/shape.rs:430-435 | no contract of its own: `Geometry.CirclesMeetIffCentresClose` states it holds iff the centres are at most r1 + r2 apart |
| Geometry.Circle.Intersects | bronze/src/shape.rs:437-439 | no contract of its own: double dispatch; `Geometry.ShapeMeetsMembers` states its meaning |
| Geometry.Shape.AsRef | bronze/src/shape.rs:458-464 | no contract of its own: the handle of the same kind over the same shape |
| Geometry.Shape.Bounds | bronze/src/shape.rs:487-518 | no contract of its own: the box of the wrapped shape |
| Geometry.Shape.IntersectsPoint | bronze/src/shape.rs:520-526 | no contract of its own: forwards to the wrapped shape |
| Geometry.Shape.IntersectsRect | bronze/src/shape.rs:528-534 | no contract of its own: forwards to the wrapped shape |
| Geometry.Shape.IntersectsCircle | bronze/src/shape.rs:536-542 | no contract of its own: forwards to the wrapped shape |
| Geometry.Shape.Intersects | bronze/src/shape.rs:544-550 | no contract of its own: forwards to the wrapped shape; `Geometry.ShapesMeetSymmetric`, `Geometry.ShapeMeetsMembers` and `Geometry.ShapeMeetsItself` state its meaning |
| Geometry.Mixed.Left | bronze/src/shape.rs:554-560 | no contract of its own: `min_by` over the members' left sides, 0 when empty; `Geometry.MinOf`, `Geometry.MixedBoundsAreUnion` and `Geometry.EmptyMixed` state its meaning |
| Geometry.Mixed.Top | bronze/src/shape.rs:562-568 | no contract of its own: `min_by` over the members' top sides; stated by `Geometry.MixedBoundsAreUnion` and `Geometry.EmptyMixed` |
| Geometry.Mixed.Right | bronze/src/shape.rs:570-576 | no contract of its own: `max_by` over the members' right sides; stated by `Geometry.MaxOf` and `Geometry.MixedBoundsAreUnion` |
| Geometry.Mixed.Bottom | bronze/src/shape.rs:578-584 | no contract of its own: `max_by` over the members' bottom sides; stated by `Geometry.MixedBoundsAreUnion` |
| Geometry.Mixed.Bounds | bronze/src/shape.rs:586-592 | no contract of its own: width and height are right − left and bottom − top; stated by `Geometry.MixedBoundsAreUnion` |
| Geometry.Mixed.IntersectsPoint | bronze/src/shape.rs:594-598 | no contract of its own: `any` member meets the point; `Geometry.MixedIntersectsPointIff` states its meaning |
| Geometry.Mixed.IntersectsRect | bronze/src/shape.rs:600-604 | no contract of its own: `any` member meets the rectangle; `Geometry.AnyIff` states what `any` means |
| Geometry.Mixed.IntersectsCircle | bronze/src/shape.rs:606-610 | no contract of its own: `any` member meets the circle; `Geometry.AnyIff` states what `any` means |
| Geometry.Mixed.Intersects | bronze/src/shape.rs:612-616 | no contract of its own: `any` member meets the other; `Geometry.MixedIntersectsIff` and `Geometry.MixedIsDisjunctive` state its meaning |
| Geometry.ShapeRef.Bounds | bronze/src/shape.rs:104-143 | no contract of its own: the box of the referenced shape, all zero for `None` (`Geometry.NoneIsInert`) |
| Geometry.ShapeRef.IntersectsPoint | bronze/src/shape.rs:145-153 | no contract of its own: forwards to the referenced shape, false for `None` |
| Geometry.ShapeRef.IntersectsRect | bronze/src/shape.rs:155-163 | no contract of its own: forwards to the referenced shape, false for `None` |
| Geometry.ShapeRef.IntersectsCircle | bronze/src/shape.rs:165-173 | no contract of its own: forwards to the referenced shape, false for `None` |
| Geometry.ShapeRef.IntersectsMixed | bronze/src/shape.rs:54-56 | no contract of its own: the default `any`-over-members test; `Geometry.IntersectsMixedAgrees` states it agrees with the dispatch |
| Geometry.ShapeRef.Intersects | bronze/src/shape.rs:175-183 | no contract of its own: `Geometry.IntersectsIffMembersMeet`, `Geometry.IntersectsSymmetric` and `Geometry.HandleMeetsItself` state its meaning |
| InputEvents.Change | bronze/src/input.rs:19-30 | which switch an event sets or clears: only key events with a known code touch keys, and only button events touch buttons |
| InputEvents.Switches.Latch | bronze/src/input.rs:139-142 | `update` makes the control copy equal to the current state |
| InputEvents.AllUp | bronze/src/input.rs:11-17 | a fresh bank has every switch up, now and at the last update |
| InputEvents.Step | bronze/src/input.rs:19-30 | one event changes the switch it names and no other, and never the control copy |
| InputEvents.Position | bronze/src/input.rs:70-81 | only `MouseMoved` changes the mouse position |
| InputEvents.Feed | bronze/src/input.rs:133-136 | a frame's events never touch the control copy |
| InputEvents.FeedIsLastChange | bronze/src/input.rs:19-30 | after a sequence of events each switch holds what the last event naming it set, or its old value |
| InputEvents.EdgesSinceUpdate | bronze/src/input.rs:42-50 | after an update and some events, pressed means up at the update and last set down; released is the dual |
| InputEvents.EdgesExclusive | bronze/src/input.rs:32-50 | pressed and released are never both true, up is not-down, and pressed implies down |
| InputEvents.LatchClearsEdges | bronze/src/input.rs:139-142 | right after an update nothing is pressed or released and which switches are down is unchanged |
| InputEvents.ForeignEventsIgnored | bronze/src/input.rs:19-30 | events that name no switch of a bank leave it as it was |
| InputEvents.TapWithinFrame | bronze/src/input.rs:42-50 | a press and release within one frame shows neither edge; a press alone shows pressed |
| InputEvents.UnknownKeyIgnored | bronze/src/input.rs:19-30 | an event carrying `Key::Unknown` changes no key |
| Input.Keyboard.constructor | bronze/src/input.rs:11-17 | both tables hold 101 keys, all up |
| Input.Keyboard.Propagate | bronze/src/input.rs:19-30 | the key table takes the step the event defines and the control table is untouched |
| Input.Keyboard.KeyDown | bronze/src/input.rs:32-35 | the key is down now |
| Input.Keyboard.KeyUp | bronze/src/input.rs:37-40 | the negation of `key_down` |
| Input.Keyboard.KeyPressed | bronze/src/input.rs:42-45 | down now and up at the last update; implies down |
| Input.Keyboard.KeyReleased | bronze/src/input.rs:47-50 | up now and down at the last update; never together with pressed |
| Input.Mouse.constructor | bronze/src/input.rs:60-68 | position (0, 0) and all five buttons up |
| Input.Mouse.Propagate | bronze/src/input.rs:70-81 | button events set or clear their button, `MouseMoved` sets x and y, others change nothing |
| Input.Mouse.ButtonDown | bronze/src/input.rs:98-101 | the button is down now |
| Input.Mouse.ButtonUp | bronze/src/input.rs:103-106 | the negation of `button_down` |
| Input.Mouse.ButtonPressed | bronze/src/input.rs:108-111 | down now and up at the last update |
| Input.Mouse.ButtonReleased | bronze/src/input.rs:113-116 | up now and down at the last update; never together with pressed |
| Input.Mouse.Position | bronze/src/input.rs:83-96 | no contract of its own: `x`, `y` and `position` read the stored position, which `Input.Mouse.Propagate` states |
| Input.InputManager.constructor | bronze/src/input.rs:125-130 | a fresh keyboard and mouse, everything up, at (0, 0) |
| Input.InputManager.Propagate | bronze/src/input.rs:133-136 | the same event is applied to the keyboard and to the mouse |
| Input.InputManager.Update | bronze/src/input.rs:139-142 | both control tables become the current tables, so no key or button shows an edge |
| Input.InputManager.KeyDown | bronze/src/input.rs:145-148 | delegates `key_down` unchanged |
| Input.InputManager.KeyUp | bronze/src/input.rs:150-153 | delegates `key_up` unchanged |
| Input.InputManager.KeyPressed | bronze/src/input.rs:155-158 | delegates `key_pressed` unchanged |
| Input.InputManager.KeyReleased | bronze/src/input.rs:160-163 | delegates `key_released` unchanged |
| Input.InputManager.ButtonDown | bronze/src/input.rs:165-168 | delegates `button_down` unchanged |
| Input.InputManager.ButtonUp | bronze/src/input.rs:170-173 | delegates `button_up` unchanged |
| Input.InputManager.ButtonPressed | bronze/src/input.rs:175-178 | delegates `button_pressed` unchanged |
| Input.InputManager.ButtonReleased | bronze/src/input.rs:180-183 | delegates `button_released` unchanged |
| EngineInput.Keyboard.constructor | src/engine/input.rs:9-15 | both tables hold 101 keys, all up |
| EngineInput.Keyboard.Event | src/engine/input.rs:17-27 | pressing or releasing a known key sets or clears it; other events change nothing and the control table is untouched |
| EngineInput.Keyboard.KeyDown | src/engine/input.rs:29-31 | the key is down now |
| EngineInput.Keyboard.KeyUp | src/engine/input.rs:33-35 | the negation of `key_down` |
| EngineInput.Keyboard.KeyPress | src/engine/input.rs:37-39 | down now and up at the last update |
| EngineInput.Keyboard.KeyRelease | src/engine/input.rs:41-43 | up now and down at the last update; never together with press |
| EngineInput.Mouse.constructor | src/engine/input.rs:54-62 | position (0, 0) and all buttons up |
| EngineInput.Mouse.Event | src/engine/input.rs:64-74 | button events set or clear their button and `MouseMoved` records the position |
| EngineInput.Mouse.ButtonDown | src/engine/input.rs:88-90 | the button is down now |
| EngineInput.Mouse.ButtonUp | src/engine/input.rs:92-94 | the negation of `button_down` |
| EngineInput.Mouse.ButtonPress | src/engine/input.rs:96-98 | down now and up at the last update |
| EngineInput.Mouse.ButtonRelease | src/engine/input.rs:100-102 | up now and down at the last update; never together with press |
| EngineInput.Mouse.Position | src/engine/input.rs:76-86 | no contract of its own: the stored position, which `EngineInput.Mouse.Event` states |
| EngineInput.InputManager.constructor | src/engine/input.rs:111-117 | a fresh keyboard and mouse, everything up |
| EngineInput.InputManager.Event | src/engine/input.rs:119-123 | the same event goes to the keyboard and the mouse |
| EngineInput.InputManager.Update | src/engine/input.rs:125-128 | both control tables equal the current ones afterwards, so every press and release query is false |
| EngineInput.InputManager.KeyDown | src/engine/input.rs:130-132 | delegates `key_down` |
| EngineInput.InputManager.KeyUp | src/engine/input.rs:134-136 | delegates `key_up` |
| EngineInput.InputManager.KeyPress | src/engine/input.rs:138-140 | delegates `key_press` |
| EngineInput.InputManager.KeyRelease | src/engine/input.rs:142-144 | delegates `key_release` |
| EngineInput.InputManager.ButtonDown | src/engine/input.rs:146-148 | delegates `button_down` |
| EngineInput.InputManager.ButtonUp | src/engine/input.rs:150-152 | delegates `button_up` |
| EngineInput.InputManager.ButtonPress | src/engine/input.rs:154-156 | delegates `button_press` |
| EngineInput.InputManager.ButtonRelease | src/engine/input.rs:158-160 | delegates `button_release` |
| Resources.OnceTable.constructor | bronze/src/resources.rs:106-116 | every variant gets an empty cell, so the table covers the whole key type |
| Resources.OnceTable.Get | bronze/src/resources.rs:128-133 | returns the loader's value for the id; an empty cell is filled by one loader call, a filled one is returned without a call, and no other cell changes |
| Resources.ResourcePool.constructor | bronze/src/resources.rs:97-126 | three tables with an empty cell for every image, audio and font id, and the three loaders kept |
| Resources.ResourcePool.GetImage | bronze/src/resources.rs:128-133 | the image cell of the id is filled at most once, by `load_image(id)`, and returned |
| Resources.ResourcePool.GetAudio | bronze/src/resources.rs:135-140 | the same once-per-id rule for audio |
| Resources.ResourcePool.GetFont | bronze/src/resources.rs:142-147 | the same once-per-id rule for fonts |
| Resources.LoaderRunsOncePerId | bronze/src/resources.rs:128-133 | two gets of one image give the same asset with one loader call, and the other kinds are untouched |
| Scene.Trace.constructor | bronze/src/scene.rs:34-36 | a fresh observer of the callbacks has recorded nothing |
| Scene.Body.constructor | bronze/src/scene.rs:9-12 | an entity with the shape its `bbox()` returns |
| Scene.Body.Hook | bronze/src/scene.rs:14-31 | a lifecycle hook is recorded for this entity |
| Scene.Body.OnCollision | bronze/src/scene.rs:34-36 | `on_collision(other)` reads the other entity's current shape and may change its own |
| Scene.Shapes | bronze/src/scene.rs:133 | the `bbox()` of every entity, element by element |
| Scene.SwapRemove | bronze/src/scene.rs:75 | `swap_remove(k)`: one element fewer, the last fills index k, all other positions keep their element, and the multiset loses exactly `s[k]` |
| Scene.Position | bronze/src/scene.rs:71-74 | the first index holding that exact object, or None iff the object is absent |
| Scene.SwapRemoveKeepsDistinct | bronze/src/scene.rs:70-84 | removal keeps the elements distinct and removes exactly the chosen object |
| Scene.HooksVisitEachOnce | bronze/src/scene.rs:86-124 | a traversal records one hook per entity, in index order |
| Scene.HooksConcat | bronze/src/scene.rs:86-94 | visiting two vectors one after the other is visiting their concatenation |
| Scene.RowExact | bronze/src/scene.rs:132-136 | one inner loop collects exactly the later entities that meet entity i, in order |
| Scene.RowsExact | bronze/src/scene.rs:131-137 | the first m outer iterations collect exactly the meeting pairs i < j with i < m, sorted |
| Scene.CrossRowExact | bronze/src/scene.rs:141-145 | one inner loop collects exactly the static entities that meet dynamic i, in order |
| Scene.CrossRowsExact | bronze/src/scene.rs:140-146 | the first m outer iterations collect exactly the meeting (dynamic, static) pairs with dynamic < m, sorted |
| Scene.DynamicPairsExact | bronze/src/scene.rs:130-138 | the dynamic pairs are exactly the i < j whose boxes meet, in lexicographic order, and there are none with fewer than two entities |
| Scene.DynamicStaticPairsExact | bronze/src/scene.rs:140-146 | the cross pairs are exactly the meeting (dynamic i, static j), dynamic-major |
| Scene.PairEventsExact | bronze/src/scene.rs:148-165 | each pair fires `a.on_collision(b)` then `b.on_collision(a)`, once each, in list order |
| Scene.RowsInRange | bronze/src/scene.rs:130-138 | every dynamic pair indexes the dynamic vector |
| Scene.CrossRowsInRange | bronze/src/scene.rs:140-146 | every cross pair indexes both vectors |
| Scene.NoStaticStaticPairs | bronze/src/scene.rs:126-166 | static entities are never paired with each other: with no dynamic entity nothing fires |
| Scene.OneDynamicOneStatic | bronze/src/scene.rs:140-165 | one dynamic entity over one static one fires the dynamic's callback and then the static's |
| Scene.BallMeetsWall | bronze/src/scene.rs:140-165 | a circle overlapping a wall rectangle is paired with it and both callbacks fire |
| Scene.Scene.constructor | bronze/src/scene.rs:52-58 | both vectors empty |
| Scene.Scene.AddStatic | bronze/src/scene.rs:60-63 | the entity is appended to the static vector and the dynamic vector is unchanged |
| Scene.Scene.AddDynamic | bronze/src/scene.rs:65-68 | the entity is appended to the dynamic vector and the static vector is unchanged |
| Scene.Scene.RemoveStatic | bronze/src/scene.rs:70-76 | None and no change when that object is absent; otherwise it is returned and `swap_remove`d from its position |
| Scene.Scene.RemoveDynamic | bronze/src/scene.rs:78-84 | the same for the dynamic vector; the static vector is unchanged |
| Scene.Scene.Visit | bronze/src/scene.rs:86-124 | every static entity in index order, then every dynamic one, each once |
| Scene.Scene.Input | bronze/src/scene.rs:86-94 | `input` visits statics then dynamics, each once |
| Scene.Scene.PreUpdate | bronze/src/scene.rs:96-104 | `pre_update` visits statics then dynamics, each once |
| Scene.Scene.Update | bronze/src/scene.rs:106-114 | `update` visits statics then dynamics, each once, with the frame time |
| Scene.Scene.PostUpdate | bronze/src/scene.rs:116-124 | `post_update` visits statics then dynamics, each once |
| Scene.Scene.Draw | bronze/src/scene.rs:168-176 | `draw` visits statics then dynamics, each once |
| Scene.Scene.Collisions | bronze/src/scene.rs:126-166 | the callbacks fired are exactly those of the pairs computed from the boxes on entry, dynamic pairs first, so a callback that moves an entity cannot change which pairs fire |
| Scene.Scene.FindDynamicPairs | bronze/src/scene.rs:130-138 | the nested loops build exactly the dynamic pair list |
| Scene.Scene.FindDynamicStaticPairs | bronze/src/scene.rs:140-146 | the nested loops build exactly the cross pair list |
| Scene.FirePair | bronze/src/scene.rs:149-164 | the second callback of a pair sees the shape the first callback gave its receiver, because callbacks get live references |
| Scene.FireAll | bronze/src/scene.rs:148-165 | firing a pair list records exactly its pair events |
| Scene.ForEach | bronze/src/scene.rs:87-89 | one loop over a vector records one hook per entity, in order |
| Scene.DynamicPairsSeparate | bronze/src/scene.rs:149-153 | `split_at_mut` is sound: the two entities of a dynamic pair are different objects |
| Scene.CrossPairsSeparate | bronze/src/scene.rs:160-161 | the two entities of a cross pair are different objects |
| LevelFiles.LineLength | examples/pacman/src/game.rs:108-110 | the length of the first line: no '\n' before it, a '\n' right after it |
| LevelFiles.KeepIsFilter | examples/pacman/src/game.rs:110 | comment and empty lines are dropped, every other line is kept, in order |
| LevelFiles.WordLength | examples/pacman/src/game.rs:112 | the leading non-whitespace run ends at whitespace or at the end |
| LevelFiles.Tokens | examples/pacman/src/game.rs:112 | `split_whitespace` yields non-empty tokens without whitespace |
| LevelFiles.TokensOfWord | examples/pacman/src/game.rs:112 | a word followed by a space is the first token |
| LevelFiles.CharToBool | examples/pacman/src/game.rs:98-104 | 'T'/'t' give true, 'F'/'f' give false, every other character gives None |
| LevelFiles.ParseFlagExact | examples/pacman/src/game.rs:114 | a flag token is exactly one of "T", "t", "F", "f" |
| LevelFiles.ParseU32 | examples/pacman/src/game.rs:119 | a parsed `u32` is below 2^32 and its token starts with a digit or '+' |
| LevelFiles.ParsePivotLine | examples/pacman/src/game.rs:111-122 | a parsed pivot has u32 coordinates |
| LevelFiles.ParsePivotFields | examples/pacman/src/game.rs:112-121 | the `parts.next()?` chain yields u32 coordinates |
| LevelFiles.PivotFieldsExact | examples/pacman/src/game.rs:112-121 | a pivot line parses iff its first four tokens are single-character flags and the fifth and sixth are u32 numerals, and the record holds those six values |
| LevelFiles.ParsePosition | examples/pacman/src/game.rs:135-139 | a parsed position has u32 coordinates |
| LevelFiles.ParsePositionFields | examples/pacman/src/game.rs:138-139 | two u32 tokens give the pair |
| LevelFiles.ParsePivotLines | examples/pacman/src/game.rs:111-122 | one parse result per kept line, in order |
| LevelFiles.CollectExact | examples/pacman/src/game.rs:123 | `collect` into `Option<Vec>` succeeds iff every element is present, and then keeps all of them in order |
| LevelFiles.ReadPivotsExact | examples/pacman/src/game.rs:106-124 | `read_pivots` succeeds iff every kept line parses, and then returns one record per kept line in file order |
| LevelFiles.ReadPositions | examples/pacman/src/game.rs:126-144 | `read_positions` succeeds iff every kept line starts with two u32 tokens, and then returns one pair per kept line in file order |
| LevelFiles.BlankLineRejected | examples/pacman/src/game.rs:110-114 | a line of only whitespace is neither empty nor a comment, so it is kept; it has no tokens, so both parsers reject it |
| LevelFiles.BlankLineSinksFile | examples/pacman/src/game.rs:128-138 | one kept whitespace-only line makes both readers return None for the whole file |
| LevelFiles.DigitChar | examples/pacman/src/game.rs:119 | the numeral of a digit value reads back as that value |
| LevelFiles.Decimal | examples/pacman/src/game.rs:119 | a decimal numeral is a non-empty run of digits |
| LevelFiles.DecimalValue | examples/pacman/src/game.rs:119 | the value of the decimal numeral of n is n |
| LevelFiles.ParseDecimal | examples/pacman/src/game.rs:119 | `parse::<u32>` of the numeral of a 32-bit value gives the value back |
| LevelFiles.LinesOfUnlines | examples/pacman/src/game.rs:108 | `lines()` of lines written one per '\n' gives them back |
| LevelFiles.LineLengthOfPlain | examples/pacman/src/game.rs:108 | a line without '\n' ends at the following terminator |
| LevelFiles.FormatPositions | examples/pacman/src/game.rs:126-144 | one position line per pair, in order |
| LevelFiles.FormatPivots | examples/pacman/src/game.rs:106-124 | one pivot line per record, in order |
| LevelFiles.TokensOfSpaced | examples/pacman/src/game.rs:112 | words joined by single spaces split back into those words |
| LevelFiles.SpacedIsPlain | examples/pacman/src/game.rs:108 | a line of words joined by spaces has no '\n' and does not end in '\r' |
| LevelFiles.FormattedLine | examples/pacman/src/game.rs:110-112 | such a line is kept by the filter and tokenises to its words |
| LevelFiles.DecimalIsWord | examples/pacman/src/game.rs:110-112 | a numeral is a non-empty token that does not start a comment |
| LevelFiles.PositionLineRoundTrip | examples/pacman/src/game.rs:135-141 | parsing a written position line gives the pair back |
| LevelFiles.PivotLineRoundTrip | examples/pacman/src/game.rs:112-121 | parsing a written pivot line gives the record back |
| LevelFiles.PivotWordsAreWords | examples/pacman/src/game.rs:112-121 | a written pivot record is six proper tokens |
| LevelFiles.PivotFieldsOfWords | examples/pacman/src/game.rs:112-121 | tokens that start with a record's six words parse to that record |
| LevelFiles.TokensOfSpacedThen | examples/pacman/src/game.rs:112 | word tokens written before more text come first among the line's tokens |
| LevelFiles.SpacedCons | examples/pacman/src/game.rs:112 | a spaced line is its first word, a space and the rest |
| LevelFiles.WordsTail | examples/pacman/src/game.rs:112 | a list of proper tokens stays so without its head |
| LevelFiles.PivotLineIgnoresTail | examples/pacman/src/game.rs:112-121 | tokens after the sixth are ignored |
| LevelFiles.PositionLineIgnoresTail | examples/pacman/src/game.rs:137-139 | tokens after the second are ignored |
| LevelFiles.PositionsRoundTrip | examples/pacman/src/game.rs:126-144 | a written positions file keeps every line and parses back to the same positions |
| LevelFiles.PivotsRoundTrip | examples/pacman/src/game.rs:106-124 | a written pivots file parses back to the same records |
| LevelFiles.Lines | examples/pacman/src/game.rs:108 | no contract of its own: `str::lines`; `LevelFiles.LineLength` and `LevelFiles.LinesOfUnlines` state its meaning |
| LevelFiles.Keep | examples/pacman/src/game.rs:110 | no contract of its own: the comment-and-empty filter; `LevelFiles.KeepIsFilter` states its meaning |
| LevelFiles.KeptLines | examples/pacman/src/game.rs:108-110 | no contract of its own: the filtered lines both readers parse |
| LevelFiles.WordLengthOfWord | examples/pacman/src/game.rs:112 | a word followed by whitespace or the end is exactly the leading run `split_whitespace` cuts |
| LevelFiles.ParseFlag | examples/pacman/src/game.rs:114 | no contract of its own: `parse::<char>` then `char_to_bool`; `LevelFiles.ParseFlagExact` states its meaning |
| LevelFiles.ReadPivots | examples/pacman/src/game.rs:106-124 | no contract of its own: `LevelFiles.ReadPivotsExact` and `LevelFiles.PivotsRoundTrip` state its meaning |
| PacmanGame.Dir.Opposite | examples/pacman/src/game.rs:24-31 | the opposite direction is never the same one and lies on the same axis |
| PacmanGame.OppositeIsInvolution | examples/pacman/src/game.rs:24-31 | the opposite of the opposite is the direction itself |
| PacmanGame.ShuffleHasEveryDir | examples/pacman/src/game.rs:33-37 | any shuffle of the four directions contains every direction |
| PacmanGame.GameCtx.constructor | examples/pacman/src/game.rs:51-60 | score 0, Pacman alive, food count 0 |
| PacmanGame.Successor | examples/pacman/src/game.rs:189-191 | each level's `next_level` names a different level |
| PacmanGame.LevelsCycle | examples/pacman/src/game.rs:287-289 | TitleScreen, Level1 and Level2 follow each other in a cycle of three |
| PacmanGame.Level.constructor | examples/pacman/src/game.rs:158-167 | a new level is running and has not asked to be left |
| PacmanGame.Level.Input | examples/pacman/src/game.rs:174-181 | Escape held clears `running`; Enter pressed on the title screen sets `next`; nothing else changes them |
| PacmanGame.Level.PostUpdate | examples/pacman/src/game.rs:275-280 | a playing level sets `next` exactly when the food count is 0; the title screen's hook changes nothing |
| PacmanGame.Level.NextLevel | examples/pacman/src/game.rs:287-289 | the successor level iff `next` is set, else None |
| PacmanGame.ParsedCount | examples/pacman/src/game.rs:126-144 | the number of positions a readable, parsable file yields |
| PacmanGame.FoodCount | examples/pacman/src/game.rs:227-240 | all four cases, each count truncated by `as u32`: both files parse gives (#foods mod 2^32) + (#specials mod 2^32); only foods gives #foods mod 2^32; only specials gives the previous count + (#specials mod 2^32); neither keeps the previous count |
| PacmanGame.LoadFoodCount | examples/pacman/src/game.rs:227-240 | loading a level sets the food count from its two files, both counts truncated by `as u32`, and changes nothing else in the context |
| PacmanGame.FoodCountOfWrittenLevel | examples/pacman/src/game.rs:227-240 | a level whose files were written from two position lists counts every food and special |
| PacmanGame.MissingFoodsKeepsOldCount | examples/pacman/src/game.rs:227-232 | with neither file readable the previous count stays |
| PacmanGame.Game.constructor | examples/pacman/src/game.rs:393-402 | the game starts on a running title screen with a fresh context |
| PacmanGame.Game.Input | examples/pacman/src/game.rs:410-412 | forwards to the current level |
| PacmanGame.Game.PostUpdate | examples/pacman/src/game.rs:422-433 | after the level's hook, a level asking to be left is replaced by a fresh successor, and a playing successor reloads the food count; a level that stays keeps its running flag; score, `pacman_alive` and Pacman's published centre are always kept; the no-overflow requirement applies only on a frame that switches level |
| PacmanGame.Level.IsRunning | examples/pacman/src/game.rs:170-172 | no contract of its own: the `running` flag that `PacmanGame.Level.Input` clears on Escape |
| PacmanGame.Game.IsRunning | examples/pacman/src/game.rs:406-408 | no contract of its own: the current level's `running` flag |
| PacmanEntities.Recenter | bronze/src/shape.rs:65-68 | `set_center` on a rectangle: the given centre, the same size |
| PacmanEntities.CenteredSquare | examples/pacman/src/entities.rs:251-260 | a size×size box centred on (x, y) |
| PacmanEntities.Advance | examples/pacman/src/entities.rs:299-305 | one frame's `move_by` shifts the centre by delta in the direction and keeps the size |
| PacmanEntities.AdvanceThenBack | examples/pacman/src/entities.rs:299-305 | moving one way then back returns to the start; a move keeps the other axis |
| PacmanEntities.WrapX | examples/pacman/src/entities.rs:307-312 | leaving on one side re-enters on the other edge at the same height; inside, nothing changes |
| PacmanEntities.WrapY | examples/pacman/src/entities.rs:314-319 | the same on the vertical axis |
| PacmanEntities.Wrap | examples/pacman/src/entities.rs:307-319 | after the wrap the centre lies in [0, 960]×[0, 720], and a centre already inside is left where it is |
| PacmanEntities.WrapIdempotent | examples/pacman/src/entities.rs:307-319 | wrapping twice is wrapping once |
| PacmanEntities.WrapAcrossRightEdge | examples/pacman/src/entities.rs:309-312 | a centre past the right edge reappears on the left edge at the same height |
| PacmanEntities.NewPivot | examples/pacman/src/entities.rs:30-50 | an 8×8 box centred on (x, y); `allows(d)` returns exactly the flag stored for d; never removed |
| PacmanEntities.HoldsIsContainment | examples/pacman/src/entities.rs:352-354 | a pivot holds a box iff the box's centre lies in the pivot's box, edges included |
| PacmanEntities.PivotHoldsCenteredBox | examples/pacman/src/entities.rs:352-354 | a pivot holds every box centred on it |
| PacmanEntities.FirstAllowed | examples/pacman/src/entities.rs:510-514 | `find` returns the first direction of the order the pivot allows, or None iff it allows none of them |
| PacmanEntities.FirstAllowedOnShuffle | examples/pacman/src/entities.rs:510-514 | over a shuffle of all four directions `find` fails only at a pivot allowing nothing |
| PacmanEntities.Pellet.constructor | examples/pacman/src/entities.rs:81-91 | an uneaten pellet centred on (x, y) |
| PacmanEntities.Pellet.OnPacman | examples/pacman/src/entities.rs:107-112 | eaten by Pacman: marked eaten and thus removable, and the food count drops by one |
| PacmanEntities.RequestedDir | examples/pacman/src/entities.rs:272-294 | for each direction, iff: Up when Up is pressed; Down when Down is and Up is not; Left when Left is and neither Up nor Down is; Right when only Right of the four is; None when none is pressed |
| PacmanEntities.PacmanAtPivot | examples/pacman/src/entities.rs:351-373 | off the pivot nothing changes; on it the state is Idle or a direction the pivot allows, and becomes the remembered one when that is allowed; a changed state snaps the box onto the pivot's centre |
| PacmanEntities.Pacman.constructor | examples/pacman/src/entities.rs:251-260 | a 40×40 box centred on (x, y), idle, with nothing remembered |
| PacmanEntities.Pacman.Input | examples/pacman/src/entities.rs:272-294 | one key at most, by priority: the remembered state becomes that direction, and the current state changes only from the opposite direction; with no key nothing changes |
| PacmanEntities.Pacman.Update | examples/pacman/src/entities.rs:296-322 | moves 200·t in the current direction, wraps, publishes the centre, and the centre ends inside the window |
| PacmanEntities.Pacman.OnPivot | examples/pacman/src/entities.rs:351-373 | the box and state become what `PacmanAtPivot` gives, and the remembered state is kept |
| PacmanEntities.Pacman.OnFood | examples/pacman/src/entities.rs:375-379 | the score rises by 1 and nothing else changes |
| PacmanEntities.Pacman.OnSpecial | examples/pacman/src/entities.rs:381-385 | the score rises by 10 and nothing else changes |
| PacmanEntities.Pacman.OnGhost | examples/pacman/src/entities.rs:387-391 | `pacman_alive` is cleared and nothing else changes |
| PacmanEntities.GhostAtPivot | examples/pacman/src/entities.rs:484-519 | off the pivot or with an allowed direction nothing changes; otherwise the ghost snaps onto the pivot and takes the first allowed direction of the shuffle, or turns back when none is allowed |
| PacmanEntities.GhostLeavesByAllowedDir | examples/pacman/src/entities.rs:484-519 | at a pivot allowing some direction, a ghost always leaves by an allowed one |
| PacmanEntities.Ghost.constructor | examples/pacman/src/entities.rs:417-428 | a live 40×40 ghost centred on (x, y), heading up |
| PacmanEntities.Ghost.Update | examples/pacman/src/entities.rs:440-471 | moves 180·t in its direction and wraps, so its centre ends inside the window |
| PacmanEntities.Ghost.OnPivot | examples/pacman/src/entities.rs:484-519 | the box and direction become what `GhostAtPivot` gives |
| PacmanEntities.Ghost.OnPacman | examples/pacman/src/entities.rs:522-526 | `alive` is cleared, which makes the ghost removable |
| PacmanEntities.RemovalRules | examples/pacman/src/entities.rs:191-197 | pivots and Pacman are never removed; pellets are removed iff eaten and ghosts iff dead |
| PacmanEntities.DynamicInput | examples/pacman/src/entities.rs:559-564 | only Pacman reacts to input: its box is kept, the remembered state becomes the requested direction, and the current state changes only from the opposite direction; a ghost is unchanged |
| PacmanEntities.DynamicUpdate | examples/pacman/src/entities.rs:573-578 | Pacman moves 200·t in its current direction, wraps and publishes its centre; a ghost moves 180·t in its direction, wraps and leaves the context alone; either actor's centre ends inside the window |
| PacmanEntities.StaticOnDynamic | examples/pacman/src/entities.rs:216-229 | only a food or special touched by Pacman reacts, by being eaten and lowering the food count by one; everything else changes nothing; score, `pacman_alive` and Pacman's published centre are always kept |
| PacmanEntities.DynamicOnStatic | examples/pacman/src/entities.rs:595-607 | Pacman scores 1 or 10 on a pellet; at a pivot Pacman's box and state become `PacmanAtPivot`'s result and a ghost's box and direction become `GhostAtPivot`'s; a ghost ignores pellets; the food count, `pacman_alive` and the published centre are kept |
| PacmanEntities.DynamicOnDynamic | examples/pacman/src/entities.rs:609-618 | only Pacman and a ghost react: Pacman dies with its box and states kept, and the ghost becomes removable with its box and direction kept; two ghosts change nothing; score, food count and the published centre are always kept |
| PacmanEntities.RowPivotHolds | examples/pacman/src/entities.rs:30-41 | a pivot built from a row holds every box centred within half its size of (x, y) |
| PacmanEntities.TurnAtJunction | examples/pacman/src/entities.rs:351-373 | Pacman heading right with Up remembered turns up at a pivot open upwards and lands on its centre |
| PacmanEntities.StopAtWall | examples/pacman/src/entities.rs:351-373 | Pacman heading right into a pivot closed on the right, with nothing remembered, stops on its centre |
| PacmanEntities.GhostAtDeadEnd | examples/pacman/src/entities.rs:484-519 | a ghost heading up into a dead end open only downwards turns around whatever the shuffle |
| PacmanEntities.Pivot.Allows | examples/pacman/src/entities.rs:43-50 | no contract of its own: the stored flag of the direction; `PacmanEntities.NewPivot` states it |
| PacmanEntities.Pivot.ShouldBeRemoved | examples/pacman/src/entities.rs:58-60 | no contract of its own: always false; `PacmanEntities.RemovalRules` states it |
| PacmanEntities.Pivot.Holds | examples/pacman/src/entities.rs:352-354 | no contract of its own: the box centre meets the pivot box; `PacmanEntities.HoldsIsContainment` states its meaning |
| PacmanEntities.Pellet.ShouldBeRemoved | examples/pacman/src/entities.rs:98-100 | no contract of its own: eaten; `PacmanEntities.RemovalRules` states it for food and specials |
| PacmanEntities.Pacman.ShouldBeRemoved | examples/pacman/src/entities.rs:268-270 | no contract of its own: always false; `PacmanEntities.RemovalRules` states it |
| PacmanEntities.Ghost.ShouldBeRemoved | examples/pacman/src/entities.rs:432-434 | no contract of its own: not alive; `PacmanEntities.RemovalRules` states it |
| PacmanEntities.StaticEntity.BBox | examples/pacman/src/entities.rs:183-189 | no contract of its own: the box of the wrapped entity |
| PacmanEntities.StaticEntity.ShouldBeRemoved | examples/pacman/src/entities.rs:191-197 | no contract of its own: forwards to the wrapped entity; `PacmanEntities.RemovalRules` states it |
| PacmanEntities.DynamicEntity.BBox | examples/pacman/src/entities.rs:545-550 | no contract of its own: the box of the wrapped entity |
| PacmanEntities.DynamicEntity.ShouldBeRemoved | examples/pacman/src/entities.rs:552-557 | no contract of its own: forwards to the wrapped entity; `PacmanEntities.RemovalRules` states it |

## Left out

- Floating point: coordinates are `real`. f32 rounding and NaN are not modelled. NaN would make `partial_cmp().unwrap()` in `Mixed`'s bounds panic.
- `as i32` saturation of out-of-range values is not modelled.
- Square roots: the circle tests compare squared distances, which agrees with the `sqrt` comparison for radii >= 0 (`Geometry.SqrtFreeComparison`).
- Geometry.Shape.SetPosition: the `Movable` setters return the moved shape instead of updating it in place. Shapes are plain values, and Rust's borrows rule out an alias that could observe the change.
- Rendering and drawing: the windows, sprites, canvas, cursor and icon, and every `draw` body. Only `Scene::draw`'s traversal order is kept.
- Timing and the frame loop: the timers, `Engine`, and the 1/30 s frame-time clamp. The frame time is a parameter of `update`.
- Scene.Body: the engine's entities are caller-defined. They are modelled as objects with a shape and one fixed reaction shape, and their hooks appear only as trace events.
- Scene.Scene.AddStatic: the requirement that the entity is not already in the scene stands for Rust's ownership. An entity is moved into the scene, so it cannot already be there.
- Scene.Scene.Collisions: the `ctx` argument the callbacks share is not modelled. The pacman example's own callbacks and their effect on the context are modelled in `PacmanEntities`.
- The `Entity` trait's default `input`/`pre_update`/`post_update` bodies do nothing and are not separate members.
- The pacman example's own scene API: `Entity<GameCtx>`, `Collision<T, Ctx>` and `try_clear` are not part of this model. Neither is the code that populates each level's scene from its files.
- The sweep that removes entities whose `should_be_removed` holds is not part of this model. `should_be_removed` is modelled only as a predicate of each entity.
- File reading: `read_to_string` is replaced by the file's contents. `None` stands for a file that cannot be read.
- The resource loaders (`Image::new` and the others) are functions passed to the pool, and assets are opaque handles. `Audio::new` is unimplemented in the source.
- Randomness: `Dir::random_dirs` becomes a parameter `order`, constrained to be some shuffle of the four directions (`PacmanGame.IsShuffle`).
- Ghost colours only choose a sprite, and the commented-out `next_dir` logic is not code. Neither is modelled.
- Food and Special differ only in size and sprite, so both are `PacmanEntities.Pellet`.
- PacmanEntities.Pellet.OnPacman: requires food count >= 1, because the u32 subtraction would panic in a debug build.
- PacmanEntities.Pacman.OnFood: requires the new score to fit in a u32, because a debug build panics on overflow. PacmanEntities.Pacman.OnSpecial likewise, and PacmanEntities.DynamicOnStatic for its food and special pairs only.
- PacmanGame.LoadFoodCount: requires the `+=` on the food count not to overflow (`PacmanGame.CountFits`). The `as u32` truncation of both counts is modelled.
- Input.Mouse.Position: the `x()`, `y()` and `position()` getters are one function without a contract of its own. EngineInput.Mouse.Position likewise.
- The `Key` and `Button` enums of SFML are modelled by their numeric codes and table sizes only: keys 0 to 100 plus Unknown = −1, and buttons 0 to 4.
