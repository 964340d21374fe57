/**
 * The geometry layer of the engine: points, axis-aligned rectangles, circles,
 * the `Shape` enum a composite is built from, the `Mixed` composite and the
 * type-erased `ShapeRef` handle. Every shape exposes a bounding box, and
 * intersection is double-dispatched: each `Intersects` hands itself to the
 * other side's `Intersects<Kind>`, and every ordered pair of kinds ends in one
 * canonical test.
 *
 * Coordinates are `real`; the engine uses f32 (rounding, NaN and the
 * saturation of `as i32` are not modelled).
 */
module Geometry {

  /** The four canonical numbers every shape exposes, with the derived accessors. */
  datatype BBox = BBox(left: real, top: real, width: real, height: real) {
    function Right(): real { left + width }
    function Bottom(): real { top + height }
    function CenterX(): real { (left + Right()) / 2.0 }
    function CenterY(): real { (top + Bottom()) / 2.0 }
    function Position(): Point { Point(left, top) }
    function Center(): Point { Point(CenterX(), CenterY()) }
  }

  /** `v as i32` for in-range values: truncation toward zero. */
  function AsI32(v: real): int {
    if v >= 0.0 then v.Floor else -((-v).Floor)
  }

  function SquaredDistance(p: Point, q: Point): real {
    (p.x - q.x) * (p.x - q.x) + (p.y - q.y) * (p.y - q.y)
  }

  /**
   * `sqrt(d2) <= r`, written without the square root; SqrtFreeComparison
   * shows the two agree for every non-negative square root of d2.
   */
  predicate WithinRadius(d2: real, r: real) {
    0.0 <= r && d2 <= r * r
  }

  function Clamp(v: real, lo: real, hi: real): real {
    if v < lo then lo else if v > hi then hi else v
  }

  /** Rust's `Iterator::any` over a sequence: short-circuiting disjunction. */
  function Any<T>(s: seq<T>, f: T -> bool): bool
    decreases |s|
  {
    if |s| == 0 then false else f(s[0]) || Any(s[1..], f)
  }

  function MinOf(xs: seq<real>): (m: real)
    requires |xs| > 0
    ensures m in xs
    ensures forall i :: 0 <= i < |xs| ==> m <= xs[i]
    decreases |xs|
  {
    if |xs| == 1 then xs[0]
    else
      var rest := MinOf(xs[1..]);
      assert forall i :: 1 <= i < |xs| ==> xs[i] == xs[1..][i - 1];
      if xs[0] <= rest then xs[0] else rest
  }

  function MaxOf(xs: seq<real>): (m: real)
    requires |xs| > 0
    ensures m in xs
    ensures forall i :: 0 <= i < |xs| ==> xs[i] <= m
    decreases |xs|
  {
    if |xs| == 1 then xs[0]
    else
      var rest := MaxOf(xs[1..]);
      assert forall i :: 1 <= i < |xs| ==> xs[i] == xs[1..][i - 1];
      if rest <= xs[0] then xs[0] else rest
  }

  datatype Point = Point(x: real, y: real) {
    function Bounds(): BBox { BBox(x, y, 0.0, 0.0) }

    /** Pixel-grid equality: both coordinates agree after `as i32`. */
    predicate IntersectsPoint(other: Point) {
      AsI32(x) == AsI32(other.x) && AsI32(y) == AsI32(other.y)
    }

    /** Inclusive on all four edges. */
    predicate IntersectsRect(other: Rect) {
      var b := other.Bounds();
      x >= b.left && x <= b.Right() && y >= b.top && y <= b.Bottom()
    }

    /** Distance to the circle's centre is at most its radius. */
    predicate IntersectsCircle(other: Circle) {
      WithinRadius(SquaredDistance(this, other.Bounds().Center()), other.radius)
    }

    predicate Intersects(other: ShapeRef) {
      other.IntersectsPoint(this)
    }
  }

  /** Axis-aligned; (x, y) is the top-left corner. */
  datatype Rect = Rect(x: real, y: real, width: real, height: real) {
    function Bounds(): BBox { BBox(x, y, width, height) }

    predicate IntersectsPoint(other: Point) {
      other.IntersectsRect(this)
    }

    /** Overlap unless separated on one axis; shared edges count. */
    predicate IntersectsRect(other: Rect) {
      var a, b := Bounds(), other.Bounds();
      a.left <= b.Right() && a.Right() >= b.left && a.top <= b.Bottom() && a.Bottom() >= b.top
    }

    /** The circle's centre clamped into this rectangle. */
    function ClosestPoint(other: Circle): (p: Point)
      ensures 0.0 <= width && 0.0 <= height ==> p.IntersectsRect(this)
      ensures other.Bounds().Center().IntersectsRect(this) ==> p == other.Bounds().Center()
    {
      var b, c := Bounds(), other.Bounds();
      Point(Clamp(c.CenterX(), b.left, b.Right()), Clamp(c.CenterY(), b.top, b.Bottom()))
    }

    predicate IntersectsCircle(other: Circle) {
      ClosestPoint(other).IntersectsCircle(other)
    }

    predicate Intersects(other: ShapeRef) {
      other.IntersectsRect(this)
    }
  }

  /** (x, y) is the top-left corner of the bounding box, not the centre. */
  datatype Circle = Circle(x: real, y: real, radius: real) {
    function Bounds(): BBox { BBox(x, y, radius * 2.0, radius * 2.0) }

    predicate IntersectsPoint(other: Point) {
      other.IntersectsCircle(this)
    }

    predicate IntersectsRect(other: Rect) {
      other.IntersectsCircle(this)
    }

    /** The distance between the centres is at most the sum of the radii. */
    predicate IntersectsCircle(other: Circle) {
      WithinRadius(SquaredDistance(Bounds().Center(), other.Bounds().Center()), radius + other.radius)
    }

    predicate Intersects(other: ShapeRef) {
      other.IntersectsCircle(this)
    }
  }

  /** The movable shapes; the members of a `Mixed`. */
  datatype Shape = PointShape(point: Point) | RectShape(rect: Rect) | CircleShape(circle: Circle) {
    function AsRef(): ShapeRef {
      match this
      case PointShape(p) => PointRef(p)
      case RectShape(r) => RectRef(r)
      case CircleShape(c) => CircleRef(c)
    }

    function Bounds(): BBox {
      match this
      case PointShape(p) => p.Bounds()
      case RectShape(r) => r.Bounds()
      case CircleShape(c) => c.Bounds()
    }

    predicate IntersectsPoint(other: Point) {
      match this
      case PointShape(p) => p.IntersectsPoint(other)
      case RectShape(r) => r.IntersectsPoint(other)
      case CircleShape(c) => c.IntersectsPoint(other)
    }

    predicate IntersectsRect(other: Rect) {
      match this
      case PointShape(p) => p.IntersectsRect(other)
      case RectShape(r) => r.IntersectsRect(other)
      case CircleShape(c) => c.IntersectsRect(other)
    }

    predicate IntersectsCircle(other: Circle) {
      match this
      case PointShape(p) => p.IntersectsCircle(other)
      case RectShape(r) => r.IntersectsCircle(other)
      case CircleShape(c) => c.IntersectsCircle(other)
    }

    predicate Intersects(other: ShapeRef) {
      match this
      case PointShape(p) => p.Intersects(other)
      case RectShape(r) => r.Intersects(other)
      case CircleShape(c) => c.Intersects(other)
    }

    /** Movable::set_position: the top-left corner moves to (nx, ny). */
    function SetPosition(nx: real, ny: real): (s: Shape)
      ensures s.Bounds() == BBox(nx, ny, Bounds().width, Bounds().height)
      ensures SameKind(s)
    {
      match this
      case PointShape(p) => PointShape(Point(nx, ny))
      case RectShape(r) => RectShape(r.(x := nx, y := ny))
      case CircleShape(c) => CircleShape(c.(x := nx, y := ny))
    }

    /** Movable::move_by: a relative move. */
    function MoveBy(dx: real, dy: real): (s: Shape)
      ensures s.Bounds() == BBox(Bounds().left + dx, Bounds().top + dy, Bounds().width, Bounds().height)
      ensures SameKind(s)
    {
      match this
      case PointShape(p) => PointShape(Point(p.x + dx, p.y + dy))
      case RectShape(r) => RectShape(r.(x := r.x + dx, y := r.y + dy))
      case CircleShape(c) => CircleShape(c.(x := c.x + dx, y := c.y + dy))
    }

    function SetCenter(cx: real, cy: real): (s: Shape)
      ensures s.Bounds().Center() == Point(cx, cy)
      ensures s.Bounds().width == Bounds().width && s.Bounds().height == Bounds().height
      ensures SameKind(s)
    {
      SetPosition(cx - Bounds().width / 2.0, cy - Bounds().height / 2.0)
    }

    function SetLeft(nx: real): (s: Shape)
      ensures s.Bounds() == Bounds().(left := nx)
      ensures SameKind(s)
    {
      SetPosition(nx, Bounds().top)
    }

    function SetTop(ny: real): (s: Shape)
      ensures s.Bounds() == Bounds().(top := ny)
      ensures SameKind(s)
    {
      SetPosition(Bounds().left, ny)
    }

    function SetRight(nx: real): (s: Shape)
      ensures s.Bounds().Right() == nx
      ensures s.Bounds().top == Bounds().top
      ensures s.Bounds().width == Bounds().width && s.Bounds().height == Bounds().height
      ensures SameKind(s)
    {
      SetPosition(nx - Bounds().width, Bounds().top)
    }

    function SetBottom(ny: real): (s: Shape)
      ensures s.Bounds().Bottom() == ny
      ensures s.Bounds().left == Bounds().left
      ensures s.Bounds().width == Bounds().width && s.Bounds().height == Bounds().height
      ensures SameKind(s)
    {
      SetPosition(Bounds().left, ny - Bounds().height)
    }

    predicate SameKind(other: Shape) {
      (PointShape? <==> other.PointShape?) && (RectShape? <==> other.RectShape?)
      && (other.RectShape? ==> other.rect.width == rect.width && other.rect.height == rect.height)
      && (other.CircleShape? ==> other.circle.radius == circle.radius)
    }
  }

  /** A composite that refers to shapes owned elsewhere. */
  datatype Mixed = Mixed(geometries: seq<Shape>) {
    /** One side of every member's bounding box, in member order. */
    function Project(side: BBox -> real): (xs: seq<real>)
      ensures |xs| == |geometries|
      ensures forall i :: 0 <= i < |xs| ==> xs[i] == side(geometries[i].Bounds())
    {
      seq(|geometries|, i requires 0 <= i < |geometries| => side(geometries[i].Bounds()))
    }

    function Left(): real {
      if |geometries| == 0 then 0.0 else MinOf(Project((b: BBox) => b.left))
    }

    function Top(): real {
      if |geometries| == 0 then 0.0 else MinOf(Project((b: BBox) => b.top))
    }

    function Right(): real {
      if |geometries| == 0 then 0.0 else MaxOf(Project((b: BBox) => b.Right()))
    }

    function Bottom(): real {
      if |geometries| == 0 then 0.0 else MaxOf(Project((b: BBox) => b.Bottom()))
    }

    /** Width and height are derived from the overridden right and bottom. */
    function Bounds(): BBox {
      BBox(Left(), Top(), Right() - Left(), Bottom() - Top())
    }

    predicate IntersectsPoint(other: Point) {
      Any(geometries, (s: Shape) => s.IntersectsPoint(other))
    }

    predicate IntersectsRect(other: Rect) {
      Any(geometries, (s: Shape) => s.IntersectsRect(other))
    }

    predicate IntersectsCircle(other: Circle) {
      Any(geometries, (s: Shape) => s.IntersectsCircle(other))
    }

    predicate Intersects(other: ShapeRef) {
      Any(geometries, (s: Shape) => s.Intersects(other))
    }
  }

  /** The type-erased handle the scene works with; `None` has no extent. */
  datatype ShapeRef = None | PointRef(point: Point) | RectRef(rect: Rect) | CircleRef(circle: Circle) | MixedRef(mixed: Mixed) {
    function Bounds(): BBox {
      match this
      case None => BBox(0.0, 0.0, 0.0, 0.0)
      case PointRef(p) => p.Bounds()
      case RectRef(r) => r.Bounds()
      case CircleRef(c) => c.Bounds()
      case MixedRef(m) => m.Bounds()
    }

    predicate IntersectsPoint(other: Point) {
      match this
      case None => false
      case PointRef(p) => p.IntersectsPoint(other)
      case RectRef(r) => r.IntersectsPoint(other)
      case CircleRef(c) => c.IntersectsPoint(other)
      case MixedRef(m) => m.IntersectsPoint(other)
    }

    predicate IntersectsRect(other: Rect) {
      match this
      case None => false
      case PointRef(p) => p.IntersectsRect(other)
      case RectRef(r) => r.IntersectsRect(other)
      case CircleRef(c) => c.IntersectsRect(other)
      case MixedRef(m) => m.IntersectsRect(other)
    }

    predicate IntersectsCircle(other: Circle) {
      match this
      case None => false
      case PointRef(p) => p.IntersectsCircle(other)
      case RectRef(r) => r.IntersectsCircle(other)
      case CircleRef(c) => c.IntersectsCircle(other)
      case MixedRef(m) => m.IntersectsCircle(other)
    }

    /** The trait's default `intersects_mixed`: some member of the composite meets this handle. */
    predicate IntersectsMixed(other: Mixed) {
      Any(other.geometries, (s: Shape) => s.Intersects(this))
    }

    predicate Intersects(other: ShapeRef) {
      match this
      case None => false
      case PointRef(p) => p.Intersects(other)
      case RectRef(r) => r.Intersects(other)
      case CircleRef(c) => c.Intersects(other)
      case MixedRef(m) => m.Intersects(other)
    }

    /** The concrete shapes this handle stands for. */
    function Members(): seq<Shape> {
      match this
      case None => []
      case PointRef(p) => [PointShape(p)]
      case RectRef(r) => [RectShape(r)]
      case CircleRef(c) => [CircleShape(c)]
      case MixedRef(m) => m.geometries
    }
  }

  // ---------------------------------------------------------------------------
  // Properties
  // ---------------------------------------------------------------------------

  lemma {:induction false} AnyIff<T>(s: seq<T>, f: T -> bool)
    ensures Any(s, f) <==> exists i :: 0 <= i < |s| && f(s[i])
    decreases |s|
  {
    if |s| > 0 {
      AnyIff(s[1..], f);
      if !f(s[0]) && exists i :: 0 <= i < |s| && f(s[i]) {
        var i :| 0 <= i < |s| && f(s[i]);
        assert s[1..][i - 1] == s[i];
      }
    }
  }

  lemma PositiveProduct(x: real, y: real)
    requires 0.0 < x && 0.0 < y
    ensures 0.0 < x * y
  {
  }

  /** Squaring is monotone on the non-negative reals. */
  lemma SquareMonotone(a: real, b: real)
    requires 0.0 <= a <= b
    ensures a * a <= b * b
  {
    assert a * a <= a * b;
    assert a * b <= b * b;
  }

  lemma SquareStrict(a: real, b: real)
    requires 0.0 <= a < b
    ensures a * a < b * b
  {
    PositiveProduct(b - a, b + a);
    assert (b - a) * (b + a) == b * b - a * a;
  }

  /**
   * The engine compares `sqrt(d2)` with `r`; for any non-negative `s` whose
   * square is `d2`, that comparison is WithinRadius(d2, r).
   */
  lemma SqrtFreeComparison(d2: real, s: real, r: real)
    requires 0.0 <= s && s * s == d2
    ensures s <= r <==> WithinRadius(d2, r)
  {
    if s <= r {
      SquareMonotone(s, r);
    } else if 0.0 <= r {
      SquareStrict(r, s);
    }
  }

  lemma AsI32IsTruncation(v: real)
    ensures -1.0 < v - AsI32(v) as real < 1.0
    ensures v >= 0.0 ==> 0 <= AsI32(v) && AsI32(v) as real <= v
    ensures v < 0.0 ==> AsI32(v) <= 0 && v <= AsI32(v) as real
    ensures AsI32(-v) == -AsI32(v)
  {
  }

  /** Points meet on the integer pixel grid; truncation sends -0.9 and 0.9 to 0. */
  lemma PointsMeetOnTruncatedGrid()
    ensures Point(1.9, 1.9).IntersectsPoint(Point(1.1, 1.1))
    ensures !Point(1.9, 1.9).IntersectsPoint(Point(2.1, 1.1))
    ensures Point(-0.9, 0.0).IntersectsPoint(Point(0.9, 0.0))
    ensures !Point(-1.0, 0.0).IntersectsPoint(Point(0.0, 0.0))
  {
    assert AsI32(-0.9) == 0;
    assert AsI32(-1.0) == -1;
  }

  lemma PointRectIsInclusive(p: Point, r: Rect)
    ensures p.IntersectsRect(r) <==>
      r.x <= p.x <= r.x + r.width && r.y <= p.y <= r.y + r.height
    ensures Point(r.x, r.y).IntersectsRect(r) <==> 0.0 <= r.width && 0.0 <= r.height
  {
  }

  /** Shared edges count: two rectangles meet unless one axis separates them. */
  lemma RectsMeetUnlessSeparated(a: Rect, b: Rect)
    ensures a.IntersectsRect(b) <==>
      !(a.x + a.width < b.x || b.x + b.width < a.x || a.y + a.height < b.y || b.y + b.height < a.y)
    ensures a.IntersectsRect(b) == b.IntersectsRect(a)
    ensures 0.0 <= a.width && 0.0 <= a.height ==> a.IntersectsRect(a)
    ensures Rect(0.0, 0.0, 10.0, 10.0).IntersectsRect(Rect(10.0, 0.0, 10.0, 10.0))
  {
  }

  lemma CircleGeometry(c: Circle)
    ensures c.Bounds().Center() == Point(c.x + c.radius, c.y + c.radius)
    ensures c.Bounds().width == 2.0 * c.radius && c.Bounds().height == 2.0 * c.radius
  {
  }

  /**
   * Circle-circle with the engine's square root: for d >= 0 the distance of the
   * centres, the circles meet iff d <= r1 + r2.
   */
  lemma CirclesMeetIffCentresClose(a: Circle, b: Circle, d: real)
    requires 0.0 <= d && d * d == SquaredDistance(a.Bounds().Center(), b.Bounds().Center())
    ensures a.IntersectsCircle(b) <==> d <= a.radius + b.radius
  {
    SqrtFreeComparison(d * d, d, a.radius + b.radius);
  }

  /** The inclusive boundary: centres exactly r1 + r2 apart meet, 0.001 further do not. */
  lemma CircleBoundaryExamples()
    ensures Circle(0.0, 0.0, 1.0).IntersectsCircle(Circle(2.0, -1.0, 2.0))
    ensures !Circle(0.0, 0.0, 1.0).IntersectsCircle(Circle(2.001, -1.0, 2.0))
  {
    var a, b, c := Circle(0.0, 0.0, 1.0), Circle(2.0, -1.0, 2.0), Circle(2.001, -1.0, 2.0);
    assert a.Bounds().Center() == Point(1.0, 1.0);
    assert b.Bounds().Center() == Point(4.0, 1.0);
    assert c.Bounds().Center() == Point(4.001, 1.0);
    assert SquaredDistance(Point(1.0, 1.0), Point(4.0, 1.0)) == 9.0;
    assert SquaredDistance(Point(1.0, 1.0), Point(4.001, 1.0)) == 9.006001;
  }

  lemma RectCircleUsesClosestPoint(r: Rect, c: Circle)
    requires 0.0 <= r.width && 0.0 <= r.height && 0.0 <= c.radius
    ensures r.ClosestPoint(c).IntersectsRect(r)
    ensures c.IntersectsRect(r) == r.ClosestPoint(c).IntersectsCircle(c)
    ensures c.Bounds().Center().IntersectsRect(r) ==> c.IntersectsRect(r)
  {
  }

  lemma MixedIntersectsPointIff(m: Mixed, p: Point)
    ensures m.IntersectsPoint(p) <==> exists i :: 0 <= i < |m.geometries| && m.geometries[i].IntersectsPoint(p)
  {
    AnyIff(m.geometries, (s: Shape) => s.IntersectsPoint(p));
  }

  /** A composite meets a handle iff one of its members does. */
  lemma MixedIntersectsIff(m: Mixed, other: ShapeRef)
    ensures m.Intersects(other) <==> exists i :: 0 <= i < |m.geometries| && m.geometries[i].Intersects(other)
  {
    AnyIff(m.geometries, (s: Shape) => s.Intersects(other));
  }

  /** The bounding box of a composite is the union of its members' boxes. */
  lemma MixedBoundsAreUnion(m: Mixed)
    requires |m.geometries| > 0
    ensures forall i :: 0 <= i < |m.geometries| ==>
      m.Left() <= m.geometries[i].Bounds().left && m.Top() <= m.geometries[i].Bounds().top &&
      m.geometries[i].Bounds().Right() <= m.Right() && m.geometries[i].Bounds().Bottom() <= m.Bottom()
    ensures exists i :: 0 <= i < |m.geometries| && m.Left() == m.geometries[i].Bounds().left
    ensures exists i :: 0 <= i < |m.geometries| && m.Right() == m.geometries[i].Bounds().Right()
    ensures exists i :: 0 <= i < |m.geometries| && m.Top() == m.geometries[i].Bounds().top
    ensures exists i :: 0 <= i < |m.geometries| && m.Bottom() == m.geometries[i].Bounds().Bottom()
    ensures m.Bounds().Right() == m.Right() && m.Bounds().Bottom() == m.Bottom()
  {
    var ls := m.Project((b: BBox) => b.left);
    var rs := m.Project((b: BBox) => b.Right());
    assert m.Left() in ls;
    assert m.Right() in rs;
    var ts := m.Project((b: BBox) => b.top);
    var bs := m.Project((b: BBox) => b.Bottom());
    assert m.Top() == MinOf(ts) && m.Bottom() == MaxOf(bs);
    assert m.Top() in ts;
    assert m.Bottom() in bs;
  }

  /** An empty composite is the zero box at the origin and meets nothing, either way round. */
  lemma EmptyMixed(other: ShapeRef)
    ensures Mixed([]).Bounds() == BBox(0.0, 0.0, 0.0, 0.0)
    ensures !MixedRef(Mixed([])).Intersects(other)
    ensures !other.Intersects(MixedRef(Mixed([])))
  {
    IntersectsSymmetric(other, MixedRef(Mixed([])));
  }

  /** `None` has the zero box and meets nothing, in either direction. */
  lemma NoneIsInert(other: ShapeRef)
    ensures None.Bounds() == BBox(0.0, 0.0, 0.0, 0.0)
    ensures !None.Intersects(other)
    ensures !other.Intersects(None)
  {
    IntersectsSymmetric(other, None);
  }

  /** Each canonical test is symmetric, so every pair of concrete shapes is. */
  lemma ShapesMeetSymmetric(s: Shape, t: Shape)
    ensures s.Intersects(t.AsRef()) == t.Intersects(s.AsRef())
  {
  }

  /** A concrete shape meets a handle iff it meets one of the handle's members. */
  lemma {:induction false} ShapeMeetsMembers(s: Shape, other: ShapeRef)
    ensures s.Intersects(other) <==>
      exists j :: 0 <= j < |other.Members()| && s.Intersects(other.Members()[j].AsRef())
  {
    if other.MixedRef? {
      var gs := other.mixed.geometries;
      assert other.Members() == gs;
      match s
      case PointShape(p) =>
        AnyIff(gs, (g: Shape) => g.IntersectsPoint(p));
        assert forall j :: 0 <= j < |gs| ==> s.Intersects(gs[j].AsRef()) == gs[j].IntersectsPoint(p);
      case RectShape(r) =>
        AnyIff(gs, (g: Shape) => g.IntersectsRect(r));
        assert forall j :: 0 <= j < |gs| ==> s.Intersects(gs[j].AsRef()) == gs[j].IntersectsRect(r);
      case CircleShape(c) =>
        AnyIff(gs, (g: Shape) => g.IntersectsCircle(c));
        assert forall j :: 0 <= j < |gs| ==> s.Intersects(gs[j].AsRef()) == gs[j].IntersectsCircle(c);
    } else if !other.None? {
      assert other.Members()[0].AsRef() == other;
    }
  }

  /** Two handles meet iff some member of one meets some member of the other. */
  lemma {:induction false} IntersectsIffMembersMeet(a: ShapeRef, b: ShapeRef)
    ensures a.Intersects(b) <==>
      exists i, j :: 0 <= i < |a.Members()| && 0 <= j < |b.Members()| &&
        a.Members()[i].Intersects(b.Members()[j].AsRef())
  {
    var ms := a.Members();
    forall i | 0 <= i < |ms| {
      ShapeMeetsMembers(ms[i], b);
    }
    if a.MixedRef? {
      MixedIntersectsIff(a.mixed, b);
    } else if !a.None? {
      assert a.Intersects(b) == ms[0].Intersects(b);
    }
  }

  /** Intersection is symmetric for every pair of handles, composites and `None` included. */
  lemma {:induction false} IntersectsSymmetric(a: ShapeRef, b: ShapeRef)
    ensures a.Intersects(b) == b.Intersects(a)
  {
    IntersectsIffMembersMeet(a, b);
    IntersectsIffMembersMeet(b, a);
    forall i, j | 0 <= i < |a.Members()| && 0 <= j < |b.Members()|
      ensures a.Members()[i].Intersects(b.Members()[j].AsRef()) == b.Members()[j].Intersects(a.Members()[i].AsRef())
    {
      ShapesMeetSymmetric(a.Members()[i], b.Members()[j]);
    }
  }

  /** The default `intersects_mixed` agrees with the generic dispatch on a composite. */
  lemma IntersectsMixedAgrees(r: ShapeRef, m: Mixed)
    ensures r.IntersectsMixed(m) == r.Intersects(MixedRef(m))
  {
    IntersectsSymmetric(r, MixedRef(m));
  }

  predicate NonNegativeExtent(s: Shape) {
    match s
    case PointShape(_) => true
    case RectShape(r) => 0.0 <= r.width && 0.0 <= r.height
    case CircleShape(c) => 0.0 <= c.radius
  }

  /** A shape with non-negative extent meets a copy of itself. */
  lemma ShapeMeetsItself(s: Shape)
    requires NonNegativeExtent(s)
    ensures s.Intersects(s.AsRef())
  {
    if s.CircleShape? {
      var c := s.circle;
      assert SquaredDistance(c.Bounds().Center(), c.Bounds().Center()) == 0.0;
      PositiveProduct(1.0, 1.0);
      SquareMonotone(0.0, c.radius + c.radius);
    }
  }

  /** A handle with some member of non-negative extent meets itself. */
  lemma HandleMeetsItself(a: ShapeRef, k: nat)
    requires k < |a.Members()| && NonNegativeExtent(a.Members()[k])
    ensures a.Intersects(a)
  {
    ShapeMeetsItself(a.Members()[k]);
    IntersectsIffMembersMeet(a, a);
  }

  /**
   * A zero-sized rectangle does not behave like a point: points compare on the
   * truncated grid, a rectangle compares exactly.
   */
  lemma ZeroRectDiffersFromPoint()
    ensures PointRef(Point(0.5, 0.0)).Intersects(PointRef(Point(0.2, 0.0)))
    ensures !RectRef(Rect(0.5, 0.0, 0.0, 0.0)).Intersects(PointRef(Point(0.2, 0.0)))
  {
    assert AsI32(0.5) == 0 && AsI32(0.2) == 0;
  }

  /** A composite hits through any one member, however far the others are. */
  lemma MixedIsDisjunctive()
    ensures MixedRef(Mixed([RectShape(Rect(1000.0, 1000.0, 1.0, 1.0)), CircleShape(Circle(0.0, 0.0, 5.0))]))
      .Intersects(RectRef(Rect(4.0, 4.0, 2.0, 2.0)))
  {
    var m := Mixed([RectShape(Rect(1000.0, 1000.0, 1.0, 1.0)), CircleShape(Circle(0.0, 0.0, 5.0))]);
    var q := RectRef(Rect(4.0, 4.0, 2.0, 2.0));
    var c := Circle(0.0, 0.0, 5.0);
    assert c.Bounds().Center() == Point(5.0, 5.0);
    assert Rect(4.0, 4.0, 2.0, 2.0).ClosestPoint(c) == Point(5.0, 5.0);
    assert SquaredDistance(Point(5.0, 5.0), Point(5.0, 5.0)) == 0.0;
    assert Point(5.0, 5.0).IntersectsCircle(c);
    assert c.Intersects(q);
    assert m.geometries[1] == CircleShape(c);
    MixedIntersectsIff(m, q);
  }
}
