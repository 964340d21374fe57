/**
 * The scene: two vectors of entities (static and dynamic), the staged
 * lifecycle traversal, identity-based removal and the O(n^2) broad phase that
 * pairs dynamic entities with each other and with static ones, then fires both
 * collision callbacks of every pair.
 *
 * Entities are modelled by `Body`: an object (so Dafny's reference equality
 * is the engine's pointer identity) with the shape its `bbox()` returns. The
 * hooks and callbacks are caller-defined in the engine; here each one appends
 * an event to a `Trace`, and a collision callback also replaces the receiver's
 * shape, so that the model can show what the callbacks can and cannot affect.
 */
module Scene {
  import Geometry
  import opened Wrappers

  type ShapeRef = Geometry.ShapeRef

  /** The lifecycle hooks the scene forwards. */
  datatype Stage = InputStage | PreUpdateStage | UpdateStage(frameTime: real) | PostUpdateStage | DrawStage

  /** What the trace records: a hook run on an entity, or `entity.on_collision(other)`. */
  datatype Event = Hook(stage: Stage, entity: Body) | Collision(entity: Body, other: Body)

  /** The observer every hook and callback writes to. */
  class Trace {
    var events: seq<Event>

    constructor ()
      ensures events == []
    {
      events := [];
    }
  }

  class Body {
    /** What `bbox()` returns. */
    var shape: ShapeRef
    /** The shape this entity's collision callback gives it. */
    const reaction: ShapeRef
    /** The other entity's shape as this entity's most recent callback saw it. */
    var lastSeen: ShapeRef

    constructor (shape: ShapeRef, reaction: ShapeRef)
      ensures this.shape == shape && this.reaction == reaction && lastSeen == Geometry.None
    {
      this.shape := shape;
      this.reaction := reaction;
      lastSeen := Geometry.None;
    }

    method Hook(stage: Stage, trace: Trace)
      modifies trace
      ensures trace.events == old(trace.events) + [Event.Hook(stage, this)]
    {
      trace.events := trace.events + [Event.Hook(stage, this)];
    }

    /** `on_collision(other)`: reads the other entity through a live reference. */
    method OnCollision(other: Body, trace: Trace)
      requires other != this
      modifies this, trace
      ensures trace.events == old(trace.events) + [Collision(this, other)]
      ensures lastSeen == old(other.shape) && shape == reaction
    {
      lastSeen := other.shape;
      shape := reaction;
      trace.events := trace.events + [Collision(this, other)];
    }
  }

  ghost predicate Distinct(s: seq<Body>) {
    forall i, j :: 0 <= i < j < |s| ==> s[i] != s[j]
  }

  /** The shapes of a vector of entities, element by element. */
  function Shapes(bs: seq<Body>): (r: seq<ShapeRef>)
    reads bs
    ensures |r| == |bs| && forall i :: 0 <= i < |bs| ==> r[i] == bs[i].shape
  {
    seq(|bs|, i reads bs requires 0 <= i < |bs| => bs[i].shape)
  }

  // ---------------------------------------------------------------------------
  // Removal: `position` by pointer identity, then `swap_remove`
  // ---------------------------------------------------------------------------

  /** `Vec::swap_remove(k)`: the last element fills the hole. */
  function SwapRemove<T>(s: seq<T>, k: nat): (r: seq<T>)
    requires k < |s|
    ensures |r| == |s| - 1
    ensures k < |r| ==> r[k] == s[|s| - 1]
    ensures forall i :: 0 <= i < |r| && i != k ==> r[i] == s[i]
    ensures multiset(r) == multiset(s) - multiset{s[k]}
  {
    assert s == s[..k] + [s[k]] + s[k + 1..];
    if k == |s| - 1 then s[..k]
    else
      assert s[k + 1..] == s[k + 1..|s| - 1] + [s[|s| - 1]];
      s[..k] + [s[|s| - 1]] + s[k + 1..|s| - 1]
  }

  /** `iter().position(|e| ptr::eq(e, entity))`. */
  method Position(s: seq<Body>, e: Body) returns (k: Option<nat>)
    ensures k.None? <==> e !in s
    ensures k.Some? ==> k.value < |s| && s[k.value] == e && e !in s[..k.value]
  {
    var i := 0;
    while i < |s|
      invariant 0 <= i <= |s|
      invariant e !in s[..i]
    {
      if s[i] == e {
        return Some(i);
      }
      assert s[..i + 1] == s[..i] + [s[i]];
      i := i + 1;
    }
    assert s[..i] == s;
    return None;
  }

  lemma SwapRemoveKeepsDistinct(s: seq<Body>, k: nat)
    requires k < |s| && Distinct(s)
    ensures Distinct(SwapRemove(s, k))
    ensures forall b :: b in SwapRemove(s, k) <==> b in s && b != s[k]
  {
    var r, last := SwapRemove(s, k), |s| - 1;
    forall i, j | 0 <= i < j < |r| ensures r[i] != r[j] {
      if i == k {
        assert r[i] == s[last] && r[j] == s[j];
      } else if j == k {
        assert r[i] == s[i] && r[j] == s[last];
      } else {
        assert r[i] == s[i] && r[j] == s[j];
      }
    }
    forall b | b in s && b != s[k] ensures b in r {
      var p :| 0 <= p < |s| && s[p] == b;
      if p == last {
        assert r[k] == b;
      } else {
        assert r[p] == b;
      }
    }
    forall b | b in r ensures b in s && b != s[k] {
      var i :| 0 <= i < |r| && r[i] == b;
      if i == k {
        assert b == s[last];
      } else {
        assert b == s[i];
      }
    }
  }

  // ---------------------------------------------------------------------------
  // Lifecycle traversal
  // ---------------------------------------------------------------------------

  /** One hook event per entity, in vector order. */
  function Hooks(stage: Stage, bs: seq<Body>): (r: seq<Event>)
    decreases |bs|
  {
    if |bs| == 0 then [] else Hooks(stage, bs[..|bs| - 1]) + [Event.Hook(stage, bs[|bs| - 1])]
  }

  lemma {:induction false} HooksVisitEachOnce(stage: Stage, bs: seq<Body>)
    ensures |Hooks(stage, bs)| == |bs|
    ensures forall i :: 0 <= i < |bs| ==> Hooks(stage, bs)[i] == Event.Hook(stage, bs[i])
    decreases |bs|
  {
    if |bs| > 0 {
      HooksVisitEachOnce(stage, bs[..|bs| - 1]);
    }
  }

  lemma {:induction false} HooksConcat(stage: Stage, a: seq<Body>, b: seq<Body>)
    ensures Hooks(stage, a + b) == Hooks(stage, a) + Hooks(stage, b)
    decreases |b|
  {
    if |b| > 0 {
      assert (a + b)[..|a + b| - 1] == a + b[..|b| - 1];
      HooksConcat(stage, a, b[..|b| - 1]);
    } else {
      assert a + b == a;
    }
  }

  // ---------------------------------------------------------------------------
  // Broad phase
  // ---------------------------------------------------------------------------

  type Pair = (nat, nat)

  predicate Meets(a: ShapeRef, b: ShapeRef) {
    a.Intersects(b)
  }

  /** Pairs (i, k) with i < k < j whose shapes meet, in order of k. */
  function Row(sh: seq<ShapeRef>, i: nat, j: nat): seq<Pair>
    requires i < |sh| && j <= |sh|
    decreases j
  {
    if j <= i + 1 then []
    else Row(sh, i, j - 1) + (if Meets(sh[i], sh[j - 1]) then [(i, j - 1)] else [])
  }

  /** The first m rows of the dynamic x dynamic pairing. */
  function Rows(sh: seq<ShapeRef>, m: nat): seq<Pair>
    requires m <= |sh|
    decreases m
  {
    if m == 0 then [] else Rows(sh, m - 1) + Row(sh, m - 1, |sh|)
  }

  /** Pairs (i, k) with k < j where dynamic i meets static k, in order of k. */
  function CrossRow(ds: seq<ShapeRef>, ss: seq<ShapeRef>, i: nat, j: nat): seq<Pair>
    requires i < |ds| && j <= |ss|
    decreases j
  {
    if j == 0 then []
    else CrossRow(ds, ss, i, j - 1) + (if Meets(ds[i], ss[j - 1]) then [(i, j - 1)] else [])
  }

  /** The first m rows of the dynamic x static pairing (dynamic is the outer loop). */
  function CrossRows(ds: seq<ShapeRef>, ss: seq<ShapeRef>, m: nat): seq<Pair>
    requires m <= |ds|
    decreases m
  {
    if m == 0 then [] else CrossRows(ds, ss, m - 1) + CrossRow(ds, ss, m - 1, |ss|)
  }

  function DynamicPairs(ds: seq<ShapeRef>): seq<Pair> {
    Rows(ds, |ds|)
  }

  function DynamicStaticPairs(ds: seq<ShapeRef>, ss: seq<ShapeRef>): seq<Pair> {
    CrossRows(ds, ss, |ds|)
  }

  predicate LexLess(p: Pair, q: Pair) {
    p.0 < q.0 || (p.0 == q.0 && p.1 < q.1)
  }

  predicate StrictlySorted(ps: seq<Pair>) {
    forall a, b :: 0 <= a < b < |ps| ==> LexLess(ps[a], ps[b])
  }

  /** Two sorted lists, every pair of the first before every pair of the second, concatenate to a sorted list. */
  lemma SortedConcat(a: seq<Pair>, b: seq<Pair>)
    requires StrictlySorted(a) && StrictlySorted(b)
    requires forall p, q :: p in a && q in b ==> LexLess(p, q)
    ensures StrictlySorted(a + b)
  {
    var c := a + b;
    forall x, y | 0 <= x < y < |c| ensures LexLess(c[x], c[y]) {
      if y < |a| {
        assert c[x] == a[x] && c[y] == a[y];
      } else if x >= |a| {
        assert c[x] == b[x - |a|] && c[y] == b[y - |a|];
      } else {
        assert c[x] == a[x] && a[x] in a;
        assert c[y] == b[y - |a|] && b[y - |a|] in b;
      }
    }
  }

  lemma {:induction false} RowExact(sh: seq<ShapeRef>, i: nat, j: nat)
    requires i < |sh| && j <= |sh|
    ensures forall p :: p in Row(sh, i, j) <==> p.0 == i && i < p.1 < j && Meets(sh[i], sh[p.1])
    ensures StrictlySorted(Row(sh, i, j))
    decreases j
  {
    if j > i + 1 {
      RowExact(sh, i, j - 1);
      SortedConcat(Row(sh, i, j - 1), if Meets(sh[i], sh[j - 1]) then [(i, j - 1)] else []);
    }
  }

  lemma {:induction false} RowsExact(sh: seq<ShapeRef>, m: nat)
    requires m <= |sh|
    ensures forall p :: p in Rows(sh, m) <==> p.0 < m && p.0 < p.1 < |sh| && Meets(sh[p.0], sh[p.1])
    ensures StrictlySorted(Rows(sh, m))
    decreases m
  {
    if m > 0 {
      RowsExact(sh, m - 1);
      RowExact(sh, m - 1, |sh|);
      SortedConcat(Rows(sh, m - 1), Row(sh, m - 1, |sh|));
    }
  }

  lemma {:induction false} CrossRowExact(ds: seq<ShapeRef>, ss: seq<ShapeRef>, i: nat, j: nat)
    requires i < |ds| && j <= |ss|
    ensures forall p :: p in CrossRow(ds, ss, i, j) <==> p.0 == i && p.1 < j && Meets(ds[i], ss[p.1])
    ensures StrictlySorted(CrossRow(ds, ss, i, j))
    decreases j
  {
    if j > 0 {
      CrossRowExact(ds, ss, i, j - 1);
      SortedConcat(CrossRow(ds, ss, i, j - 1), if Meets(ds[i], ss[j - 1]) then [(i, j - 1)] else []);
    }
  }

  lemma {:induction false} CrossRowsExact(ds: seq<ShapeRef>, ss: seq<ShapeRef>, m: nat)
    requires m <= |ds|
    ensures forall p :: p in CrossRows(ds, ss, m) <==> p.0 < m && p.1 < |ss| && Meets(ds[p.0], ss[p.1])
    ensures StrictlySorted(CrossRows(ds, ss, m))
    decreases m
  {
    if m > 0 {
      CrossRowsExact(ds, ss, m - 1);
      CrossRowExact(ds, ss, m - 1, |ss|);
      SortedConcat(CrossRows(ds, ss, m - 1), CrossRow(ds, ss, m - 1, |ss|));
    }
  }

  /**
   * The dynamic x dynamic pairs are exactly the i < j whose shapes meet, in
   * lexicographic order; with fewer than two dynamic entities there are none.
   */
  lemma DynamicPairsExact(ds: seq<ShapeRef>)
    ensures forall p :: p in DynamicPairs(ds) <==> p.0 < p.1 < |ds| && Meets(ds[p.0], ds[p.1])
    ensures StrictlySorted(DynamicPairs(ds))
    ensures |ds| < 2 ==> DynamicPairs(ds) == []
  {
    RowsExact(ds, |ds|);
    if |ds| == 1 {
      assert Rows(ds, 1) == Rows(ds, 0) + Row(ds, 0, 1);
    }
  }

  /** The dynamic x static pairs are exactly the (dynamic i, static j) whose shapes meet, dynamic-major. */
  lemma DynamicStaticPairsExact(ds: seq<ShapeRef>, ss: seq<ShapeRef>)
    ensures forall p :: p in DynamicStaticPairs(ds, ss) <==> p.0 < |ds| && p.1 < |ss| && Meets(ds[p.0], ss[p.1])
    ensures StrictlySorted(DynamicStaticPairs(ds, ss))
  {
    CrossRowsExact(ds, ss, |ds|);
  }

  predicate InRange(ps: seq<Pair>, n: nat, m: nat) {
    forall k :: 0 <= k < |ps| ==> ps[k].0 < n && ps[k].1 < m
  }

  /** Both callbacks of every pair, first `xs[i].on_collision(ys[j])`, then the reverse. */
  function PairEvents(xs: seq<Body>, ys: seq<Body>, ps: seq<Pair>): seq<Event>
    requires InRange(ps, |xs|, |ys|)
    decreases |ps|
  {
    if |ps| == 0 then []
    else
      var p := ps[|ps| - 1];
      PairEvents(xs, ys, ps[..|ps| - 1]) + [Collision(xs[p.0], ys[p.1]), Collision(ys[p.1], xs[p.0])]
  }

  lemma {:induction false} PairEventsExact(xs: seq<Body>, ys: seq<Body>, ps: seq<Pair>)
    requires InRange(ps, |xs|, |ys|)
    ensures |PairEvents(xs, ys, ps)| == 2 * |ps|
    ensures forall k :: 0 <= k < |ps| ==>
      PairEvents(xs, ys, ps)[2 * k] == Collision(xs[ps[k].0], ys[ps[k].1]) &&
      PairEvents(xs, ys, ps)[2 * k + 1] == Collision(ys[ps[k].1], xs[ps[k].0])
    decreases |ps|
  {
    if |ps| > 0 {
      PairEventsExact(xs, ys, ps[..|ps| - 1]);
    }
  }

  lemma RowsInRange(sh: seq<ShapeRef>)
    ensures InRange(DynamicPairs(sh), |sh|, |sh|)
  {
    DynamicPairsExact(sh);
    forall k | 0 <= k < |DynamicPairs(sh)| ensures DynamicPairs(sh)[k].1 < |sh| {
      assert DynamicPairs(sh)[k] in DynamicPairs(sh);
    }
  }

  lemma CrossRowsInRange(ds: seq<ShapeRef>, ss: seq<ShapeRef>)
    ensures InRange(DynamicStaticPairs(ds, ss), |ds|, |ss|)
  {
    DynamicStaticPairsExact(ds, ss);
    forall k | 0 <= k < |DynamicStaticPairs(ds, ss)| ensures DynamicStaticPairs(ds, ss)[k].1 < |ss| {
      assert DynamicStaticPairs(ds, ss)[k] in DynamicStaticPairs(ds, ss);
    }
  }

  /**
   * Every callback one `collisions()` call fires, given the shapes the
   * entities had when it started: all dynamic x dynamic pairs, then all
   * dynamic x static pairs.
   */
  function CollisionEvents(statics: seq<Body>, dynamics: seq<Body>, ss: seq<ShapeRef>, ds: seq<ShapeRef>): seq<Event>
    requires |ss| == |statics| && |ds| == |dynamics|
  {
    RowsInRange(ds);
    CrossRowsInRange(ds, ss);
    PairEvents(dynamics, dynamics, DynamicPairs(ds)) + PairEvents(dynamics, statics, DynamicStaticPairs(ds, ss))
  }

  /** Static entities are never paired with each other: with no dynamic entity nothing fires. */
  lemma NoStaticStaticPairs(statics: seq<Body>, ss: seq<ShapeRef>)
    requires |ss| == |statics|
    ensures CollisionEvents(statics, [], ss, []) == []
  {
  }

  /**
   * One dynamic entity A over one static entity B: `A.on_collision(B)` and
   * then `B.on_collision(A)`, each exactly once.
   */
  lemma OneDynamicOneStatic(a: Body, b: Body, sa: ShapeRef, sb: ShapeRef)
    requires Meets(sa, sb)
    ensures CollisionEvents([b], [a], [sb], [sa]) == [Collision(a, b), Collision(b, a)]
  {
    assert Row([sa], 0, 1) == [];
    assert DynamicPairs([sa]) == Rows([sa], 0) + Row([sa], 0, 1) == [];
    assert CrossRow([sa], [sb], 0, 1) == CrossRow([sa], [sb], 0, 0) + [(0, 0)] == [(0, 0)];
    assert DynamicStaticPairs([sa], [sb]) == CrossRows([sa], [sb], 0) + CrossRow([sa], [sb], 0, 1) == [(0, 0)];
    assert PairEvents([a], [b], [(0, 0)]) == PairEvents([a], [b], []) + [Collision(a, b), Collision(b, a)];
  }

  /**
   * A ball (radius 8) that has moved to (110, 100) over a wall spanning
   * (108, 92) to (128, 112): the broad phase pairs them and both callbacks fire.
   */
  lemma BallMeetsWall(ball: Body, wall: Body)
    ensures Meets(Geometry.CircleRef(Geometry.Circle(110.0, 100.0, 8.0)), Geometry.RectRef(Geometry.Rect(108.0, 92.0, 20.0, 20.0)))
    ensures CollisionEvents([wall], [ball], [Geometry.RectRef(Geometry.Rect(108.0, 92.0, 20.0, 20.0))],
      [Geometry.CircleRef(Geometry.Circle(110.0, 100.0, 8.0))]) == [Collision(ball, wall), Collision(wall, ball)]
  {
    var c, r := Geometry.Circle(110.0, 100.0, 8.0), Geometry.Rect(108.0, 92.0, 20.0, 20.0);
    assert c.Bounds().Center() == Geometry.Point(118.0, 108.0);
    assert r.ClosestPoint(c) == Geometry.Point(118.0, 108.0);
    assert Geometry.SquaredDistance(Geometry.Point(118.0, 108.0), Geometry.Point(118.0, 108.0)) == 0.0;
    assert r.IntersectsCircle(c);
    OneDynamicOneStatic(ball, wall, Geometry.CircleRef(c), Geometry.RectRef(r));
  }

  // ---------------------------------------------------------------------------
  // The scene
  // ---------------------------------------------------------------------------

  class Scene {
    var statics: seq<Body>
    var dynamics: seq<Body>

    /** The scene owns each entity once: no entity sits twice in one vector or in both. */
    ghost predicate Valid()
      reads this
    {
      Distinct(statics + dynamics)
    }

    constructor ()
      ensures Valid() && statics == [] && dynamics == []
    {
      statics := [];
      dynamics := [];
    }

    method AddStatic(e: Body)
      requires Valid() && e !in statics && e !in dynamics
      modifies this
      ensures Valid()
      ensures statics == old(statics) + [e] && dynamics == old(dynamics)
    {
      DistinctInsert(statics, dynamics, e);
      statics := statics + [e];
    }

    method AddDynamic(e: Body)
      requires Valid() && e !in statics && e !in dynamics
      modifies this
      ensures Valid()
      ensures dynamics == old(dynamics) + [e] && statics == old(statics)
    {
      dynamics := dynamics + [e];
      assert statics + dynamics == old(statics + dynamics) + [e];
    }

    method RemoveStatic(e: Body) returns (r: Option<Body>)
      requires Valid()
      modifies this
      ensures Valid() && dynamics == old(dynamics)
      ensures e !in old(statics) ==> r == None && statics == old(statics)
      ensures e in old(statics) ==>
        r == Some(e) && e !in statics &&
        exists k :: 0 <= k < |old(statics)| && old(statics)[k] == e && statics == SwapRemove(old(statics), k)
    {
      var k := Position(statics, e);
      if k.None? {
        return None;
      }
      ghost var before := statics;
      DistinctParts(statics, dynamics);
      SwapRemoveKeepsDistinct(statics, k.value);
      statics := SwapRemove(statics, k.value);
      DistinctJoin(statics, dynamics, before);
      return Some(e);
    }

    method RemoveDynamic(e: Body) returns (r: Option<Body>)
      requires Valid()
      modifies this
      ensures Valid() && statics == old(statics)
      ensures e !in old(dynamics) ==> r == None && dynamics == old(dynamics)
      ensures e in old(dynamics) ==>
        r == Some(e) && e !in dynamics &&
        exists k :: 0 <= k < |old(dynamics)| && old(dynamics)[k] == e && dynamics == SwapRemove(old(dynamics), k)
    {
      var k := Position(dynamics, e);
      if k.None? {
        return None;
      }
      ghost var before := dynamics;
      DistinctParts(statics, dynamics);
      SwapRemoveKeepsDistinct(dynamics, k.value);
      dynamics := SwapRemove(dynamics, k.value);
      DistinctJoinRight(statics, dynamics, before);
      return Some(e);
    }

    /** Every static entity in index order, then every dynamic one. */
    method Visit(stage: Stage, trace: Trace)
      modifies trace
      ensures trace.events == old(trace.events) + Hooks(stage, statics + dynamics)
    {
      ForEach(stage, statics, trace);
      ForEach(stage, dynamics, trace);
      HooksConcat(stage, statics, dynamics);
    }

    method Input(trace: Trace)
      modifies trace
      ensures trace.events == old(trace.events) + Hooks(InputStage, statics + dynamics)
    {
      Visit(InputStage, trace);
    }

    method PreUpdate(trace: Trace)
      modifies trace
      ensures trace.events == old(trace.events) + Hooks(PreUpdateStage, statics + dynamics)
    {
      Visit(PreUpdateStage, trace);
    }

    method Update(frameTime: real, trace: Trace)
      modifies trace
      ensures trace.events == old(trace.events) + Hooks(UpdateStage(frameTime), statics + dynamics)
    {
      Visit(UpdateStage(frameTime), trace);
    }

    method PostUpdate(trace: Trace)
      modifies trace
      ensures trace.events == old(trace.events) + Hooks(PostUpdateStage, statics + dynamics)
    {
      Visit(PostUpdateStage, trace);
    }

    method Draw(trace: Trace)
      modifies trace
      ensures trace.events == old(trace.events) + Hooks(DrawStage, statics + dynamics)
    {
      Visit(DrawStage, trace);
    }

    /**
     * The broad phase: both pair lists are built from the shapes as they are on
     * entry, and only then are the callbacks fired, dynamic x dynamic first.
     */
    method Collisions(trace: Trace)
      requires Valid()
      modifies trace, statics, dynamics
      ensures trace.events == old(trace.events) +
        old(CollisionEvents(statics, dynamics, Shapes(statics), Shapes(dynamics)))
    {
      var sts, dyns := statics, dynamics;
      ghost var ss, ds := Shapes(sts), Shapes(dyns);
      var dynamicCollisions := FindDynamicPairs();
      var dynamicStaticCollisions := FindDynamicStaticPairs();
      DistinctParts(sts, dyns);
      DynamicPairsSeparate(dyns, ds);
      CrossPairsSeparate(dyns, sts, ds, ss);
      ghost var before := trace.events;
      ghost var first := PairEvents(dyns, dyns, dynamicCollisions);
      ghost var second := PairEvents(dyns, sts, dynamicStaticCollisions);
      assert first + second == CollisionEvents(sts, dyns, ss, ds);
      FireAll(dyns, dyns, dynamicCollisions, trace);
      FireAll(dyns, sts, dynamicStaticCollisions, trace);
      AppendAssoc(before, first, second);
    }

    /** The first pair of loops: i < j over the dynamic vector, skipped below two entities. */
    method FindDynamicPairs() returns (pairs: seq<Pair>)
      ensures pairs == DynamicPairs(Shapes(dynamics))
    {
      var entities := dynamics;
      ghost var ds := Shapes(entities);
      var n := |entities|;
      pairs := [];
      if n > 1 {
        var i := 0;
        while i < n
          invariant 0 <= i <= n
          invariant pairs == Rows(ds, i)
        {
          var j := i + 1;
          while j < n
            invariant i + 1 <= j <= n
            invariant pairs == Rows(ds, i) + Row(ds, i, j)
          {
            if entities[i].shape.Intersects(entities[j].shape) {
              pairs := pairs + [(i, j)];
            }
            j := j + 1;
          }
          i := i + 1;
        }
      } else {
        DynamicPairsExact(ds);
      }
    }

    /** The second pair of loops: every dynamic entity against every static one. */
    method FindDynamicStaticPairs() returns (pairs: seq<Pair>)
      ensures pairs == DynamicStaticPairs(Shapes(dynamics), Shapes(statics))
    {
      var movers, fixtures := dynamics, statics;
      ghost var ds, ss := Shapes(movers), Shapes(fixtures);
      var n, m := |movers|, |fixtures|;
      pairs := [];
      var i := 0;
      while i < n
        invariant 0 <= i <= n
        invariant pairs == CrossRows(ds, ss, i)
      {
        var j := 0;
        while j < m
          invariant 0 <= j <= m
          invariant pairs == CrossRows(ds, ss, i) + CrossRow(ds, ss, i, j)
        {
          if movers[i].shape.Intersects(fixtures[j].shape) {
            pairs := pairs + [(i, j)];
          }
          j := j + 1;
        }
        i := i + 1;
      }
    }
  }

  /** Every pair names two different objects, one from each vector. */
  ghost predicate Separate(xs: seq<Body>, ys: seq<Body>, ps: seq<Pair>) {
    InRange(ps, |xs|, |ys|) && forall k :: 0 <= k < |ps| ==> xs[ps[k].0] != ys[ps[k].1]
  }

  /** `a.on_collision(b)` then `b.on_collision(a)` on live references. */
  method FirePair(a: Body, b: Body, trace: Trace)
    requires a != b
    modifies a, b, trace
    ensures trace.events == old(trace.events) + [Collision(a, b), Collision(b, a)]
    ensures a.shape == a.reaction && b.shape == b.reaction
    ensures a.lastSeen == old(b.shape)
    ensures b.lastSeen == a.reaction
  {
    a.OnCollision(b, trace);
    b.OnCollision(a, trace);
  }

  /** Fires both callbacks of every pair, in list order. */
  method FireAll(xs: seq<Body>, ys: seq<Body>, ps: seq<Pair>, trace: Trace)
    requires Separate(xs, ys, ps)
    modifies xs, ys, trace
    ensures trace.events == old(trace.events) + PairEvents(xs, ys, ps)
  {
    var k := 0;
    while k < |ps|
      invariant 0 <= k <= |ps|
      invariant trace.events == old(trace.events) + PairEvents(xs, ys, ps[..k])
    {
      var (i, j) := ps[k];
      FirePair(xs[i], ys[j], trace);
      assert ps[..k + 1][..k] == ps[..k];
      k := k + 1;
    }
    assert ps[..k] == ps;
  }

  /** Runs one hook on every entity of a vector, in order. */
  method ForEach(stage: Stage, bs: seq<Body>, trace: Trace)
    modifies trace
    ensures trace.events == old(trace.events) + Hooks(stage, bs)
  {
    for i := 0 to |bs|
      invariant trace.events == old(trace.events) + Hooks(stage, bs[..i])
    {
      bs[i].Hook(stage, trace);
      assert bs[..i + 1][..i] == bs[..i];
    }
    assert bs[..|bs|] == bs;
  }

  /** The two entities of a dynamic x dynamic pair are different objects. */
  lemma DynamicPairsSeparate(dynamics: seq<Body>, ds: seq<ShapeRef>)
    requires Distinct(dynamics) && |ds| == |dynamics|
    ensures Separate(dynamics, dynamics, DynamicPairs(ds))
  {
    DynamicPairsExact(ds);
    RowsInRange(ds);
    var ps := DynamicPairs(ds);
    forall k | 0 <= k < |ps| ensures dynamics[ps[k].0] != dynamics[ps[k].1] {
      assert ps[k] in ps;
    }
  }

  /** The two entities of a dynamic x static pair are different objects. */
  lemma CrossPairsSeparate(dynamics: seq<Body>, statics: seq<Body>, ds: seq<ShapeRef>, ss: seq<ShapeRef>)
    requires Distinct(statics + dynamics) && |ds| == |dynamics| && |ss| == |statics|
    ensures Separate(dynamics, statics, DynamicStaticPairs(ds, ss))
  {
    CrossRowsInRange(ds, ss);
    var ps := DynamicStaticPairs(ds, ss);
    forall k | 0 <= k < |ps| ensures dynamics[ps[k].0] != statics[ps[k].1] {
      DistinctAcross(statics, dynamics, ps[k].1, ps[k].0);
    }
  }

  lemma DistinctParts(a: seq<Body>, b: seq<Body>)
    requires Distinct(a + b)
    ensures Distinct(a) && Distinct(b)
  {
    forall i, j | 0 <= i < j < |b| ensures b[i] != b[j] {
      assert b[i] == (a + b)[|a| + i] && b[j] == (a + b)[|a| + j];
    }
    forall i, j | 0 <= i < j < |a| ensures a[i] != a[j] {
      assert a[i] == (a + b)[i] && a[j] == (a + b)[j];
    }
  }

  /** A new entity can join the first vector without breaking distinctness. */
  lemma DistinctInsert(a: seq<Body>, b: seq<Body>, e: Body)
    requires Distinct(a + b) && e !in a && e !in b
    ensures Distinct((a + [e]) + b)
  {
    var s := (a + [e]) + b;
    forall i, j | 0 <= i < j < |s| ensures s[i] != s[j] {
      if j == |a| {
        assert s[j] == e && s[i] == a[i];
      } else if i == |a| {
        assert s[i] == e && s[j] == b[j - |a| - 1];
      } else {
        var i', j' := if i < |a| then i else i - 1, if j < |a| then j else j - 1;
        assert s[i] == (a + b)[i'] && s[j] == (a + b)[j'];
      }
    }
  }

  lemma DistinctAcross(a: seq<Body>, b: seq<Body>, i: nat, j: nat)
    requires Distinct(a + b) && i < |a| && j < |b|
    ensures a[i] != b[j]
  {
    assert a[i] == (a + b)[i] && b[j] == (a + b)[|a| + j];
  }

  /** Removing from the first vector keeps the two vectors jointly distinct. */
  lemma DistinctJoin(a: seq<Body>, b: seq<Body>, before: seq<Body>)
    requires Distinct(before + b) && Distinct(a)
    requires forall x :: x in a ==> x in before
    ensures Distinct(a + b)
  {
    forall i, j | 0 <= i < j < |a + b| ensures (a + b)[i] != (a + b)[j] {
      if i < |a| && |a| <= j {
        var x, y := (a + b)[i], (a + b)[j];
        assert x in before;
        var p :| 0 <= p < |before| && before[p] == x;
        assert y == (before + b)[|before| + j - |a|];
        assert x == (before + b)[p];
      } else if |a| <= i {
        assert (a + b)[i] == (before + b)[|before| + i - |a|];
        assert (a + b)[j] == (before + b)[|before| + j - |a|];
      }
    }
  }

  /** Removing from the second vector keeps the two vectors jointly distinct. */
  lemma DistinctJoinRight(a: seq<Body>, b: seq<Body>, before: seq<Body>)
    requires Distinct(a + before) && Distinct(b)
    requires forall x :: x in b ==> x in before
    ensures Distinct(a + b)
  {
    forall i, j | 0 <= i < j < |a + b| ensures (a + b)[i] != (a + b)[j] {
      if i < |a| && |a| <= j {
        var x, y := (a + b)[i], (a + b)[j];
        assert y in before;
        var q :| 0 <= q < |before| && before[q] == y;
        assert y == (a + before)[|a| + q];
        assert x == (a + before)[i];
      } else if j < |a| {
        assert (a + b)[i] == (a + before)[i];
        assert (a + b)[j] == (a + before)[j];
      }
    }
  }
}
