/** Ball-segment collisions of src/Colisoes.cpp:133-183: the closest point of a
    segment to the ball's centre in the x/z plane, the push out to the surface
    and the damped reflection of the horizontal velocity. The same code runs
    over the pocket-mouth guards and then over the cushions. */
module SegmentCollision {
  import opened Vectors
  import opened Numeric
  import opened GameObjects

  /** The segment's first end point in the plane. */
  function Start(seg: BoundingSegment): Vec2 { Flat(seg.p1) }

  /** The segment as a plane vector from p1 to p2. */
  function Span(seg: BoundingSegment): Vec2 { Sub2(Flat(seg.p2), Flat(seg.p1)) }

  const Origin2: Vec2 := Vec2(0.0, 0.0)

  /** The parameter of the point of segment s (from the origin) nearest to b:
      the projection clamped to [0, 1]. */
  function ClosestParam(b: Vec2, s: Vec2): (t: real)
    requires s != Origin2
    ensures 0.0 <= t <= 1.0
    ensures 0.0 < t < 1.0 ==> t * Dot2(s, s) == Dot2(b, s)
    ensures t == 0.0 ==> Dot2(b, s) <= 0.0
    ensures t == 1.0 ==> Dot2(b, s) >= Dot2(s, s)
  {
    SpanPositive(s);
    ClampReal(Dot2(b, s) / Dot2(s, s), 0.0, 1.0)
  }

  lemma SpanPositive(s: Vec2)
    requires s != Origin2
    ensures Dot2(s, s) > 0.0
  {
    Dot2SelfNonNegative(s);
    ZeroLength2(s);
  }

  /** The point of the segment nearest to p. */
  function ClosestPoint(seg: BoundingSegment, p: Vec2): Vec2
    requires Span(seg) != Origin2
  {
    Add2(Start(seg), Scale2(ClosestParam(Sub2(p, Start(seg)), Span(seg)), Span(seg)))
  }

  /** Squared distance from p to the segment. */
  function SqDistance(seg: BoundingSegment, p: Vec2): real
    requires Span(seg) != Origin2
  {
    Dot2(Sub2(p, ClosestPoint(seg, p)), Sub2(p, ClosestPoint(seg, p)))
  }

  /** The ball overlaps the segment: its centre is closer than its radius. */
  predicate Touches(b: Ball, seg: BoundingSegment)
    requires Span(seg) != Origin2
  {
    0.0 < b.radius && SqDistance(seg, Flat(b.position)) < b.radius * b.radius
  }

  // ---- The closest point is the nearest point ----

  /** |b - u s|^2 expanded. */
  lemma SqDistanceAt(b: Vec2, s: Vec2, u: real)
    ensures Dot2(Sub2(b, Scale2(u, s)), Sub2(b, Scale2(u, s)))
            == Dot2(b, b) - 2.0 * u * Dot2(b, s) + u * u * Dot2(s, s)
  {
  }

  lemma NonZeroProduct(x: real, y: real)
    requires x != 0.0 && y != 0.0
    ensures x * y != 0.0
  {
    assert x * y / y == x;
  }

  lemma ProductNonNegative(x: real, y: real)
    requires (0.0 <= x && 0.0 <= y) || (x <= 0.0 && y <= 0.0)
    ensures 0.0 <= x * y
  {
    if x <= 0.0 && y <= 0.0 {
      assert x * y == (-x) * (-y);
    }
  }

  /** The clamped parameter minimises the distance over the whole segment. */
  lemma {:induction false} NearestOnSegment(b: Vec2, s: Vec2, u: real)
    requires s != Origin2 && 0.0 <= u <= 1.0
    ensures var t := ClosestParam(b, s);
            Dot2(Sub2(b, Scale2(t, s)), Sub2(b, Scale2(t, s)))
            <= Dot2(Sub2(b, Scale2(u, s)), Sub2(b, Scale2(u, s)))
  {
    var t := ClosestParam(b, s);
    SpanPositive(s);
    SqDistanceAt(b, s, t);
    SqDistanceAt(b, s, u);
    NearestParam(Dot2(b, s), Dot2(s, s), t, u);
  }

  /** The scalar core of NearestOnSegment: with p = b.s and q = s.s, the
      clamped projection t minimises u^2 q - 2 u p over [0, 1]. */
  lemma NearestParam(p: real, q: real, t: real, u: real)
    requires 0.0 < q && 0.0 <= u <= 1.0 && 0.0 <= t <= 1.0
    requires 0.0 < t < 1.0 ==> t * q == p
    requires t == 0.0 ==> p <= 0.0
    requires t == 1.0 ==> p >= q
    ensures t * t * q - 2.0 * t * p <= u * u * q - 2.0 * u * p
  {
    // f(u) - f(t) = (u - t) * ((u + t) * q - 2 * p)
    assert (u * u * q - 2.0 * u * p) - (t * t * q - 2.0 * t * p) == (u - t) * ((u + t) * q - 2.0 * p);
    if t == 0.0 {
      ProductNonNegative(u, q);
      ProductNonNegative(u, (u + t) * q - 2.0 * p);
    } else if t == 1.0 {
      ProductNonNegative(1.0 - u, q);
      assert (u + t) * q == u * q + q;
      ProductNonNegative(u - t, (u + t) * q - 2.0 * p);
    } else {
      assert (u + t) * q - 2.0 * p == (u - t) * q;
      ProductNonNegative(u - t, u - t);
      ProductNonNegative((u - t) * (u - t), q);
      assert (u - t) * ((u - t) * q) == (u - t) * (u - t) * q;
    }
  }

  /** The segment's closest point is at least as near to p as any point of the segment. */
  lemma ClosestPointIsNearest(seg: BoundingSegment, p: Vec2, u: real)
    requires Span(seg) != Origin2 && 0.0 <= u <= 1.0
    ensures var other := Sub2(p, Add2(Start(seg), Scale2(u, Span(seg))));
            SqDistance(seg, p) <= Dot2(other, other)
  {
    var b := Sub2(p, Start(seg));
    var t := ClosestParam(b, Span(seg));
    assert Sub2(p, ClosestPoint(seg, p)) == Sub2(b, Scale2(t, Span(seg)));
    assert Sub2(p, Add2(Start(seg), Scale2(u, Span(seg)))) == Sub2(b, Scale2(u, Span(seg)));
    NearestOnSegment(b, Span(seg), u);
  }

  // ---- The response ----

  /** The horizontal velocity h reflected about the wall normal `dir` and damped
      by the restitution coefficient. */
  function Reflect(h: Vec2, dir: Vec2): Vec2 {
    Scale2(Restitution, Sub2(h, Scale2(2.0 * Dot2(h, dir), dir)))
  }

  /** Reflection reverses the normal component (scaled by e), keeps the
      tangential component (scaled by e), and scales the speed by e. */
  lemma ReflectReverses(h: Vec2, dir: Vec2)
    requires Dot2(dir, dir) == 1.0
    ensures Dot2(Reflect(h, dir), dir) == -Restitution * Dot2(h, dir)
    ensures Sub2(Reflect(h, dir), Scale2(Dot2(Reflect(h, dir), dir), dir))
            == Scale2(Restitution, Sub2(h, Scale2(Dot2(h, dir), dir)))
    ensures Dot2(Reflect(h, dir), Reflect(h, dir)) == Restitution * Restitution * Dot2(h, h)
  {
    var k := Dot2(h, dir);
    var m := Sub2(h, Scale2(2.0 * k, dir));
    assert Dot2(m, dir) == k - 2.0 * k * Dot2(dir, dir);
    assert Dot2(m, m) == Dot2(h, h) - 4.0 * k * k + 4.0 * k * k * Dot2(dir, dir);
    assert Dot2(Reflect(h, dir), dir) == Restitution * Dot2(m, dir);
    assert Dot2(Reflect(h, dir), Reflect(h, dir)) == Restitution * Restitution * Dot2(m, m);
  }

  /** The fields a wall contact never changes: identity, spin and the vertical
      components of position and velocity. */
  predicate KeepsHeight(b: Ball, b': Ball) {
    b'.radius == b.radius && b'.active == b.active && b'.textureUnit == b.textureUnit &&
    b'.angularVelocity == b.angularVelocity &&
    b'.position.y == b.position.y && b'.velocity.y == b.velocity.y
  }

  /** Pushes the ball, whose centre is at distance d < radius from the wall
      along the unit normal dir, out to the surface, and reflects its horizontal
      velocity if it is moving into the wall. */
  function PushOut(b: Ball, d: real, dir: Vec2): (r: Ball)
    ensures KeepsHeight(b, r)
    ensures Flat(r.position) == Add2(Flat(b.position), Scale2(b.radius - d, dir))
    ensures Dot2(Flat(b.velocity), dir) < 0.0 ==> Flat(r.velocity) == Reflect(Flat(b.velocity), dir)
    ensures Dot2(Flat(b.velocity), dir) >= 0.0 ==> r.velocity == b.velocity
  {
    var q := Add2(Flat(b.position), Scale2(b.radius - d, dir));
    var p := Vec3(q.x, b.position.y, q.z);
    var v := Flat(b.velocity);
    if Dot2(v, dir) < 0.0 then
      var rv := Reflect(v, dir);
      b.(position := p, velocity := Vec3(rv.x, b.velocity.y, rv.z))
    else b.(position := p)
  }

  /** One segment test. A zero-length segment (0/0 in the projection) or a
      centre exactly on the segment (normalising a zero vector) is Degenerate. */
  function HitSegment(b: Ball, seg: BoundingSegment, sqrt: real -> real): (r: Outcome<Ball>)
    requires IsSqrt(sqrt)
    ensures r.Ok? ==> KeepsHeight(b, r.value)
    ensures r.Degenerate? <==>
              Span(seg) == Origin2 || (0.0 < b.radius && Flat(b.position) == ClosestPoint(seg, Flat(b.position)))
    ensures Span(seg) != Origin2 ==> (r == Ok(b) <==> !Touches(b, seg))
    ensures Span(seg) != Origin2 && r.Ok? && Touches(b, seg) ==>
              var n := Sub2(Flat(b.position), ClosestPoint(seg, Flat(b.position)));
              var w := Dot2(Flat(b.velocity), n);
              (w < 0.0 ==> Dot2(Flat(r.value.velocity), n) == -Restitution * w &&
                           Dot2(Flat(r.value.velocity), Flat(r.value.velocity))
                           == Restitution * Restitution * Dot2(Flat(b.velocity), Flat(b.velocity))) &&
              (w >= 0.0 ==> r.value.velocity == b.velocity)
  {
    if Span(seg) == Origin2 then Degenerate
    else
      var n := Sub2(Flat(b.position), ClosestPoint(seg, Flat(b.position)));
      var d := Length2(n, sqrt);
      TouchesByLength(b, seg, d);
      Sub2Zero(Flat(b.position), ClosestPoint(seg, Flat(b.position)));
      if d < b.radius then
        if d == 0.0 then Degenerate
        else Ok(Contact(b, n, d))
      else Ok(b)
  }

  /** The source's length test is the touching test. */
  lemma TouchesByLength(b: Ball, seg: BoundingSegment, d: real)
    requires Span(seg) != Origin2
    requires 0.0 <= d && d * d == SqDistance(seg, Flat(b.position))
    ensures d < b.radius <==> Touches(b, seg)
  {
    if 0.0 <= b.radius {
      RootBelow(SqDistance(seg, Flat(b.position)), d, b.radius);
    }
  }

  /** The contact branch of a segment test: the centre sits at distance
      0 < d < radius from the wall along the offset n, and is pushed out along
      the normalised offset. The ball moves, and bounces as BounceAlongOffset
      states. */
  function Contact(b: Ball, n: Vec2, d: real): (r: Ball)
    requires 0.0 < d < b.radius && d * d == Dot2(n, n)
    ensures KeepsHeight(b, r) && r != b
    ensures var w := Dot2(Flat(b.velocity), n);
            (w < 0.0 ==> Dot2(Flat(r.velocity), n) == -Restitution * w &&
                         Dot2(Flat(r.velocity), Flat(r.velocity))
                         == Restitution * Restitution * Dot2(Flat(b.velocity), Flat(b.velocity))) &&
            (w >= 0.0 ==> r.velocity == b.velocity)
  {
    var dir := Normalize2(n, d);
    PushMoves(b, d, dir);
    BounceAlongOffset(b, d, dir, n);
    PushOut(b, d, dir)
  }

  /** The wall response restated along the offset n = d dir from the closest
      point to the centre, which is what the simulation measures: a ball
      moving into the wall (w = v.n < 0) has that component reversed and
      damped by e and its horizontal speed scaled by e; any other ball keeps
      its velocity. */
  lemma BounceAlongOffset(b: Ball, d: real, dir: Vec2, n: Vec2)
    requires Dot2(dir, dir) == 1.0 && Scale2(d, dir) == n && 0.0 < d
    ensures var w := Dot2(Flat(b.velocity), n);
            var r := PushOut(b, d, dir);
            (w < 0.0 ==> Dot2(Flat(r.velocity), n) == -Restitution * w &&
                         Dot2(Flat(r.velocity), Flat(r.velocity))
                         == Restitution * Restitution * Dot2(Flat(b.velocity), Flat(b.velocity))) &&
            (w >= 0.0 ==> r.velocity == b.velocity)
  {
    var v := Flat(b.velocity);
    var r := PushOut(b, d, dir);
    Dot2Scaled(v, d, dir);
    Dot2Scaled(Flat(r.velocity), d, dir);
    var k := Dot2(v, dir);
    if Dot2(v, n) < 0.0 {
      assert k < 0.0 by {
        if k >= 0.0 { ProductNonNegative(d, k); }
      }
      ReflectReverses(v, dir);
      assert Dot2(Flat(r.velocity), n) == d * (-Restitution * k);
    } else {
      assert k >= 0.0 by {
        if k < 0.0 { assert d * k < 0.0 by { assert d * (-k) > 0.0; } }
      }
    }
  }

  lemma Dot2Scaled(v: Vec2, d: real, dir: Vec2)
    ensures Dot2(v, Scale2(d, dir)) == d * Dot2(v, dir)
  {
  }

  lemma Sub2Zero(a: Vec2, b: Vec2)
    ensures Sub2(a, b) == Origin2 <==> a == b
  {
  }

  /** A real push moves the centre. */
  lemma PushMoves(b: Ball, d: real, dir: Vec2)
    requires d < b.radius && Dot2(dir, dir) == 1.0
    ensures PushOut(b, d, dir) != b
  {
    var pen := b.radius - d;
    var r := PushOut(b, d, dir);
    ZeroLength2(dir);
    if dir.x != 0.0 {
      NonZeroProduct(pen, dir.x);
      assert r.position.x != b.position.x;
    } else {
      NonZeroProduct(pen, dir.z);
      assert r.position.z != b.position.z;
    }
  }

  // ---- After a contact the ball rests on the segment's surface ----

  lemma DotCombination(j: real, a: Vec2, k: real, c: Vec2, w: Vec2)
    ensures Dot2(Add2(Scale2(j, a), Scale2(k, c)), w) == j * Dot2(a, w) + k * Dot2(c, w)
  {
  }

  lemma QuotientAtLeastOne(x: real, q: real)
    requires 0.0 < q <= x
    ensures x / q >= 1.0
  {
    assert x / q * q == x;
  }

  lemma SignOfFactor(d: real, x: real, y: real)
    requires 0.0 < d && d * x == y
    ensures (y == 0.0 ==> x == 0.0) && (y <= 0.0 ==> x <= 0.0) && (y >= 0.0 ==> x >= 0.0)
  {
    assert x == y / d;
  }

  /** The scalar core of ParamAfterPush: t is the clamped projection p / q,
      the push along the normal adds radius * ds to the projection, where
      d * ds == p - t * q. The clamped new projection is t again. */
  lemma ClampAfterPush(p: real, q: real, t: real, d: real, radius: real, ds: real, p': real)
    requires 0.0 < q && 0.0 < d < radius
    requires t == ClampReal(p / q, 0.0, 1.0)
    requires d * ds == p - t * q
    requires p' == t * q + radius * ds
    ensures ClampReal(p' / q, 0.0, 1.0) == t
  {
    SignOfFactor(d, ds, p - t * q);
    if t == 0.0 {
      assert p / q <= 0.0;
      assert p <= 0.0 by { assert p == p / q * q; }
      ProductNonNegative(radius, -ds);
      assert p' / q <= 0.0;
    } else if t == 1.0 {
      assert p / q >= 1.0;
      assert p >= q by {
        ProductNonNegative(p / q - 1.0, q);
        assert (p / q - 1.0) * q == p / q * q - q;
      }
      ProductNonNegative(radius, ds);
      QuotientAtLeastOne(p', q);
    } else {
      assert p == t * q by { assert t == p / q; }
      assert ds == 0.0;
      assert p' / q == t;
    }
  }

  /** The vector facts of a push along the normal: the projection on s grows
      by radius * ds, and the offset from the closest point becomes radius * dir. */
  lemma PushedProjection(b: Vec2, s: Vec2, t: real, d: real, radius: real, dir: Vec2)
    requires Sub2(b, Scale2(t, s)) == Scale2(d, dir)
    ensures Dot2(Add2(b, Scale2(radius - d, dir)), s) == t * Dot2(s, s) + radius * Dot2(dir, s)
    ensures d * Dot2(dir, s) == Dot2(b, s) - t * Dot2(s, s)
    ensures Sub2(Add2(b, Scale2(radius - d, dir)), Scale2(t, s)) == Scale2(radius, dir)
  {
    assert b == Add2(Scale2(t, s), Scale2(d, dir));
    assert Add2(b, Scale2(radius - d, dir)) == Add2(Scale2(t, s), Scale2(radius, dir));
    DotCombination(t, s, radius, dir, s);
    DotCombination(t, s, d, dir, s);
  }

  /** Pushing the centre out along the contact normal does not move its
      closest point on the segment. */
  lemma ParamAfterPush(b: Vec2, s: Vec2, d: real, radius: real, dir: Vec2)
    requires s != Origin2 && 0.0 < d < radius && Dot2(dir, dir) == 1.0
    requires Sub2(b, Scale2(ClosestParam(b, s), s)) == Scale2(d, dir)
    ensures ClosestParam(Add2(b, Scale2(radius - d, dir)), s) == ClosestParam(b, s)
    ensures Sub2(Add2(b, Scale2(radius - d, dir)), Scale2(ClosestParam(b, s), s)) == Scale2(radius, dir)
  {
    var t := ClosestParam(b, s);
    var b' := Add2(b, Scale2(radius - d, dir));
    PushedProjection(b, s, t, d, radius, dir);
    assert ClosestParam(b', s) == t by {
      SpanPositive(s);
      ClampAfterPush(Dot2(b, s), Dot2(s, s), t, d, radius, Dot2(dir, s), Dot2(b', s));
    }
  }

  /** After a contact the centre sits exactly one radius from the segment, so
      the ball no longer touches it: a second test of the same segment is a
      no-op. */
  lemma HitClears(b: Ball, seg: BoundingSegment, sqrt: real -> real)
    requires IsSqrt(sqrt) && Span(seg) != Origin2
    ensures HitSegment(b, seg, sqrt).Ok? ==>
              !Touches(HitSegment(b, seg, sqrt).value, seg) &&
              HitSegment(HitSegment(b, seg, sqrt).value, seg, sqrt) == HitSegment(b, seg, sqrt)
  {
    var r := HitSegment(b, seg, sqrt);
    if r.Ok? && r != Ok(b) {
      var n := Sub2(Flat(b.position), ClosestPoint(seg, Flat(b.position)));
      var d := Length2(n, sqrt);
      var dir := Normalize2(n, d);
      assert r.value == PushOut(b, d, dir);
      PushedClear(b, seg, d, dir);
    }
  }

  /** The push out along the contact normal leaves the centre exactly one
      radius from the segment. */
  lemma PushedClear(b: Ball, seg: BoundingSegment, d: real, dir: Vec2)
    requires Span(seg) != Origin2 && 0.0 < d < b.radius && Dot2(dir, dir) == 1.0
    requires Sub2(Flat(b.position), ClosestPoint(seg, Flat(b.position))) == Scale2(d, dir)
    ensures SqDistance(seg, Flat(PushOut(b, d, dir).position)) == b.radius * b.radius
    ensures !Touches(PushOut(b, d, dir), seg)
  {
    var s := Span(seg);
    var rel := Sub2(Flat(b.position), Start(seg));
    var t := ClosestParam(rel, s);
    assert Sub2(rel, Scale2(t, s)) == Scale2(d, dir);
    ParamAfterPush(rel, s, d, b.radius, dir);
    var b' := PushOut(b, d, dir);
    assert Sub2(Flat(b'.position), Start(seg)) == Add2(rel, Scale2(b.radius - d, dir));
    assert Sub2(Flat(b'.position), ClosestPoint(seg, Flat(b'.position))) == Scale2(b.radius, dir);
    ScaledUnitLength2(b.radius, dir);
  }

  lemma ScaledUnitLength2(k: real, dir: Vec2)
    requires Dot2(dir, dir) == 1.0
    ensures Dot2(Scale2(k, dir), Scale2(k, dir)) == k * k
  {
    assert Dot2(Scale2(k, dir), Scale2(k, dir)) == (k * k) * Dot2(dir, dir);
  }

  // ---- A pass over a list of segments ----

  /** Every segment has two distinct end points in the x/z plane. */
  ghost predicate AllProper(segs: seq<BoundingSegment>) {
    forall k :: 0 <= k < |segs| ==> Span(segs[k]) != Origin2
  }

  /** The ball touches none of the segments. */
  ghost predicate ClearOfAll(b: Ball, segs: seq<BoundingSegment>)
    requires AllProper(segs)
  {
    forall k :: 0 <= k < |segs| ==> !Touches(b, segs[k])
  }

  /** The segment loop: each segment in order tests the ball as left by the
      previous one. On success the last segment of the list is cleared. */
  function SegmentPass(b: Ball, segs: seq<BoundingSegment>, sqrt: real -> real): (r: Outcome<Ball>)
    requires IsSqrt(sqrt)
    ensures r.Ok? ==> KeepsHeight(b, r.value)
    ensures r.Ok? && segs != [] ==> Span(segs[|segs| - 1]) != Origin2 && !Touches(r.value, segs[|segs| - 1])
    ensures !AllProper(segs) ==> r.Degenerate?
    decreases |segs|
  {
    if segs == [] then Ok(b)
    else
      match HitSegment(b, segs[0], sqrt)
      case Degenerate => Degenerate
      case Ok(b1) =>
        HitClears(b, segs[0], sqrt);
        assert forall k :: 1 <= k < |segs| ==> segs[k] == segs[1..][k - 1];
        SegmentPass(b1, segs[1..], sqrt)
  }

  /** A ball clear of every segment passes the loop unchanged. */
  lemma {:induction false} ClearPassesThrough(b: Ball, segs: seq<BoundingSegment>, sqrt: real -> real)
    requires IsSqrt(sqrt) && AllProper(segs) && ClearOfAll(b, segs)
    ensures SegmentPass(b, segs, sqrt) == Ok(b)
  {
    if segs != [] {
      assert !Touches(b, segs[0]);
      assert AllProper(segs[1..]) && ClearOfAll(b, segs[1..]) by {
        forall k | 0 <= k < |segs[1..]|
          ensures Span(segs[1..][k]) != Origin2 && !Touches(b, segs[1..][k])
        {
          assert segs[1..][k] == segs[k + 1];
        }
      }
      ClearPassesThrough(b, segs[1..], sqrt);
    }
  }
}
