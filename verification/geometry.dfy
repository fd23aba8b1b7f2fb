/**
  Tile geometry of the scope: the 16 x 16 grid of tile centres and the test
  that decides whether a segment is relevant to a tile.

  Coordinates are `real`, an idealisation of the source's `f32` arithmetic.
  The test `8 * |disp| < 1` is compared squared, `64 * |disp|^2 < 1`, which is
  the same condition for a non-negative length.
 */
module Geometry {
  import opened Packing

  datatype Vec2 = Vec2(x: real, y: real)

  function Add(a: Vec2, b: Vec2): Vec2
  {
    Vec2(a.x + b.x, a.y + b.y)
  }

  function Sub(a: Vec2, b: Vec2): Vec2
  {
    Vec2(a.x - b.x, a.y - b.y)
  }

  function Scale(a: Vec2, k: real): Vec2
  {
    Vec2(a.x * k, a.y * k)
  }

  function Dot(a: Vec2, b: Vec2): real
  {
    a.x * b.x + a.y * b.y
  }

  /** Squared length. */
  function Norm2(a: Vec2): (r: real)
    ensures r >= 0.0
  {
    a.x * a.x + a.y * a.y
  }

  /** z-component of the cross product; zero exactly for parallel vectors. */
  function Cross(a: Vec2, b: Vec2): real
  {
    a.x * b.y - a.y * b.x
  }

  /** The point at parameter `t` on the segment from `s` to `e`. */
  function PointAt(s: Vec2, e: Vec2, t: real): Vec2
  {
    Add(s, Scale(Sub(e, s), t))
  }

  /** Number of tiles along each axis of the grid. */
  const GridSide: nat := 16
  /** Number of tiles; tile `i` is at column `i % 16`, row `i / 16`. */
  const TileCount: nat := 256

  /**
    Centre of tile `i` in normalised device coordinates:
    `((x - 7.5) / 8, (y - 7.5) / 8)` for column `x` and row `y`.
   */
  function TileCenter(i: nat): (c: Vec2)
    requires i < TileCount
    ensures -1.0 < c.x < 1.0 && -1.0 < c.y < 1.0
  {
    Vec2(((i % GridSide) as real - 7.5) / 8.0, ((i / GridSide) as real - 7.5) / 8.0)
  }

  /** The row-major index `16 * y + x` of the nested tile loops names column `x` and row `y`. */
  lemma TileIndexRowMajor(x: nat, y: nat)
    requires x < GridSide && y < GridSide
    ensures 16 * y + x < TileCount
    ensures (16 * y + x) % GridSide == x && (16 * y + x) / GridSide == y
    ensures TileCenter(16 * y + x) == Vec2((x as real - 7.5) / 8.0, (y as real - 7.5) / 8.0)
  {
  }

  /**
    Parameter of the point on the segment closest to `c`: the projection of
    `c - s` onto `e - s`, clamped to [0, 1]; 0 for a degenerate segment.
   */
  function ClosestParam(c: Vec2, s: Vec2, e: Vec2): (t: real)
    ensures 0.0 <= t <= 1.0
  {
    var u := Sub(c, s);
    var v := Sub(e, s);
    if Dot(v, v) != 0.0 then Clamp(Dot(u, v) / Dot(v, v), 0.0, 1.0) else 0.0
  }

  /**
    Displacement from the segment to the tile centre, computed as the loop
    body does: start from `u = c - s` and subtract the clamped projection
    when the segment is not degenerate. The result always points from a
    point of the segment to `c`.
   */
  function Displacement(c: Vec2, s: Vec2, e: Vec2): (d: Vec2)
    ensures d == Sub(c, PointAt(s, e, ClosestParam(c, s, e)))
  {
    var u := Sub(c, s);
    var v := Sub(e, s);
    var disp := u;
    if Dot(v, v) != 0.0 then
      var projPosition := Dot(u, v) / Dot(v, v);
      var proj := Scale(v, Clamp(projPosition, 0.0, 1.0));
      Sub(disp, proj)
    else
      disp
  }

  /**
    The tile with centre `c` accepts the segment from `s` to `e`: `disp` is
    shorter than 1/8, tested without the square root. An accepted segment
    passes within 1/8 of `c` at its closest point.
   */
  predicate Accepts(c: Vec2, s: Vec2, e: Vec2)
    ensures Accepts(c, s, e) ==> NearAt(c, s, e, ClosestParam(c, s, e))
  {
    64.0 * Norm2(Displacement(c, s, e)) < 1.0
  }

  /** The segment passes within 1/8 of `c` at parameter `t`. */
  predicate NearAt(c: Vec2, s: Vec2, e: Vec2, t: real)
  {
    0.0 <= t <= 1.0 && 64.0 * Norm2(Sub(c, PointAt(s, e, t))) < 1.0
  }

  /** `|u - v t|^2` as a quadratic in `t`, with `n = |u|^2`, `d = u.v`, `q = |v|^2`. */
  function Quadratic(n: real, d: real, q: real, t: real): real
  {
    n - 2.0 * t * d + t * t * q
  }

  lemma NormOfOffset(u: Vec2, v: Vec2, t: real)
    ensures Norm2(Sub(u, Scale(v, t))) == Quadratic(Norm2(u), Dot(u, v), Dot(v, v), t)
  {
    assert (u.x - v.x * t) * (u.x - v.x * t) == u.x * u.x - 2.0 * t * (u.x * v.x) + t * t * (v.x * v.x);
    assert (u.y - v.y * t) * (u.y - v.y * t) == u.y * u.y - 2.0 * t * (u.y * v.y) + t * t * (v.y * v.y);
  }

  lemma OffsetFromCentre(c: Vec2, s: Vec2, e: Vec2, t: real)
    ensures Sub(c, PointAt(s, e, t)) == Sub(Sub(c, s), Scale(Sub(e, s), t))
  {
  }

  lemma SquareNonNegative(a: real)
    ensures a * a >= 0.0
  {
    if a < 0.0 {
      assert a * a == (-a) * (-a);
    }
  }

  lemma ProductNonNegative(a: real, b: real)
    requires a >= 0.0 && b >= 0.0
    ensures a * b >= 0.0
  {
  }

  /**
    A degenerate direction is orthogonal to everything: were `Dot(u, v)`
    non-zero, stepping along `v` would make a squared length negative.
   */
  lemma DegenerateDotZero(u: Vec2, v: Vec2)
    requires Dot(v, v) == 0.0
    ensures Dot(u, v) == 0.0
  {
    var d := Dot(u, v);
    if d != 0.0 {
      var lam := (Norm2(u) + 1.0) / (2.0 * d);
      assert 2.0 * lam * d == Norm2(u) + 1.0;
      NormOfOffset(u, v, lam);
    }
  }

  /** The difference of two values of the quadratic, factored around its vertex `p`. */
  lemma QuadraticDifference(n: real, d: real, q: real, p: real, a: real, b: real)
    requires p * q == d
    ensures Quadratic(n, d, q, a) - Quadratic(n, d, q, b) == q * ((a - b) * (a + b - 2.0 * p))
  {
    var h := a - b;
    assert Quadratic(n, d, q, a) - Quadratic(n, d, q, b) == q * (a * a - b * b) - 2.0 * d * h;
    assert a * a - b * b == h * (a + b);
    assert d * h == q * (p * h);
    assert h * (a + b - 2.0 * p) == h * (a + b) - 2.0 * (p * h);
  }

  /** Over [0, 1], no point is nearer the vertex `p` than `p` clamped to [0, 1]. */
  lemma ClampedVertexGap(p: real, t: real)
    requires 0.0 <= t <= 1.0
    ensures (t - Clamp(p, 0.0, 1.0)) * (t + Clamp(p, 0.0, 1.0) - 2.0 * p) >= 0.0
  {
    if p < 0.0 {
      ProductNonNegative(t, t - 2.0 * p);
    } else if p > 1.0 {
      assert (t - 1.0) * (t + 1.0 - 2.0 * p) == (1.0 - t) * (2.0 * p - 1.0 - t);
      ProductNonNegative(1.0 - t, 2.0 * p - 1.0 - t);
    } else {
      SquareNonNegative(t - p);
    }
  }

  /**
    The squared distance along the segment is a convex quadratic in the
    parameter; over [0, 1] it is smallest at the clamped vertex `p`.
   */
  lemma QuadraticMin(n: real, d: real, q: real, p: real, t: real)
    requires q > 0.0 && p * q == d && 0.0 <= t <= 1.0
    ensures Quadratic(n, d, q, t) >= Quadratic(n, d, q, Clamp(p, 0.0, 1.0))
  {
    var tc := Clamp(p, 0.0, 1.0);
    QuadraticDifference(n, d, q, p, t, tc);
    ClampedVertexGap(p, t);
    ProductNonNegative(q, (t - tc) * (t + tc - 2.0 * p));
  }

  /** For a proper direction `v`, the clamped projection minimises `|u - v t|` over [0, 1]. */
  lemma ClampedProjectionIsMinimal(u: Vec2, v: Vec2, t: real)
    requires Dot(v, v) != 0.0 && 0.0 <= t <= 1.0
    ensures Norm2(Sub(u, Scale(v, Clamp(Dot(u, v) / Dot(v, v), 0.0, 1.0)))) <= Norm2(Sub(u, Scale(v, t)))
  {
    var q := Dot(v, v);
    assert q > 0.0 by {
      assert Norm2(v) == q;
    }
    var p := Dot(u, v) / q;
    assert p * q == Dot(u, v);
    var tc := Clamp(p, 0.0, 1.0);
    var n, d := Norm2(u), Dot(u, v);
    NormOfOffset(u, v, t);
    NormOfOffset(u, v, tc);
    QuadraticMin(n, d, q, p, t);
  }

  /** No point of the segment is closer to `c` than the clamped projection. */
  lemma ClosestPointIsMinimal(c: Vec2, s: Vec2, e: Vec2, t: real)
    requires 0.0 <= t <= 1.0
    ensures Norm2(Displacement(c, s, e)) <= Norm2(Sub(c, PointAt(s, e, t)))
  {
    var u := Sub(c, s);
    var v := Sub(e, s);
    OffsetFromCentre(c, s, e, t);
    if Dot(v, v) == 0.0 {
      NormOfOffset(u, v, t);
      DegenerateDotZero(u, v);
    } else {
      ClampedProjectionIsMinimal(u, v, t);
    }
  }

  /**
    The acceptance test holds exactly when some point of the segment lies
    within 1/8 of the tile centre: the clamped projection is a witness
    (forward direction) and no other point is closer (backward direction).
   */
  lemma AcceptsIffNearSegment(c: Vec2, s: Vec2, e: Vec2, t: real)
    ensures Accepts(c, s, e) ==> NearAt(c, s, e, ClosestParam(c, s, e))
    ensures NearAt(c, s, e, t) ==> Accepts(c, s, e)
  {
    if 0.0 <= t <= 1.0 {
      ClosestPointIsMinimal(c, s, e, t);
    }
  }

  /** Both coordinates of a vector shorter than 1/8 are within 1/8 of zero. */
  lemma ShortVectorCoordinates(d: Vec2)
    requires 64.0 * Norm2(d) < 1.0
    ensures -0.125 < d.x < 0.125 && -0.125 < d.y < 0.125
  {
    var x, y := d.x, d.y;
    SquareNonNegative(x);
    SquareNonNegative(y);
    assert Norm2(d) == x * x + y * y;
    assert 64.0 * (x * x) < 1.0;
    assert 64.0 * (y * y) < 1.0;
  }

  lemma CrossOfParallel(v: Vec2, a: real, b: real)
    ensures Cross(Scale(v, a), Scale(v, b)) == 0.0
  {
    assert (v.x * a) * (v.y * b) == (v.x * v.y) * (a * b);
    assert (v.y * a) * (v.x * b) == (v.x * v.y) * (a * b);
  }

  /**
    No segment is accepted by the three corner tiles 0, 15 and 240 together:
    the three closest points would be collinear, yet each lies within 1/8 of
    a corner of a square of side 15/8, and those corners are far from collinear.
   */
  lemma CornersNotAllAccept(s: Vec2, e: Vec2)
    ensures !(Accepts(TileCenter(0), s, e) && Accepts(TileCenter(15), s, e) && Accepts(TileCenter(240), s, e))
  {
    var c0, c1, c2 := TileCenter(0), TileCenter(15), TileCenter(240);
    if Accepts(c0, s, e) && Accepts(c1, s, e) && Accepts(c2, s, e) {
      var t0, t1, t2 := ClosestParam(c0, s, e), ClosestParam(c1, s, e), ClosestParam(c2, s, e);
      var d0, d1, d2 := Displacement(c0, s, e), Displacement(c1, s, e), Displacement(c2, s, e);
      ShortVectorCoordinates(d0);
      ShortVectorCoordinates(d1);
      ShortVectorCoordinates(d2);
      var p0, p1, p2 := PointAt(s, e, t0), PointAt(s, e, t1), PointAt(s, e, t2);
      var v := Sub(e, s);
      assert Sub(p1, p0) == Scale(v, t1 - t0);
      assert Sub(p2, p0) == Scale(v, t2 - t0);
      CrossOfParallel(v, t1 - t0, t2 - t0);
    }
  }
}
