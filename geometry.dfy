/** Collision geometry of the game: points, axis-aligned rectangles and the
    circle-versus-rectangle test used for the ball against the paddle. */
module Geometry {

  /** A point or a velocity in field units. */
  datatype Vector2 = Vector2(x: real, y: real)

  /** An axis-aligned rectangle given by its top-left corner and its extent. */
  datatype Rectangle = Rectangle(x: real, y: real, width: real, height: real)

  function Abs(v: real): (r: real)
    ensures r >= 0.0 && (r == v || r == -v)
  {
    if v < 0.0 then -v else v
  }

  ghost predicate WellFormed(rect: Rectangle) {
    rect.width >= 0.0 && rect.height >= 0.0
  }

  /** The closed rectangle contains p. */
  ghost predicate InRect(p: Vector2, rect: Rectangle) {
    rect.x <= p.x <= rect.x + rect.width && rect.y <= p.y <= rect.y + rect.height
  }

  function SquaredDistance(a: Vector2, b: Vector2): (d: real)
    ensures d >= 0.0
  {
    var dx, dy := a.x - b.x, a.y - b.y;
    dx * dx + dy * dy
  }

  /** The point of the rectangle nearest to c, found by moving each coordinate
      of c onto the nearest edge when it lies outside that edge. */
  function NearestPoint(c: Vector2, rect: Rectangle): (p: Vector2)
    ensures WellFormed(rect) ==> InRect(p, rect)
    ensures InRect(c, rect) ==> p == c
  {
    var testX :=
      if c.x < rect.x then rect.x
      else if c.x > rect.x + rect.width then rect.x + rect.width
      else c.x;
    var testY :=
      if c.y < rect.y then rect.y
      else if c.y > rect.y + rect.height then rect.y + rect.height
      else c.y;
    Vector2(testX, testY)
  }

  /** The circle of the given radius around center touches or overlaps rect.
      The distance sqrt(d) <= radius is decided as radius >= 0 && d <= radius^2,
      which is the same comparison for every d >= 0. */
  function CheckCollisionCircleRec(center: Vector2, radius: real, rect: Rectangle): (hit: bool)
    ensures hit ==> radius >= 0.0
    ensures InRect(center, rect) ==> (hit <==> radius >= 0.0)
  {
    radius >= 0.0 && SquaredDistance(center, NearestPoint(center, rect)) <= radius * radius
  }

  lemma SquareMonotone(a: real, b: real)
    requires 0.0 <= a <= b
    ensures a * a <= b * b
  {
    assert a * a <= a * b;
  }

  /** Along one axis, moving onto the nearest end of [lo, hi] is never farther
      than moving to any other value of [lo, hi]. */
  lemma NearestOnAxis(c: real, lo: real, hi: real, q: real)
    requires lo <= q <= hi
    ensures var t := if c < lo then lo else if c > hi then hi else c;
            (c - t) * (c - t) <= (c - q) * (c - q)
  {
    if c < lo {
      SquareMonotone(lo - c, q - c);
      assert (c - lo) * (c - lo) == (lo - c) * (lo - c);
      assert (c - q) * (c - q) == (q - c) * (q - c);
    } else if c > hi {
      SquareMonotone(c - hi, c - q);
    }
  }

  /** No point of a well-formed rectangle is nearer to c than NearestPoint. */
  lemma NearestPointIsNearest(c: Vector2, rect: Rectangle, q: Vector2)
    requires WellFormed(rect) && InRect(q, rect)
    ensures SquaredDistance(c, NearestPoint(c, rect)) <= SquaredDistance(c, q)
  {
    NearestOnAxis(c.x, rect.x, rect.x + rect.width, q.x);
    NearestOnAxis(c.y, rect.y, rect.y + rect.height, q.y);
  }

  /** The collision test holds exactly when some point of the closed rectangle
      lies within the radius of the centre: the boundary counts as a hit. */
  lemma CollisionIffPointWithinRadius(center: Vector2, radius: real, rect: Rectangle)
    requires WellFormed(rect)
    ensures CheckCollisionCircleRec(center, radius, rect) <==>
            radius >= 0.0 &&
            exists q :: InRect(q, rect) && SquaredDistance(center, q) <= radius * radius
  {
    if CheckCollisionCircleRec(center, radius, rect) {
      var p := NearestPoint(center, rect);
      assert InRect(p, rect) && SquaredDistance(center, p) <= radius * radius;
    }
    if radius >= 0.0 && exists q :: InRect(q, rect) && SquaredDistance(center, q) <= radius * radius {
      var q :| InRect(q, rect) && SquaredDistance(center, q) <= radius * radius;
      NearestPointIsNearest(center, rect, q);
    }
  }

  lemma PositiveProduct(a: real, b: real)
    requires a > 0.0 && b > 0.0
    ensures a * b > 0.0
  {
  }

  lemma SquareStrictlyMonotone(a: real, b: real)
    requires a > b >= 0.0
    ensures a * a > b * b
  {
    PositiveProduct(a - b, a + b);
    assert a * a - b * b == (a - b) * (a + b);
  }

  lemma SquareBound(d: real, r: real)
    requires r >= 0.0 && d * d <= r * r
    ensures Abs(d) <= r
  {
    if d > r {
      SquareStrictlyMonotone(d, r);
    } else if -d > r {
      assert (-d) * (-d) == d * d;
      SquareStrictlyMonotone(-d, r);
    }
  }

  /** A circle that hits a well-formed rectangle has its centre no farther than
      the radius outside the rectangle's extent on each axis. */
  lemma CollisionWithinReach(center: Vector2, radius: real, rect: Rectangle)
    requires WellFormed(rect) && CheckCollisionCircleRec(center, radius, rect)
    ensures rect.x - radius <= center.x <= rect.x + rect.width + radius
    ensures rect.y - radius <= center.y <= rect.y + rect.height + radius
  {
    var p := NearestPoint(center, rect);
    var dx, dy := center.x - p.x, center.y - p.y;
    assert SquaredDistance(center, p) == dx * dx + dy * dy <= radius * radius;
    assert 0.0 <= dx * dx && 0.0 <= dy * dy;
    SquareBound(dx, radius);
    SquareBound(dy, radius);
  }
}
