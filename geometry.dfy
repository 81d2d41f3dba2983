/** Plane geometry of the demo: the square window, its points and the
    inside-the-circle test that classifies every sample. */
module Geometry {

  /** Side length of the square window in pixels; it must be odd. */
  const ScreenSideSize: int := 901

  /** The start-up assertion holds, and because the side is odd the
      square has an exact integer centre at `ScreenSideSize / 2`. */
  lemma ScreenSideSizeIsOdd()
    ensures ScreenSideSize % 2 != 0
    ensures 2 * (ScreenSideSize / 2) + 1 == ScreenSideSize
  {
  }

  /** A point of the plane. The drawing colour and dot radius that the
      program attaches to a point are rendering only. */
  datatype Point = Point(x: int, y: int)

  /** A circle: the program reuses its point class for it, with a radius. */
  datatype Circle = Circle(centre: Point, radius: int)

  function Abs(n: int): (r: nat)
    ensures r == n || r == -n
  {
    if n < 0 then -n else n
  }

  /** The square of the Euclidean distance from `p` to `q`, built from the
      absolute coordinate differences as the program does. */
  function SquaredDistance(p: Point, q: Point): (d: nat)
    ensures d == 0 <==> p == q
  {
    var dx := Abs(q.x - p.x);
    var dy := Abs(q.y - p.y);
    assert dx != 0 ==> dx * dx > 0 by { if dx != 0 { SquareStrictlyMonotone(0, dx); } }
    assert dy != 0 ==> dy * dy > 0 by { if dy != 0 { SquareStrictlyMonotone(0, dy); } }
    dx * dx + dy * dy
  }

  lemma SquareStrictlyMonotone(a: nat, b: nat)
    requires a < b
    ensures a * a < b * b
  {
    assert a * a <= a * b by { assert a * (b - a) >= 0; }
    assert a * b < b * b by { assert (b - a) * b > 0; }
  }

  /** A point is inside the circle unless its distance to the centre
      exceeds the radius, so a point on the circle counts as inside.
      Coordinates are integers, so distances are compared through their
      squares; a negative radius is exceeded by every distance. */
  predicate PointInCircle(p: Point, c: Circle): (inside: bool)
    ensures inside ==> 0 <= c.radius
    ensures p == c.centre ==> (inside <==> 0 <= c.radius)
  {
    0 <= c.radius && SquaredDistance(p, c.centre) <= c.radius * c.radius
  }

  /** The integer test agrees with the program's real-valued one: for the
      non-negative real `distance` whose square is the squared distance,
      the point is outside exactly when `distance` exceeds the radius. */
  lemma PointInCircleMatchesDistanceTest(p: Point, c: Circle, distance: real)
    requires 0.0 <= distance
    requires distance * distance == SquaredDistance(p, c.centre) as real
    ensures !PointInCircle(p, c) <==> distance > c.radius as real
  {
    var r := c.radius as real;
    var d2 := SquaredDistance(p, c.centre);
    assert (c.radius * c.radius) as real == r * r;
    if c.radius < 0 {
    } else if distance > r {
      calc {
        r * r;
      <=
        r * distance;
      <
        distance * distance;
      ==
        d2 as real;
      }
      assert d2 > c.radius * c.radius;
    } else {
      calc {
        d2 as real;
      ==
        distance * distance;
      <=
        distance * r;
      <=
        r * r;
      ==
        (c.radius * c.radius) as real;
      }
    }
  }

  /** Classification depends on the point only through the absolute
      horizontal and vertical offsets from the centre. */
  lemma ClassificationDependsOnOffsets(p: Point, q: Point, c: Circle)
    requires Abs(c.centre.x - p.x) == Abs(c.centre.x - q.x)
    requires Abs(c.centre.y - p.y) == Abs(c.centre.y - q.y)
    ensures PointInCircle(p, c) <==> PointInCircle(q, c)
  {
  }

  /** The mirror image of `p` in the vertical line through `centre`. */
  function MirrorX(p: Point, centre: Point): (q: Point)
    ensures q.y == p.y && q.x - centre.x == centre.x - p.x
  {
    Point(2 * centre.x - p.x, p.y)
  }

  /** The mirror image of `p` in the horizontal line through `centre`. */
  function MirrorY(p: Point, centre: Point): (q: Point)
    ensures q.x == p.x && q.y - centre.y == centre.y - p.y
  {
    Point(p.x, 2 * centre.y - p.y)
  }

  /** Reflecting a point on either axis through the centre keeps its class. */
  lemma MirrorKeepsClassification(p: Point, c: Circle)
    ensures PointInCircle(MirrorX(p, c.centre), c) <==> PointInCircle(p, c)
    ensures PointInCircle(MirrorY(p, c.centre), c) <==> PointInCircle(p, c)
  {
    ClassificationDependsOnOffsets(MirrorX(p, c.centre), p, c);
    ClassificationDependsOnOffsets(MirrorY(p, c.centre), p, c);
  }

  /** A point inside a circle is no further than the radius from the centre
      along either axis. */
  lemma InCircleWithinRadius(p: Point, c: Circle)
    requires PointInCircle(p, c)
    ensures Abs(c.centre.x - p.x) <= c.radius
    ensures Abs(c.centre.y - p.y) <= c.radius
  {
    var dx := Abs(c.centre.x - p.x);
    var dy := Abs(c.centre.y - p.y);
    if c.radius < dx {
      SquareStrictlyMonotone(c.radius, dx);
    }
    if c.radius < dy {
      SquareStrictlyMonotone(c.radius, dy);
    }
  }

  /** The circle every sample is tested against: centred on the window,
      whose default point position is the centre, with half the side as
      radius, so that it is inscribed in the window. */
  function ReferenceCircle(): (c: Circle)
    ensures 0 <= c.radius && 2 * c.radius + 1 == ScreenSideSize
    ensures c.centre == Point(c.radius, c.radius)
  {
    Circle(Point(ScreenSideSize / 2, ScreenSideSize / 2), ScreenSideSize / 2)
  }

  /** The closed square `[0, ScreenSideSize] x [0, ScreenSideSize]` that
      random samples are drawn from. */
  predicate InSquare(p: Point)
  {
    0 <= p.x <= ScreenSideSize && 0 <= p.y <= ScreenSideSize
  }

  /** Every point inside the reference circle lies on a pixel of the window;
      hence any point outside the sampling square, such as a mouse position
      off the window, classifies as outside. */
  lemma ReferenceCircleInscribed(p: Point)
    requires PointInCircle(p, ReferenceCircle())
    ensures 0 <= p.x < ScreenSideSize && 0 <= p.y < ScreenSideSize
    ensures InSquare(p)
  {
    InCircleWithinRadius(p, ReferenceCircle());
  }

  /** The worked cases: the centre is inside, a corner is outside, a point
      at distance exactly the radius is inside, and one step further is not. */
  lemma ReferenceCircleExamples()
    ensures PointInCircle(Point(450, 450), ReferenceCircle())
    ensures !PointInCircle(Point(0, 0), ReferenceCircle())
    ensures PointInCircle(Point(900, 450), ReferenceCircle())
    ensures !PointInCircle(Point(901, 450), ReferenceCircle())
  {
  }
}
