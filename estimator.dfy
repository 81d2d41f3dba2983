/** The estimator's arithmetic: the pi estimate computed from the two
    counters, and the number of recorded samples that fall inside. */
module Estimator {
  import opened Geometry

  /** Four times the fraction of counted points that are inside. The
      division needs a non-zero denominator; the simulation guarantees it
      by seeding the outside counter with 1. */
  function Estimate(inside: nat, outside: nat): (e: real)
    requires inside + outside > 0
    ensures 0.0 <= e <= 4.0
    ensures e == 0.0 <==> inside == 0
    ensures e == 4.0 <==> outside == 0
  {
    var total := (inside + outside) as real;
    assert 4.0 * inside as real <= 4.0 * total;
    4.0 * inside as real / total
  }

  /** One more inside point never lowers the estimate and raises it unless
      there are no outside points; one more outside point never raises it
      and lowers it unless there are no inside points. */
  lemma EstimateMonotone(inside: nat, outside: nat)
    requires inside + outside > 0
    ensures Estimate(inside, outside) <= Estimate(inside + 1, outside)
    ensures Estimate(inside, outside) < Estimate(inside + 1, outside) <==> outside > 0
    ensures Estimate(inside, outside + 1) <= Estimate(inside, outside)
    ensures Estimate(inside, outside + 1) < Estimate(inside, outside) <==> inside > 0
  {
    var i, o := inside as real, outside as real;
    var t := i + o;
    assert Estimate(inside, outside) == 4.0 * i / t;
    assert Estimate(inside + 1, outside) == 4.0 * (i + 1.0) / (t + 1.0);
    assert Estimate(inside, outside + 1) == 4.0 * i / (t + 1.0);
    // Cross-multiplying by the positive denominators t and t + 1:
    // (i + 1) * t - i * (t + 1) == o and i * t - i * (t + 1) == -i.
    assert (i + 1.0) * t - i * (t + 1.0) == o;
    CompareQuotients(4.0 * i, t, 4.0 * (i + 1.0), t + 1.0);
    CompareQuotients(4.0 * i, t + 1.0, 4.0 * i, t);
  }

  /** a / b compared with c / d for positive denominators, by cross-multiplying. */
  lemma CompareQuotients(a: real, b: real, c: real, d: real)
    requires b > 0.0 && d > 0.0
    ensures a / b <= c / d <==> a * d <= c * b
    ensures a / b < c / d <==> a * d < c * b
  {
    assert a / b * (b * d) == a * d;
    assert c / d * (b * d) == c * b;
  }

  /** How many of `points` lie inside circle `c`. */
  function InsideCount(points: seq<Point>, c: Circle): (n: nat)
    ensures n <= |points|
  {
    if points == [] then 0
    else
      InsideCount(points[..|points| - 1], c)
        + (if PointInCircle(points[|points| - 1], c) then 1 else 0)
  }

  /** Recording one more point adds one to the count exactly when it is inside. */
  lemma InsideCountAppend(points: seq<Point>, p: Point, c: Circle)
    ensures InsideCount(points + [p], c)
         == InsideCount(points, c) + (if PointInCircle(p, c) then 1 else 0)
  {
    assert (points + [p])[..|points|] == points;
  }
}
