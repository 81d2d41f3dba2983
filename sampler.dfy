/** The sampler: turns two draws of the random source into a sample point.
    The random source itself is outside the model; its draws arrive as
    arguments whose only guarantee is the inclusive range it draws from. */
module Sampler {
  import opened Geometry

  /** A value the random source can produce: `randint(0, ScreenSideSize)`
      includes both ends, so the far edge of the square can be drawn. */
  predicate IsDraw(n: int)
  {
    0 <= n <= ScreenSideSize
  }

  /** A random point built from two independent draws, x first. */
  function ChooseRandomPoint(drawX: int, drawY: int): (p: Point)
    requires IsDraw(drawX) && IsDraw(drawY)
    ensures InSquare(p)
    ensures p.x == drawX && p.y == drawY
  {
    Point(drawX, drawY)
  }

  /** Every point of the closed sampling square can be chosen, so the
      points the sampler yields are exactly the points of that square. */
  lemma RandomPointCoversSquare(p: Point)
    requires InSquare(p)
    ensures IsDraw(p.x) && IsDraw(p.y) && ChooseRandomPoint(p.x, p.y) == p
  {
  }
}
