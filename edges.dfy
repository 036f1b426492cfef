/**
 * The rasterizer's integer geometry (Core/Rasterizer.h): edge functions
 * stepped incrementally across the pixel grid, the inclusive coverage test,
 * and the segment-intersection tests used to classify 16x16 blocks.
 *
 * `EdgeEquation` and `EdgeEquationSet` are plain structs copied by value in
 * the source (`setX = setY`, `temp = setX`), so they are datatypes here and
 * `incrementX`/`incrementY` return the stepped copy.
 */
module EdgeEquations {
  import opened Vectors

  /** `blockSize`. */
  const BlockSize: int := 16

  /** The 2-D cross product, the reference the edge functions are checked against. */
  function Cross(a: Vec2I, b: Vec2I): int
  {
    a.x * b.y - a.y * b.x
  }

  // ------------------------------------------------------------ one edge

  /** The line `i*x + j*y + k` and its value at the current pixel. */
  datatype EdgeEquation = EdgeEquation(i: int, j: int, k: int, value: int)

  /** `EdgeEquation(p0, p1, p)`. */
  function MakeEdge(p0: Vec2I, p1: Vec2I, p: Vec2I): EdgeEquation
  {
    var i := p0.y - p1.y;
    var j := p1.x - p0.x;
    var k := p0.x * p1.y - p0.y * p1.x;
    EdgeEquation(i, j, k, p.x * i + p.y * j + k)
  }

  /** `incrementX(step)`. */
  function IncrementX(e: EdgeEquation, step: int): EdgeEquation
  {
    e.(value := e.value + step * e.i)
  }

  /** `incrementY(step)`. */
  function IncrementY(e: EdgeEquation, step: int): EdgeEquation
  {
    e.(value := e.value + step * e.j)
  }

  /** The edge value is the cross product of the edge with the vector to the pixel. */
  lemma EdgeIsCross(p0: Vec2I, p1: Vec2I, p: Vec2I)
    ensures MakeEdge(p0, p1, p).value == Cross(Sub2I(p1, p0), Sub2I(p, p0))
  {
    var dx, dy := p1.x - p0.x, p1.y - p0.y;
    calc {
      Cross(Sub2I(p1, p0), Sub2I(p, p0));
      dx * (p.y - p0.y) - dy * (p.x - p0.x);
      { MulSubR(dx, p.y, p0.y); MulSubR(dy, p.x, p0.x); }
      dx * p.y - dx * p0.y - (dy * p.x - dy * p0.x);
      p.x * (p0.y - p1.y) + p.y * (p1.x - p0.x) + (p0.x * p1.y - p0.y * p1.x);
    }
  }

  lemma MulSubR(a: int, b: int, c: int)
    ensures a * (b - c) == a * b - a * c
  {
  }

  /** An edge function vanishes at both of its endpoints. */
  lemma EdgeZeroAtEndpoints(p0: Vec2I, p1: Vec2I)
    ensures MakeEdge(p0, p1, p0).value == 0
    ensures MakeEdge(p0, p1, p1).value == 0
  {
    EdgeIsCross(p0, p1, p0);
    EdgeIsCross(p0, p1, p1);
  }

  /** Stepping in x by `s` gives the equation built at the pixel `s` to the right. */
  lemma {:induction false} IncrementXMatches(p0: Vec2I, p1: Vec2I, p: Vec2I, s: int)
    ensures IncrementX(MakeEdge(p0, p1, p), s) == MakeEdge(p0, p1, Vec2I(p.x + s, p.y))
  {
    MulAddL(p.x, s, p0.y - p1.y);
  }

  /** Stepping in y by `s` gives the equation built at the pixel `s` below. */
  lemma {:induction false} IncrementYMatches(p0: Vec2I, p1: Vec2I, p: Vec2I, s: int)
    ensures IncrementY(MakeEdge(p0, p1, p), s) == MakeEdge(p0, p1, Vec2I(p.x, p.y + s))
  {
    MulAddL(p.y, s, p1.x - p0.x);
  }

  lemma MulAddL(a: int, b: int, c: int)
    ensures (a + b) * c == a * c + b * c
  {
  }

  // ------------------------------------------------------- three edges

  /** The three edge functions of a triangle, each opposite one vertex. */
  datatype EdgeEquationSet = EdgeEquationSet(e0: EdgeEquation, e1: EdgeEquation, e2: EdgeEquation)

  /** `EdgeEquationSet(v0, v1, v2, p)`: `e0` is opposite `v0`, `e1` opposite `v1`, `e2` opposite `v2`. */
  function MakeSet(v0: Vec2I, v1: Vec2I, v2: Vec2I, p: Vec2I): EdgeEquationSet
  {
    EdgeEquationSet(MakeEdge(v1, v2, p), MakeEdge(v2, v0, p), MakeEdge(v0, v1, p))
  }

  function SetIncrementX(s: EdgeEquationSet, step: int): EdgeEquationSet
  {
    EdgeEquationSet(IncrementX(s.e0, step), IncrementX(s.e1, step), IncrementX(s.e2, step))
  }

  function SetIncrementY(s: EdgeEquationSet, step: int): EdgeEquationSet
  {
    EdgeEquationSet(IncrementY(s.e0, step), IncrementY(s.e1, step), IncrementY(s.e2, step))
  }

  /** `evaluate()`: the inclusive coverage test. */
  predicate Evaluate(s: EdgeEquationSet)
  {
    s.e0.value >= 0 && s.e1.value >= 0 && s.e2.value >= 0
  }

  /** Pixel `p` is covered by the triangle with raster vertices `v0`, `v1`, `v2`. */
  predicate Covered(v0: Vec2I, v1: Vec2I, v2: Vec2I, p: Vec2I)
  {
    Evaluate(MakeSet(v0, v1, v2, p))
  }

  /** Incremental evaluation equals direct evaluation: a set stepped by `s` in x is the set built there. */
  lemma SetStepX(v0: Vec2I, v1: Vec2I, v2: Vec2I, p: Vec2I, s: int)
    ensures SetIncrementX(MakeSet(v0, v1, v2, p), s) == MakeSet(v0, v1, v2, Vec2I(p.x + s, p.y))
  {
    IncrementXMatches(v1, v2, p, s);
    IncrementXMatches(v2, v0, p, s);
    IncrementXMatches(v0, v1, p, s);
  }

  /** The same for a step in y. */
  lemma SetStepY(v0: Vec2I, v1: Vec2I, v2: Vec2I, p: Vec2I, s: int)
    ensures SetIncrementY(MakeSet(v0, v1, v2, p), s) == MakeSet(v0, v1, v2, Vec2I(p.x, p.y + s))
  {
    IncrementYMatches(v1, v2, p, s);
    IncrementYMatches(v2, v0, p, s);
    IncrementYMatches(v0, v1, p, s);
  }

  /** Steps in x and y commute, on any set. */
  lemma StepsCommute(s: EdgeEquationSet, a: int, b: int)
    ensures SetIncrementY(SetIncrementX(s, a), b) == SetIncrementX(SetIncrementY(s, b), a)
  {
  }

  /** A step followed by the opposite step restores the set. */
  lemma StepXInverse(s: EdgeEquationSet, a: int)
    ensures SetIncrementX(SetIncrementX(s, a), -a) == s
  {
    assert forall i: int :: a * i + (-a) * i == 0;
  }

  lemma StepYInverse(s: EdgeEquationSet, a: int)
    ensures SetIncrementY(SetIncrementY(s, a), -a) == s
  {
    assert forall j: int :: a * j + (-a) * j == 0;
  }

  /** At every pixel the three edge values add up to the triangle's area value. */
  lemma AreaSum(v0: Vec2I, v1: Vec2I, v2: Vec2I, p: Vec2I)
    ensures var s := MakeSet(v0, v1, v2, p);
      s.e0.value + s.e1.value + s.e2.value == MakeEdge(v0, v1, v2).value
  {
    var s := MakeSet(v0, v1, v2, p);
    // The x coefficients, the y coefficients and the constants each telescope.
    assert s.e0.i + s.e1.i + s.e2.i == 0;
    assert s.e0.j + s.e1.j + s.e2.j == 0;
    MulAddL3(p.x, s.e0.i, s.e1.i, s.e2.i);
    MulAddL3(p.y, s.e0.j, s.e1.j, s.e2.j);
    EdgeIsCross(v0, v1, v2);
    EdgeIsCross(v1, v2, v0);
    EdgeIsCross(v2, v0, v1);
    assert s.e0.k == MakeEdge(v1, v2, v0).value - v0.x * s.e0.i - v0.y * s.e0.j;
    assert s.e0.k + s.e1.k + s.e2.k == MakeEdge(v0, v1, v2).value;
  }

  lemma MulAddL3(a: int, b: int, c: int, d: int)
    ensures a * b + a * c + a * d == a * (b + c + d)
  {
  }

  // ------------------------------------------------------ whole blocks

  /** An affine function of one variable that is non-negative at both ends of an interval is non-negative inside it. */
  lemma AffineBetween(a: int, b: int, x0: int, x1: int, x: int)
    requires x0 <= x <= x1
    requires x0 * a + b >= 0 && x1 * a + b >= 0
    ensures x * a + b >= 0
  {
    if a >= 0 {
      MulMonotone(a, x0, x);
    } else {
      MulMonotone(-a, x, x1);
    }
  }

  lemma MulMonotone(a: int, x: int, y: int)
    requires a >= 0 && x <= y
    ensures x * a <= y * a
  {
    assert y * a - x * a == (y - x) * a;
  }

  /** One edge non-negative at the four corners of a rectangle is non-negative at every pixel in it. */
  lemma EdgeRectangle(p0: Vec2I, p1: Vec2I, x0: int, x1: int, y0: int, y1: int, p: Vec2I)
    requires x0 <= p.x <= x1 && y0 <= p.y <= y1
    requires MakeEdge(p0, p1, Vec2I(x0, y0)).value >= 0 && MakeEdge(p0, p1, Vec2I(x1, y0)).value >= 0
    requires MakeEdge(p0, p1, Vec2I(x0, y1)).value >= 0 && MakeEdge(p0, p1, Vec2I(x1, y1)).value >= 0
    ensures MakeEdge(p0, p1, p).value >= 0
  {
    var e := MakeEdge(p0, p1, p);
    AffineBetween(e.i, y0 * e.j + e.k, x0, x1, p.x);
    AffineBetween(e.i, y1 * e.j + e.k, x0, x1, p.x);
    AffineBetween(e.j, p.x * e.i + e.k, y0, y1, p.y);
  }

  /**
   * Coverage at the four corners of a rectangle implies coverage of every
   * pixel in it: this is why the inside-block path may skip the per-pixel test.
   */
  lemma CornersCoverRectangle(v0: Vec2I, v1: Vec2I, v2: Vec2I, x0: int, x1: int, y0: int, y1: int, p: Vec2I)
    requires x0 <= p.x <= x1 && y0 <= p.y <= y1
    requires Covered(v0, v1, v2, Vec2I(x0, y0)) && Covered(v0, v1, v2, Vec2I(x1, y0))
    requires Covered(v0, v1, v2, Vec2I(x0, y1)) && Covered(v0, v1, v2, Vec2I(x1, y1))
    ensures Covered(v0, v1, v2, p)
  {
    EdgeRectangle(v1, v2, x0, x1, y0, y1, p);
    EdgeRectangle(v2, v0, x0, x1, y0, y1, p);
    EdgeRectangle(v0, v1, x0, x1, y0, y1, p);
  }

  // --------------------------------------------- segment intersection

  /** `InClosed(n, d)`: `n / d` lies in the closed interval [0, 1] (for `d != 0`). */
  predicate InClosed(n: int, d: int)
  {
    if d > 0 then 0 <= n <= d else d <= n <= 0
  }

  /** `FasterLineSegmentIntersection(p1, p2, p3, p4)`, branch for branch. */
  function FasterLineSegmentIntersection(p1: Vec2I, p2: Vec2I, p3: Vec2I, p4: Vec2I): bool
  {
    var a, b, c := Sub2I(p2, p1), Sub2I(p3, p4), Sub2I(p1, p3);
    var alphaDenominator := a.y * b.x - a.x * b.y;
    var betaDenominator := alphaDenominator;
    if alphaDenominator == 0 || betaDenominator == 0 then false
    else
      var alphaNumerator := b.y * c.x - b.x * c.y;
      var doIntersect :=
        if alphaDenominator > 0 then !(alphaNumerator < 0 || alphaNumerator > alphaDenominator)
        else !(alphaNumerator > 0 || alphaNumerator < alphaDenominator);
      var betaNumerator := a.x * c.y - a.y * c.x;
      if doIntersect && betaDenominator > 0 then
        !(betaNumerator < 0 || betaNumerator > betaDenominator)
      else if betaNumerator > 0 || betaNumerator < betaDenominator then false
      else doIntersect
  }

  /** The denominator and the two numerators of the parametric intersection of `p1p2` with `p3p4`. */
  function Denominator(p1: Vec2I, p2: Vec2I, p3: Vec2I, p4: Vec2I): int
  {
    Cross(Sub2I(p2, p1), Sub2I(p4, p3))
  }

  function AlphaNumerator(p1: Vec2I, p2: Vec2I, p3: Vec2I, p4: Vec2I): int
  {
    Cross(Sub2I(p4, p3), Sub2I(p1, p3))
  }

  function BetaNumerator(p1: Vec2I, p2: Vec2I, p3: Vec2I, p4: Vec2I): int
  {
    Cross(Sub2I(p2, p1), Sub2I(p1, p3))
  }

  /**
   * The segments cross in the closed sense: the lines are not parallel and
   * both parameters lie in [0, 1].
   */
  predicate SegmentsCross(p1: Vec2I, p2: Vec2I, p3: Vec2I, p4: Vec2I)
  {
    var d := Denominator(p1, p2, p3, p4);
    d != 0 && InClosed(AlphaNumerator(p1, p2, p3, p4), d) && InClosed(BetaNumerator(p1, p2, p3, p4), d)
  }

  /**
   * `FasterLineSegmentIntersection` is false on a zero denominator and
   * otherwise true exactly when both numerators lie between 0 and the
   * denominator; the dangling `else` on the beta test changes nothing.
   */
  lemma FasterIntersectionIsCrossing(p1: Vec2I, p2: Vec2I, p3: Vec2I, p4: Vec2I)
    ensures FasterLineSegmentIntersection(p1, p2, p3, p4) <==> SegmentsCross(p1, p2, p3, p4)
  {
    var a, b, c := Sub2I(p2, p1), Sub2I(p3, p4), Sub2I(p1, p3);
    var e := Sub2I(p4, p3);
    assert e.x == -b.x && e.y == -b.y;
    assert Denominator(p1, p2, p3, p4) == a.y * b.x - a.x * b.y by {
      NegMul(b.x, a.y);
      NegMul(b.y, a.x);
    }
    assert AlphaNumerator(p1, p2, p3, p4) == b.y * c.x - b.x * c.y by {
      NegMul(b.x, c.y);
      NegMul(b.y, c.x);
    }
    assert BetaNumerator(p1, p2, p3, p4) == a.x * c.y - a.y * c.x;
  }

  lemma NegMul(a: int, b: int)
    ensures (-a) * b == -(a * b)
  {
  }

  /**
   * The parameters locate one common point: scaled by the denominator,
   * `p1 + alpha*(p2-p1)` equals `p3 + beta*(p4-p3)`.
   */
  lemma CrossingPointShared(p1: Vec2I, p2: Vec2I, p3: Vec2I, p4: Vec2I)
    ensures var d, an, bn := Denominator(p1, p2, p3, p4), AlphaNumerator(p1, p2, p3, p4), BetaNumerator(p1, p2, p3, p4);
      d * p1.x + an * (p2.x - p1.x) == d * p3.x + bn * (p4.x - p3.x) &&
      d * p1.y + an * (p2.y - p1.y) == d * p3.y + bn * (p4.y - p3.y)
  {
    var u, v, w := Sub2I(p2, p1), Sub2I(p4, p3), Sub2I(p1, p3);
    var d := Cross(u, v);
    CrossIdentity(u, v, w);
    MulSubR(d, p1.x, p3.x);
    MulSubR(d, p1.y, p3.y);
  }

  /** `Cross(u, v) * w + Cross(v, w) * u == Cross(u, w) * v`, coordinate by coordinate. */
  lemma CrossIdentity(u: Vec2I, v: Vec2I, w: Vec2I)
    ensures Cross(u, v) * w.x + Cross(v, w) * u.x == Cross(u, w) * v.x
    ensures Cross(u, v) * w.y + Cross(v, w) * u.y == Cross(u, w) * v.y
  {
    MulSubL(u.x * v.y, u.y * v.x, w.x);
    MulSubL(v.x * w.y, v.y * w.x, u.x);
    MulSubL(u.x * w.y, u.y * w.x, v.x);
    MulSubL(u.x * v.y, u.y * v.x, w.y);
    MulSubL(v.x * w.y, v.y * w.x, u.y);
    MulSubL(u.x * w.y, u.y * w.x, v.y);
  }

  lemma MulSubL(a: int, b: int, c: int)
    ensures (a - b) * c == a * c - b * c
  {
  }

  /** `SegmentTriangleIntersection`: the segment crosses one of the triangle's three edges. */
  function SegmentTriangleIntersection(p0: Vec2I, p1: Vec2I, v0: Vec2I, v1: Vec2I, v2: Vec2I): bool
  {
    FasterLineSegmentIntersection(p0, p1, v0, v1) ||
    FasterLineSegmentIntersection(p0, p1, v1, v2) ||
    FasterLineSegmentIntersection(p0, p1, v2, v0)
  }

  /** The segment meets the triangle's boundary: it crosses one of the three edges, in the closed sense. */
  lemma SegmentTriangleCrossing(p0: Vec2I, p1: Vec2I, v0: Vec2I, v1: Vec2I, v2: Vec2I)
    ensures SegmentTriangleIntersection(p0, p1, v0, v1, v2) <==>
      SegmentsCross(p0, p1, v0, v1) || SegmentsCross(p0, p1, v1, v2) || SegmentsCross(p0, p1, v2, v0)
  {
    FasterIntersectionIsCrossing(p0, p1, v0, v1);
    FasterIntersectionIsCrossing(p0, p1, v1, v2);
    FasterIntersectionIsCrossing(p0, p1, v2, v0);
  }

  /** `BlockTriangleSegmentIntersection`: some side of the rectangle crosses some edge of the triangle. */
  function BlockTriangleSegmentIntersection(ltCorner: Vec2I, blockWidth: int, blockHeight: int,
                                            v0: Vec2I, v1: Vec2I, v2: Vec2I): bool
  {
    var rtCorner := Vec2I(ltCorner.x + blockWidth, ltCorner.y);
    var lbCorner := Vec2I(ltCorner.x, ltCorner.y + blockHeight);
    var rbCorner := Vec2I(ltCorner.x + blockWidth, ltCorner.y + blockHeight);
    SegmentTriangleIntersection(lbCorner, rbCorner, v0, v1, v2) ||
    SegmentTriangleIntersection(lbCorner, ltCorner, v0, v1, v2) ||
    SegmentTriangleIntersection(ltCorner, rtCorner, v0, v1, v2) ||
    SegmentTriangleIntersection(rtCorner, rbCorner, v0, v1, v2)
  }

  /** The segment `p0p1` crosses one of the triangle's edges, in the closed sense. */
  predicate CrossesOutline(p0: Vec2I, p1: Vec2I, v0: Vec2I, v1: Vec2I, v2: Vec2I)
  {
    SegmentsCross(p0, p1, v0, v1) || SegmentsCross(p0, p1, v1, v2) || SegmentsCross(p0, p1, v2, v0)
  }

  /**
   * The block test is true exactly when one of the rectangle's four sides
   * (bottom, left, top, right) crosses one of the triangle's three edges.
   */
  lemma BlockOutlineCrossing(ltCorner: Vec2I, blockWidth: int, blockHeight: int, v0: Vec2I, v1: Vec2I, v2: Vec2I)
    ensures var rt, lb, rb := Vec2I(ltCorner.x + blockWidth, ltCorner.y), Vec2I(ltCorner.x, ltCorner.y + blockHeight),
              Vec2I(ltCorner.x + blockWidth, ltCorner.y + blockHeight);
      BlockTriangleSegmentIntersection(ltCorner, blockWidth, blockHeight, v0, v1, v2) <==>
      CrossesOutline(lb, rb, v0, v1, v2) || CrossesOutline(lb, ltCorner, v0, v1, v2) ||
      CrossesOutline(ltCorner, rt, v0, v1, v2) || CrossesOutline(rt, rb, v0, v1, v2)
  {
    var rt, lb, rb := Vec2I(ltCorner.x + blockWidth, ltCorner.y), Vec2I(ltCorner.x, ltCorner.y + blockHeight),
      Vec2I(ltCorner.x + blockWidth, ltCorner.y + blockHeight);
    SegmentTriangleCrossing(lb, rb, v0, v1, v2);
    SegmentTriangleCrossing(lb, ltCorner, v0, v1, v2);
    SegmentTriangleCrossing(ltCorner, rt, v0, v1, v2);
    SegmentTriangleCrossing(rt, rb, v0, v1, v2);
  }

  /** The `pointInsideAABB` lambda: inclusive on all four sides. */
  predicate PointInsideAABB(min: Vec2I, max: Vec2I, point: Vec2I)
  {
    (point.x >= min.x && point.x <= max.x) && (point.y >= min.y && point.y <= max.y)
  }
}
