/** The exact (non-trigonometric) part of the raycast engine's geometry
    header (src/raycast/geometry.hpp): 2D vectors, ranges, the squared-length
    ordering of points, tolerance equality, clamping and the slope/intercept
    line. Doubles are modelled as reals. */
module Geometry {

  /** Vec2<double>; Point and Size are the same type in the source. */
  datatype Vec2 = Vec2(x: real, y: real)

  type Point = Vec2

  /** A closed interval [a, b]; nothing in the source demands a <= b. */
  datatype Range = Range(a: real, b: real)

  /** Vec2::operator== */
  predicate VecEq(lhs: Vec2, rhs: Vec2) {
    lhs.x == rhs.x && lhs.y == rhs.y
  }

  /** Vec2::operator!=, the negation of operator== */
  predicate VecNeq(lhs: Vec2, rhs: Vec2) {
    !VecEq(lhs, rhs)
  }

  /** Range::operator== */
  predicate RangeEq(lhs: Range, rhs: Range) {
    lhs.a == rhs.a && lhs.b == rhs.b
  }

  /** Range::operator!= */
  predicate RangeNeq(lhs: Range, rhs: Range) {
    !RangeEq(lhs, rhs)
  }

  /** Vec2's operator== is exactly value equality, and operator!= exactly its
      negation; the same holds for Range. */
  lemma EqualityIsValueEquality(u: Vec2, v: Vec2, r: Range, s: Range)
    ensures VecEq(u, v) <==> u == v
    ensures VecNeq(u, v) <==> u != v
    ensures RangeEq(r, s) <==> r == s
    ensures RangeNeq(r, s) <==> r != s
  {
  }

  /** Vec2::operator- (unary): both coordinates negated. */
  function Negate(v: Vec2): Vec2
  {
    Vec2(-v.x, -v.y)
  }

  /** Negating twice gives back the original vector, and only the zero
      vector is its own negation. */
  lemma NegateInvolution(v: Vec2)
    ensures Negate(Negate(v)) == v
    ensures Negate(v) == v <==> v == Vec2(0.0, 0.0)
  {
  }

  /** The squared length compared by operator< on points. */
  function SquaredLength(p: Point): real {
    p.x * p.x + p.y * p.y
  }

  /** Negation does not change the squared length. */
  lemma SquaredLengthNegate(p: Point)
    ensures SquaredLength(Negate(p)) == SquaredLength(p)
  {
    assert (-p.x) * (-p.x) == p.x * p.x;
    assert (-p.y) * (-p.y) == p.y * p.y;
  }

  /** operator<(Point, Point): the point nearer the origin is the smaller. */
  predicate PointLess(lhs: Point, rhs: Point) {
    SquaredLength(lhs) < SquaredLength(rhs)
  }

  /** operator< on points is a strict weak ordering: irreflexive, asymmetric
      and transitive, and incomparability (equal squared length) is
      transitive too. */
  lemma PointLessIsStrictWeakOrder(p: Point, q: Point, r: Point)
    ensures !PointLess(p, p)
    ensures PointLess(p, q) ==> !PointLess(q, p)
    ensures PointLess(p, q) && PointLess(q, r) ==> PointLess(p, r)
    ensures PointLess(p, r) ==> PointLess(p, q) || PointLess(q, r)
  {
  }

  /** A point and its negation are incomparable under operator<. */
  lemma PointLessIgnoresSign(p: Point, q: Point)
    ensures PointLess(p, q) <==> PointLess(Negate(p), q)
    ensures PointLess(q, p) <==> PointLess(q, Negate(p))
    ensures !PointLess(p, Negate(p)) && !PointLess(Negate(p), p)
  {
    SquaredLengthNegate(p);
  }

  function Abs(x: real): (r: real)
    ensures r >= 0.0 && (r == x || r == -x)
  {
    if x < 0.0 then -x else x
  }

  /** pointsEqual: both coordinates differ by at most delta. */
  predicate PointsEqual(lhs: Point, rhs: Point, delta: real) {
    Abs(rhs.x - lhs.x) <= delta && Abs(rhs.y - lhs.y) <= delta
  }

  /** pointsEqual is symmetric, reflexive for a non-negative tolerance,
      never true for a negative one, and with zero tolerance it is operator==. */
  lemma PointsEqualProperties(p: Point, q: Point, delta: real)
    ensures PointsEqual(p, q, delta) <==> PointsEqual(q, p, delta)
    ensures delta >= 0.0 ==> PointsEqual(p, p, delta)
    ensures delta < 0.0 ==> !PointsEqual(p, q, delta)
    ensures PointsEqual(p, q, 0.0) <==> VecEq(p, q)
  {
  }

  /** A wider tolerance accepts every pair a narrower one accepts. */
  lemma PointsEqualMonotonic(p: Point, q: Point, d1: real, d2: real)
    requires d1 <= d2
    ensures PointsEqual(p, q, d1) ==> PointsEqual(p, q, d2)
  {
  }

  /** clipNumber(x, range): the lower bound when x is below it, otherwise
      the upper bound when x is above that, otherwise x itself. */
  function ClipNumber(x: real, range: Range): (r: real)
    ensures x < range.a ==> r == range.a
    ensures range.a <= x ==> r <= x
    ensures range.a <= x && range.b < x ==> r == range.b
    ensures range.a <= x <= range.b ==> r == x
  {
    if x < range.a then range.a
    else if x > range.b then range.b
    else x
  }

  /** For a well-formed range the clipped value lies in the range, clipping
      it again changes nothing, and clipping is monotonic. For an inverted
      range (b < a) the result may lie outside [b, a]. */
  lemma ClipNumberInRange(x: real, y: real, range: Range)
    requires range.a <= range.b
    ensures range.a <= ClipNumber(x, range) <= range.b
    ensures ClipNumber(ClipNumber(x, range), range) == ClipNumber(x, range)
    ensures x <= y ==> ClipNumber(x, range) <= ClipNumber(y, range)
  {
  }

  /** Line: y = m*x + c (the x field is only used for vertical lines). */
  datatype Line = Line(m: real, c: real, x: real)

  /** Line::at: the point of the line above x. */
  function LineAt(l: Line, x: real): Point
  {
    Vec2(x, l.m * x + l.c)
  }

  /** Every point Line::at returns lies on the line, and two of them lie
      the slope times their horizontal distance apart. */
  lemma LineAtSlope(l: Line, x1: real, x2: real)
    ensures LineAt(l, x2).y - LineAt(l, x1).y == l.m * (x2 - x1)
  {
    assert l.m * x2 - l.m * x1 == l.m * (x2 - x1);
  }
}
