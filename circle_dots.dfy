/**
 * The circle classifier of task 2: each dot gets 1 when it lies inside the
 * circle, 2 when outside, and 0 when on its edge.
 *
 * The program compares the floating-point Euclidean distance with the
 * integer radius. Here the comparison is made exactly, on the squared
 * distance. This is guaranteed to give the same answers for radii below
 * `RadiusBound` while every coordinate is exact as a double (magnitude at
 * most 2^53).
 */
module CircleDots {

  /** 2^26: below this, the square of the radius and every squared distance
      of the same size are exact in a double. */
  const RadiusBound: int := 0x400_0000

  const OnEdge: int := 0
  const Inside: int := 1
  const Outside: int := 2

  datatype Point = Point(x: int, y: int)

  function SquaredDistance(p: Point, q: Point): (d: int)
    ensures d >= 0
    ensures d == 0 <==> p == q
  {
    var dx, dy := p.x - q.x, p.y - q.y;
    assert dx * dx >= 0 && dy * dy >= 0;
    assert dx != 0 ==> dx * dx > 0;
    assert dy != 0 ==> dy * dy > 0;
    dx * dx + dy * dy
  }

  /** The classification of one dot: the body of the loop in `isect_circle`. */
  function Classify(center: Point, radius: int, dot: Point): (code: int)
    requires -RadiusBound < radius < RadiusBound
    ensures code == Inside || code == Outside || code == OnEdge
  {
    var d := SquaredDistance(dot, center);
    if 0 < radius && d < radius * radius then Inside
    else if radius < 0 || d > radius * radius then Outside
    else OnEdge
  }

  /** For non-negative reals, comparing squares compares the values. */
  lemma SquareMonotone(a: real, b: real)
    requires 0.0 <= a && 0.0 <= b
    ensures a < b <==> a * a < b * b
  {
    if a < b {
      assert a * (b - a) >= 0.0;
      assert b * (b - a) > 0.0;
      assert b * b - a * a == a * (b - a) + b * (b - a);
    } else {
      assert b * (a - b) >= 0.0;
      assert a * (a - b) >= 0.0;
      assert a * a - b * b == b * (a - b) + a * (a - b);
    }
  }

  /**
   * The code agrees with comparing the true Euclidean distance `dist`, any
   * non-negative real whose square is the squared distance, with the radius:
   * 1 when it is smaller, 2 when larger, 0 when equal.
   */
  lemma ClassifyMatchesDistance(center: Point, radius: int, dot: Point, dist: real)
    requires -RadiusBound < radius < RadiusBound
    requires 0.0 <= dist && dist * dist == SquaredDistance(dot, center) as real
    ensures Classify(center, radius, dot) == Inside <==> dist < radius as real
    ensures Classify(center, radius, dot) == Outside <==> dist > radius as real
    ensures Classify(center, radius, dot) == OnEdge <==> dist == radius as real
  {
    var r := radius as real;
    var d := SquaredDistance(dot, center);
    assert (radius * radius) as real == r * r;
    if radius >= 0 {
      SquareMonotone(dist, r);
      SquareMonotone(r, dist);
    }
  }

  /** A dot never gets a better code than a dot nearer to the centre:
      inside, then on the edge, then outside. */
  lemma FartherNeverInside(center: Point, radius: int, near: Point, far: Point)
    requires -RadiusBound < radius < RadiusBound
    requires SquaredDistance(near, center) <= SquaredDistance(far, center)
    ensures Classify(center, radius, far) == Inside ==> Classify(center, radius, near) == Inside
    ensures Classify(center, radius, near) == Outside ==> Classify(center, radius, far) == Outside
  {
  }

  /** Swapping the offsets from the centre, or negating either, keeps the code. */
  lemma ClassifySymmetric(center: Point, radius: int, dot: Point)
    requires -RadiusBound < radius < RadiusBound
    ensures var dx, dy := dot.x - center.x, dot.y - center.y;
      && Classify(center, radius, Point(center.x + dy, center.y + dx)) == Classify(center, radius, dot)
      && Classify(center, radius, Point(center.x - dx, dot.y)) == Classify(center, radius, dot)
      && Classify(center, radius, Point(dot.x, center.y - dy)) == Classify(center, radius, dot)
  {
  }

  /** A negative radius puts every dot outside; a zero radius puts the centre
      on the edge and every other dot outside. */
  lemma DegenerateRadius(center: Point, radius: int, dot: Point)
    requires -RadiusBound < radius <= 0
    ensures radius < 0 ==> Classify(center, radius, dot) == Outside
    ensures radius == 0 ==> (Classify(center, radius, dot) == OnEdge <==> dot == center)
    ensures radius == 0 && dot != center ==> Classify(center, radius, dot) == Outside
  {
  }

  /** `isect_circle`: one code per dot, in the order of the dots. */
  function IsectCircle(center: Point, radius: int, dots: seq<Point>): (codes: seq<int>)
    requires -RadiusBound < radius < RadiusBound
    ensures |codes| == |dots|
    ensures forall i :: 0 <= i < |dots| ==> codes[i] == Classify(center, radius, dots[i])
  {
    if dots == [] then []
    else [Classify(center, radius, dots[0])] + IsectCircle(center, radius, dots[1..])
  }

  /** Classifying two lists one after the other is classifying them joined. */
  lemma IsectConcat(center: Point, radius: int, a: seq<Point>, b: seq<Point>)
    requires -RadiusBound < radius < RadiusBound
    ensures IsectCircle(center, radius, a + b)
      == IsectCircle(center, radius, a) + IsectCircle(center, radius, b)
  {
    var whole := IsectCircle(center, radius, a + b);
    var parts := IsectCircle(center, radius, a) + IsectCircle(center, radius, b);
    assert forall i :: 0 <= i < |a + b| ==> whole[i] == parts[i];
  }
}
