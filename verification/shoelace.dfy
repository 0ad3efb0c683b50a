/** The polygon area the legacy routine evidently meant to compute, next to
    an independent reference for it.

    `FanArea` is the loop of `get_area_of_polygon` with the second and third
    triangle vertices advancing with the loop index (points[i], points[i+1])
    instead of staying at points[1], points[2]. `ShoelaceArea` is the
    shoelace formula. FanMatchesShoelace proves the two agree on every
    polygon; LegacyDiffersFromShoelace exhibits a family of quadrilaterals
    on which the routine as written does not return the shoelace value. */
module Shoelace {
  import opened GetArea

  /** Determinant of the position vectors (x1, y1) and (x2, y2). */
  function DetOf(x1: real, y1: real, x2: real, y2: real): real
  {
    x1 * y2 - y1 * x2
  }

  /** Determinant of the position vectors a and b. */
  function Det(a: Point, b: Point): real
  {
    DetOf(a.x, a.y, b.x, b.y)
  }

  lemma DetAntisymmetric(a: Point, b: Point)
    ensures Det(a, b) == -Det(b, a)
  {
  }

  /** Sum of Det over consecutive pairs of an open chain of vertices. */
  function ChainSum(ps: seq<Point>): real
    decreases |ps|
  {
    if |ps| < 2 then 0.0 else Det(ps[0], ps[1]) + ChainSum(ps[1..])
  }

  lemma ChainSumCons(a: Point, s: seq<Point>)
    requires |s| >= 1
    ensures ChainSum([a] + s) == Det(a, s[0]) + ChainSum(s)
  {
    assert ([a] + s)[1..] == s;
  }

  /** The shoelace formula: half the absolute value of the sum of Det over
      every edge of the closed polygon, last vertex back to the first. */
  function ShoelaceArea(points: seq<Point>): (r: real)
    requires |points| >= 3
    ensures r >= 0.0
  {
    Abs(ChainSum(points) + Det(points[|points| - 1], points[0])) / 2.0
  }

  /** One pass of the corrected loop body: triangle (points[0], points[i], points[i+1]). */
  function FanStep(points: seq<Point>, i: int): real
    requires 1 <= i < |points| - 1
  {
    SignedTriangleArea(points[0], points[i], points[i + 1])
  }

  function FanLoop(points: seq<Point>, i: int, area: real): real
    requires |points| >= 3 && 1 <= i <= |points| - 1
    decreases |points| - 1 - i
  {
    if i == |points| - 1 then area
    else FanLoop(points, i + 1, area + FanStep(points, i))
  }

  /** The corrected routine: same error on short input, same absolute value
      of the sum, triangles fanned out from points[0]. */
  function FanArea(points: seq<Point>): (r: AreaResult)
    ensures r.Err? <==> |points| < 3
    ensures r.Ok? ==> r.area >= 0.0
  {
    if |points| < 3 then Err(TooFewPoints)
    else Ok(Abs(FanLoop(points, 1, 0.0)))
  }

  /** The cross product of the legacy sign rule, written with determinants. */
  lemma CrossZAsDet(p0: Point, a: Point, b: Point)
    ensures CrossZ(p0, a, b) == Det(a, b) + Det(p0, a) - Det(p0, b)
  {
  }

  /** Entered at index i, the fan loop adds half of the chain sum of
      points[i..] closed through points[0]. */
  lemma {:induction false} FanLoopSum(points: seq<Point>, i: int, area: real)
    requires |points| >= 3 && 1 <= i <= |points| - 1
    ensures FanLoop(points, i, area)
            == area + (ChainSum(points[i..]) + Det(points[0], points[i])
                       - Det(points[0], points[|points| - 1])) / 2.0
    decreases |points| - 1 - i
  {
    if i < |points| - 1 {
      var step := FanStep(points, i);
      CrossZAsDet(points[0], points[i], points[i + 1]);
      assert step == (Det(points[i], points[i + 1]) + Det(points[0], points[i])
                      - Det(points[0], points[i + 1])) / 2.0;
      FanLoopSum(points, i + 1, area + step);
      assert points[i..][1..] == points[i + 1..];
      assert ChainSum(points[i..]) == Det(points[i], points[i + 1]) + ChainSum(points[i + 1..]);
    } else {
      assert |points[i..]| == 1;
    }
  }

  /** The corrected routine computes the shoelace area of every polygon. */
  lemma FanMatchesShoelace(points: seq<Point>)
    requires |points| >= 3
    ensures FanArea(points) == Ok(ShoelaceArea(points))
  {
    FanLoopSum(points, 1, 0.0);
    assert points[0..] == points;
    assert points[1..] == points[0..][1..];
    assert ChainSum(points) == Det(points[0], points[1]) + ChainSum(points[1..]);
    DetAntisymmetric(points[|points| - 1], points[0]);
  }

  /** On a triangle the routine as written is already correct. */
  lemma LegacyMatchesShoelaceOnTriangles(p1: Point, p2: Point, p3: Point)
    ensures GetAreaOfPolygon([p1, p2, p3]) == Ok(ShoelaceArea([p1, p2, p3]))
  {
    var tri := [p1, p2, p3];
    assert FanLoop(tri, 1, 0.0) == 0.0 + FanStep(tri, 1);
    assert LegacyLoop(tri, 1, 0.0) == 0.0 + LegacyStep(tri, 1);
    FanMatchesShoelace(tri);
  }

  /** The shoelace area of a quadrilateral, in its coordinates. */
  lemma ShoelaceOfFour(x0: real, y0: real, x1: real, y1: real, x2: real, y2: real, x3: real, y3: real)
    ensures ShoelaceArea([Point(x0, y0), Point(x1, y1), Point(x2, y2), Point(x3, y3)])
            == Abs(DetOf(x0, y0, x1, y1) + DetOf(x1, y1, x2, y2)
                    + DetOf(x2, y2, x3, y3) + DetOf(x3, y3, x0, y0)) / 2.0
  {
    var a, b, c, d := Point(x0, y0), Point(x1, y1), Point(x2, y2), Point(x3, y3);
    ChainSumCons(c, [d]);
    assert [c] + [d] == [c, d];
    ChainSumCons(b, [c, d]);
    assert [b] + [c, d] == [b, c, d];
    ChainSumCons(a, [b, c, d]);
    assert [a] + [b, c, d] == [a, b, c, d];
  }

  /** The quadrilateral (1,1), (2,1), (2,2), (1,k). */
  function Quad(k: real): (q: seq<Point>)
    ensures |q| == 4
  {
    [Point(1.0, 1.0), Point(2.0, 1.0), Point(2.0, 2.0), Point(1.0, k)]
  }

  lemma LegacyOnQuad(k: real)
    ensures GetAreaOfPolygon(Quad(k)) == Ok(1.0)
  {
    var q := Quad(k);
    LegacyClosedForm(q);
    assert q[0] == Point(1.0, 1.0) && q[1] == Point(2.0, 1.0) && q[2] == Point(2.0, 2.0);
    CrossZOf(1.0, 1.0, 2.0, 1.0, 2.0, 2.0);
    assert CrossZ(q[0], q[1], q[2]) == 1.0;
    assert TriangleArea(q[0], q[1], q[2]) == 0.5;
  }

  lemma ShoelaceOnQuad(k: real)
    ensures ShoelaceArea(Quad(k)) == Abs(k) / 2.0
  {
    assert DetOf(1.0, 1.0, 2.0, 1.0) + DetOf(2.0, 1.0, 2.0, 2.0) + DetOf(2.0, 2.0, 1.0, k)
           + DetOf(1.0, k, 1.0, 1.0) == k;
    ShoelaceOfFour(1.0, 1.0, 2.0, 1.0, 2.0, 2.0, 1.0, k);
  }

  /** The corrected routine on Quad(k), k >= 0, returns the shoelace value k / 2. */
  lemma FanOnQuad(k: real)
    requires k >= 0.0
    ensures FanArea(Quad(k)) == Ok(k / 2.0)
  {
    var q := Quad(k);
    assert q == [Point(1.0, 1.0), Point(2.0, 1.0), Point(2.0, 2.0), Point(1.0, k)];
    ShoelaceOfFour(1.0, 1.0, 2.0, 1.0, 2.0, 2.0, 1.0, k);
    assert DetOf(1.0, 1.0, 2.0, 1.0) + DetOf(2.0, 1.0, 2.0, 2.0) + DetOf(2.0, 2.0, 1.0, k)
           + DetOf(1.0, k, 1.0, 1.0) == k;
    assert ShoelaceArea(q) == k / 2.0;
    FanMatchesShoelace(q);
  }

  /** The routine as written is not the shoelace area. On Quad(k) it returns
      2 * area(p0, p1, p2) = 1 whatever k is, while its shoelace value, which
      the corrected routine returns, is k / 2 for k >= 0. For k > 1 the
      quadrilateral is simple and that is its area; for k = 6 it is 3. */
  lemma LegacyDiffersFromShoelace(k: real)
    requires k >= 0.0 && k != 2.0
    ensures GetAreaOfPolygon(Quad(k)) == Ok(1.0)
    ensures FanArea(Quad(k)) == Ok(k / 2.0)
    ensures GetAreaOfPolygon(Quad(k)) != FanArea(Quad(k))
  {
    LegacyOnQuad(k);
    FanOnQuad(k);
  }
}
