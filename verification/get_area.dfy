/** Model of get_area.py: the legacy polygon-area routine, its triangle area,
    and the helper that zips two coordinate lists into points.

    Coordinates and areas are exact reals (VIA stores integer or fractional
    pixel coordinates); the floating-point rounding of the original is
    not modelled. */
module GetArea {

  datatype Point = Point(x: real, y: real)

  /** The routine raises a bare `Exception("error")` on short input. */
  datatype AreaError = TooFewPoints

  datatype AreaResult = Ok(area: real) | Err(error: AreaError)

  function Abs(r: real): (a: real)
    ensures a >= 0.0
    ensures a == r || a == -r
  {
    if r < 0.0 then -r else r
  }

  /** The sign rule of the loop body: 1, -1 or 0 after the z-component. */
  function Sign(v: real): (s: real)
    ensures s == 1.0 <==> v > 0.0
    ensures s == -1.0 <==> v < 0.0
    ensures s == 0.0 <==> v == 0.0
  {
    if v > 0.0 then 1.0 else if v < 0.0 then -1.0 else 0.0
  }

  /** z-component of the cross product of the edge vectors p1->p2 and p2->p3
      (the `vecMult` of the loop body). */
  function CrossZ(p1: Point, p2: Point, p3: Point): real
  {
    (p2.x - p1.x) * (p3.y - p2.y) - (p2.y - p1.y) * (p3.x - p2.x)
  }

  /** CrossZ on points given by their coordinates; used to evaluate it on
      concrete vertices. */
  lemma CrossZOf(x1: real, y1: real, x2: real, y2: real, x3: real, y3: real)
    ensures CrossZ(Point(x1, y1), Point(x2, y2), Point(x3, y3))
            == (x2 - x1) * (y3 - y2) - (y2 - y1) * (x3 - x2)
  {
  }

  /** Squared Euclidean distance; `get_line_length` is its square root. */
  function SqDist(p: Point, q: Point): (d: real)
    ensures d >= 0.0
  {
    (p.x - q.x) * (p.x - q.x) + (p.y - q.y) * (p.y - q.y)
  }

  /** Heron's product s(s-a)(s-b)(s-c) for side lengths a, b, c; the
      triangle routine returns its square root. */
  function HeronProduct(a: real, b: real, c: real): real
  {
    var s := (a + b + c) / 2.0;
    s * (s - a) * (s - b) * (s - c)
  }

  /** The exact value of `get_area_of_triangle`: half the absolute cross
      product. HeronAgrees shows it is the non-negative square root of
      Heron's product, which is what the original computes. */
  function TriangleArea(p1: Point, p2: Point, p3: Point): (t: real)
    ensures t >= 0.0
    ensures t == 0.0 <==> CrossZ(p1, p2, p3) == 0.0
  {
    Abs(CrossZ(p1, p2, p3)) / 2.0
  }

  /** 16 times Heron's product, written with the squared side lengths. */
  lemma HeronExpansion(a: real, b: real, c: real)
    ensures 16.0 * HeronProduct(a, b, c)
            == 4.0 * (b * b) * (c * c) - (b * b + c * c - a * a) * (b * b + c * c - a * a)
  {
  }

  /** The side-length form of Heron's product, for the squared side lengths
      A = |p1p2|^2, B = |p2p3|^2, C = |p3p1|^2, equals four times the squared
      cross product. */
  lemma SquaredSidesIdentity(p1: Point, p2: Point, p3: Point)
    ensures var A, B, C := SqDist(p1, p2), SqDist(p2, p3), SqDist(p3, p1);
            4.0 * B * C - (B + C - A) * (B + C - A) == 4.0 * (CrossZ(p1, p2, p3) * CrossZ(p1, p2, p3))
  {
  }

  /** Heron's product in terms of the squared side lengths A, B, C. */
  lemma HeronInSquares(a: real, b: real, c: real, A: real, B: real, C: real)
    requires a * a == A && b * b == B && c * c == C
    ensures 16.0 * HeronProduct(a, b, c) == 4.0 * B * C - (B + C - A) * (B + C - A)
  {
    HeronExpansion(a, b, c);
  }

  // HeronAgrees is assembled from HeronInSquares, HeronOfPoints,
  // HeronOfSquares, TriangleAreaSquared and HalfAbsSquared. Each step is one
  // polynomial identity the solver closes cheaply; stated in one piece, the
  // degree-four identity costs it far more.

  /** `get_area_of_triangle` (Heron's formula over the three side lengths)
      agrees with TriangleArea: for any a, b, c whose squares are the squared
      side lengths |p1p2|, |p2p3|, |p3p1|, Heron's product equals the square
      of TriangleArea, so its non-negative square root is TriangleArea. */
  lemma HeronAgrees(p1: Point, p2: Point, p3: Point, a: real, b: real, c: real)
    requires a * a == SqDist(p1, p2)
    requires b * b == SqDist(p2, p3)
    requires c * c == SqDist(p3, p1)
    ensures HeronProduct(a, b, c) == TriangleArea(p1, p2, p3) * TriangleArea(p1, p2, p3)
  {
    HeronOfPoints(p1, p2, p3, a, b, c);
    TriangleAreaSquared(p1, p2, p3);
  }

  lemma HeronOfPoints(p1: Point, p2: Point, p3: Point, a: real, b: real, c: real)
    requires a * a == SqDist(p1, p2)
    requires b * b == SqDist(p2, p3)
    requires c * c == SqDist(p3, p1)
    ensures HeronProduct(a, b, c)
            == (Abs(CrossZ(p1, p2, p3)) / 2.0) * (Abs(CrossZ(p1, p2, p3)) / 2.0)
  {
    SquaredSidesIdentity(p1, p2, p3);
    HeronOfSquares(a, b, c, SqDist(p1, p2), SqDist(p2, p3), SqDist(p3, p1),
                   CrossZ(p1, p2, p3));
  }

  /** Heron's product over side lengths whose squares A, B, C satisfy
      4BC - (B + C - A)^2 == 4 z^2 is the square of |z| / 2. */
  lemma HeronOfSquares(a: real, b: real, c: real, A: real, B: real, C: real, z: real)
    requires a * a == A && b * b == B && c * c == C
    requires 4.0 * B * C - (B + C - A) * (B + C - A) == 4.0 * (z * z)
    ensures HeronProduct(a, b, c) == (Abs(z) / 2.0) * (Abs(z) / 2.0)
  {
    HeronInSquares(a, b, c, A, B, C);
    HalfAbsSquared(z);
  }

  lemma TriangleAreaSquared(p1: Point, p2: Point, p3: Point)
    ensures TriangleArea(p1, p2, p3) * TriangleArea(p1, p2, p3)
            == (Abs(CrossZ(p1, p2, p3)) / 2.0) * (Abs(CrossZ(p1, p2, p3)) / 2.0)
  {
  }

  lemma HalfAbsSquared(v: real)
    ensures (Abs(v) / 2.0) * (Abs(v) / 2.0) == (v * v) / 4.0
  {
    if v < 0.0 {
      assert Abs(v) == -v;
    }
  }

  /** The signed triangle area one loop iteration adds. */
  function SignedTriangleArea(p1: Point, p2: Point, p3: Point): (r: real)
    ensures r == CrossZ(p1, p2, p3) / 2.0
  {
    TriangleArea(p1, p2, p3) * Sign(CrossZ(p1, p2, p3))
  }

  /** One pass of the loop body. It ignores the loop index `i` and always
      reads the vertices 0, 1 and 2. */
  function LegacyStep(points: seq<Point>, i: int): (r: real)
    requires |points| >= 3
    ensures r == CrossZ(points[0], points[1], points[2]) / 2.0
  {
    SignedTriangleArea(points[0], points[1], points[2])
  }

  /** The loop `for i in range(1, len(points) - 1)`, entered at index `i`
      with running sum `area`. */
  function LegacyLoop(points: seq<Point>, i: int, area: real): real
    requires |points| >= 3 && 1 <= i <= |points| - 1
    decreases |points| - 1 - i
  {
    if i == |points| - 1 then area
    else LegacyLoop(points, i + 1, area + LegacyStep(points, i))
  }

  /** `get_area_of_polygon`: fails on fewer than three points, otherwise the
      absolute value of the loop's sum. */
  function GetAreaOfPolygon(points: seq<Point>): (r: AreaResult)
    ensures r.Err? <==> |points| < 3
    ensures r.Ok? ==> r.area >= 0.0
  {
    if |points| < 3 then Err(TooFewPoints)
    else Ok(Abs(LegacyLoop(points, 1, 0.0)))
  }

  /** Entered at index i, the loop runs |points| - 1 - i more times, and each
      time adds the same signed area of (points[0], points[1], points[2]). */
  lemma {:induction false} LegacyLoopRepeats(points: seq<Point>, i: int, area: real)
    requires |points| >= 3 && 1 <= i <= |points| - 1
    ensures LegacyLoop(points, i, area)
            == area + (|points| - 1 - i) as real * SignedTriangleArea(points[0], points[1], points[2])
    decreases |points| - 1 - i
  {
    if i < |points| - 1 {
      LegacyLoopRepeats(points, i + 1, area + LegacyStep(points, i));
    }
  }

  /** Closed form: for n >= 3 points the routine returns
      |(n - 2) * sign * triangle area of the first three points|. */
  lemma LegacyClosedForm(points: seq<Point>)
    requires |points| >= 3
    ensures GetAreaOfPolygon(points)
            == Ok(Abs((|points| - 2) as real * Sign(CrossZ(points[0], points[1], points[2]))
                      * TriangleArea(points[0], points[1], points[2])))
    ensures GetAreaOfPolygon(points)
            == Ok((|points| - 2) as real * TriangleArea(points[0], points[1], points[2]))
  {
    var s := SignedTriangleArea(points[0], points[1], points[2]);
    var t := TriangleArea(points[0], points[1], points[2]);
    LegacyLoopRepeats(points, 1, 0.0);
    assert LegacyLoop(points, 1, 0.0) == (|points| - 2) as real * s;
    var k := (|points| - 2) as real;
    var sg := Sign(CrossZ(points[0], points[1], points[2]));
    assert s == t * sg;
    assert k * s == k * sg * t;
    assert Abs(k * sg * t) == k * t by {
      if sg == 0.0 {
        assert t == 0.0;
      } else if sg == 1.0 {
      } else {
        assert k * sg * t == -(k * t);
      }
    }
  }

  /** Only the length and the first three vertices matter: two polygons of
      equal length that share their first three vertices get the same result. */
  lemma LegacyOnlyFirstThree(p: seq<Point>, q: seq<Point>)
    requires |p| == |q|
    requires |p| >= 3 ==> p[..3] == q[..3]
    ensures GetAreaOfPolygon(p) == GetAreaOfPolygon(q)
  {
    if |p| >= 3 {
      assert p[0] == q[0] && p[1] == q[1] && p[2] == q[2] by {
        assert p[..3][0] == q[..3][0] && p[..3][1] == q[..3][1] && p[..3][2] == q[..3][2];
      }
      LegacyClosedForm(p);
      LegacyClosedForm(q);
    }
  }

  /** Changing a vertex at index 3 or later leaves the result unchanged. */
  lemma LegacyIgnoresLaterVertex(points: seq<Point>, j: int, v: Point)
    requires 3 <= j < |points|
    ensures GetAreaOfPolygon(points[j := v]) == GetAreaOfPolygon(points)
  {
    LegacyOnlyFirstThree(points[j := v], points);
  }

  /** Collinear first three vertices give area 0 whatever the others are. */
  lemma LegacyCollinearIsZero(points: seq<Point>)
    requires |points| >= 3 && CrossZ(points[0], points[1], points[2]) == 0.0
    ensures GetAreaOfPolygon(points) == Ok(0.0)
  {
    LegacyClosedForm(points);
  }

  /** On a triangle the loop runs once and the result is its area. */
  lemma LegacyTriangle(p1: Point, p2: Point, p3: Point)
    ensures GetAreaOfPolygon([p1, p2, p3]) == Ok(TriangleArea(p1, p2, p3))
  {
    LegacyClosedForm([p1, p2, p3]);
  }

  /** `x_y_to_points`: pairs x[i] with y[i] for every index of x. Indexing
      y past its end raises in the original, hence the precondition; extra
      entries of y are ignored. */
  function XYToPoints(x: seq<real>, y: seq<real>): (points: seq<Point>)
    requires |y| >= |x|
    ensures |points| == |x|
    ensures forall i :: 0 <= i < |x| ==> points[i] == Point(x[i], y[i])
    decreases |x|
  {
    if |x| == 0 then []
    else XYToPoints(x[..|x| - 1], y) + [Point(x[|x| - 1], y[|x| - 1])]
  }

  function Xs(points: seq<Point>): (xs: seq<real>)
  {
    seq(|points|, i requires 0 <= i < |points| => points[i].x)
  }

  function Ys(points: seq<Point>): (ys: seq<real>)
  {
    seq(|points|, i requires 0 <= i < |points| => points[i].y)
  }

  /** Unzipping the points gives back x and the used prefix of y. */
  lemma XYToPointsUnzips(x: seq<real>, y: seq<real>)
    requires |y| >= |x|
    ensures Xs(XYToPoints(x, y)) == x
    ensures Ys(XYToPoints(x, y)) == y[..|x|]
  {
  }

  /** Zipping the coordinates of any point list gives it back. */
  lemma XYToPointsZips(points: seq<Point>)
    ensures XYToPoints(Xs(points), Ys(points)) == points
  {
  }

  /** Ceiling of a real (`math.ceil`). */
  function Ceil(r: real): (c: int)
    ensures r <= c as real < r + 1.0
  {
    -((-r).Floor)
  }

  /** The self-check in `main`: the square x = [1,0,0,1], y = [0,0,1,1]
      gets area 2 * 1/2 = 1, and the assertion on its ceiling holds. */
  lemma MainSquareCheck()
    ensures GetAreaOfPolygon(XYToPoints([1.0, 0.0, 0.0, 1.0], [0.0, 0.0, 1.0, 1.0])) == Ok(1.0)
    ensures Ceil(GetAreaOfPolygon(XYToPoints([1.0, 0.0, 0.0, 1.0], [0.0, 0.0, 1.0, 1.0])).area) == 1
  {
    var points := XYToPoints([1.0, 0.0, 0.0, 1.0], [0.0, 0.0, 1.0, 1.0]);
    assert points[0] == Point(1.0, 0.0) && points[1] == Point(0.0, 0.0) && points[2] == Point(0.0, 1.0);
    assert |points| == 4;
    assert CrossZ(points[0], points[1], points[2]) == -1.0;
    LegacyClosedForm(points);
  }
}
