/** Triangle coverage: edge functions, winding normalisation and the top-left rule, over reals. */
module RasterGeometry {
  datatype Point = Point(x: real, y: real)

  /** Twice the signed area of (a, b, p). */
  function Edge(a: Point, b: Point, p: Point): real
  {
    (p.x - a.x) * (b.y - a.y) - (p.y - a.y) * (b.x - a.x)
  }

  predicate IsTopLeft(dx: real, dy: real)
  {
    dy < 0.0 || (dy == 0.0 && dx < 0.0)
  }

  /** On the inner side of the directed edge, or on it where the edge owns its points. */
  predicate Inside(a: Point, b: Point, p: Point)
  {
    Edge(a, b, p) > 0.0 || (Edge(a, b, p) == 0.0 && IsTopLeft(b.x - a.x, b.y - a.y))
  }

  /** Inside all three edges of a triangle of positive area. */
  predicate InTriangle(a: Point, b: Point, c: Point, p: Point)
  {
    Inside(b, c, p) && Inside(c, a, p) && Inside(a, b, p)
  }

  /** The pixels raster_tri draws: normalise the winding, then test the three edges. */
  predicate Covers(a: Point, b: Point, c: Point, p: Point)
  {
    var area := Edge(a, b, c);
    if area == 0.0 then false
    else if area > 0.0 then InTriangle(a, b, c, p)
    else InTriangle(a, c, b, p)
  }

  /** Centre of a pixel. */
  function Center(x: int, y: int): Point
  {
    Point(x as real + 0.5, y as real + 0.5)
  }

  // ----- winding ------------------------------------------------------------------------------

  lemma EdgeSwaps(a: Point, b: Point, p: Point)
    ensures Edge(b, a, p) == -Edge(a, b, p)
  {
  }

  lemma EdgeRotates(a: Point, b: Point, c: Point)
    ensures Edge(b, c, a) == Edge(a, b, c) && Edge(c, a, b) == Edge(a, b, c)
  {
  }

  lemma EdgeFlips(a: Point, b: Point, c: Point)
    ensures Edge(a, c, b) == -Edge(a, b, c)
  {
  }

  /** The order in which the three vertices are given does not matter. */
  lemma CoversAnyOrder(a: Point, b: Point, c: Point, p: Point)
    ensures Covers(b, c, a, p) == Covers(a, b, c, p) && Covers(c, a, b, p) == Covers(a, b, c, p)
    ensures Covers(a, c, b, p) == Covers(a, b, c, p) && Covers(c, b, a, p) == Covers(a, b, c, p)
    ensures Covers(b, a, c, p) == Covers(a, b, c, p)
  {
    EdgeRotates(a, b, c);
    EdgeFlips(a, b, c);
    EdgeRotates(a, c, b);
  }

  // ----- shared edges -------------------------------------------------------------------------

  lemma TopLeftOneWay(dx: real, dy: real)
    requires dx != 0.0 || dy != 0.0
    ensures IsTopLeft(dx, dy) != IsTopLeft(-dx, -dy)
  {
  }

  /** An edge between different points owns each point from exactly one side. */
  lemma EdgeSplitsPlane(a: Point, b: Point, p: Point)
    requires a != b
    ensures Inside(a, b, p) != Inside(b, a, p)
  {
    EdgeSwaps(a, b, p);
    TopLeftOneWay(b.x - a.x, b.y - a.y);
    assert a.x - b.x == -(b.x - a.x) && a.y - b.y == -(b.y - a.y);
  }

  /** c and d lie strictly on opposite sides of the line through a and b. */
  predicate OppositeSides(a: Point, b: Point, c: Point, d: Point)
  {
    (Edge(a, b, c) > 0.0 && Edge(a, b, d) < 0.0) || (Edge(a, b, c) < 0.0 && Edge(a, b, d) > 0.0)
  }

  /** The corners of a triangle, in the order they were given. */
  datatype Corners = Corners(p: Point, q: Point, r: Point)
  {
    predicate Are(a: Point, b: Point, c: Point)
    {
      this in {Corners(a, b, c), Corners(b, c, a), Corners(c, a, b), Corners(a, c, b), Corners(c, b, a), Corners(b, a, c)}
    }

    predicate Cover(at: Point) { Covers(p, q, r, at) }
  }

  /** Two triangles on opposite sides of a shared edge, each in any vertex order, never draw the same
      pixel. */
  lemma SharedEdgeDrawnOnce(t: Corners, u: Corners, a: Point, b: Point, c: Point, d: Point, p: Point)
    requires OppositeSides(a, b, c, d) && t.Are(a, b, c) && u.Are(a, b, d)
    ensures !(t.Cover(p) && u.Cover(p))
  {
    CoversAnyOrder(a, b, c, p);
    CoversAnyOrder(a, b, d, p);
    EdgeSplitsPlane(a, b, p);
  }

  /** p lies on the segment from a to b, strictly between its ends. */
  predicate Between(a: Point, b: Point, p: Point, t: real)
  {
    0.0 < t < 1.0 && p.x == a.x + t * (b.x - a.x) && p.y == a.y + t * (b.y - a.y)
  }

  lemma OnSegment(a: Point, b: Point, c: Point, p: Point, t: real)
    requires Between(a, b, p, t)
    ensures Edge(a, b, p) == 0.0
    ensures Edge(b, c, p) == (1.0 - t) * Edge(a, b, c)
    ensures Edge(c, a, p) == t * Edge(a, b, c)
  {
    var dx, dy := b.x - a.x, b.y - a.y;
    assert p.x - a.x == t * dx && p.y - a.y == t * dy;
    assert t * dx * dy == t * dy * dx;
    assert p.x - b.x == (t - 1.0) * dx && p.y - b.y == (t - 1.0) * dy;
  }

  // ----- which points are covered -------------------------------------------------------------

  /** p is the mean of the corners with these weights. */
  predicate IsMean(a: Point, b: Point, c: Point, p: Point, u: real, v: real, w: real)
  {
    u + v + w == 1.0 && p.x == u * a.x + v * b.x + w * c.x && p.y == u * a.y + v * b.y + w * c.y
  }

  lemma EdgeOfMean(a: Point, b: Point, c: Point, p: Point, u: real, v: real, w: real)
    requires IsMean(a, b, c, p, u, v, w)
    ensures Edge(b, c, p) == u * Edge(a, b, c)
  {
    var x, y := a.x - b.x, a.y - b.y;
    var dx, dy := c.x - b.x, c.y - b.y;
    assert v == 1.0 - u - w;
    assert p.x - b.x == u * x + w * dx && p.y - b.y == u * y + w * dy;
    assert Edge(b, c, p) == (u * x + w * dx) * dy - (u * y + w * dy) * dx;
    Expand(u, w, x, y, dx, dy);
    EdgeRotates(a, b, c);
  }

  lemma Expand(u: real, w: real, x: real, y: real, dx: real, dy: real)
    ensures (u * x + w * dx) * dy - (u * y + w * dy) * dx == u * (x * dy - y * dx)
  {
    assert (u * x + w * dx) * dy == u * (x * dy) + w * (dx * dy);
    assert (u * y + w * dy) * dx == u * (y * dx) + w * (dx * dy);
  }

  /** Every point strictly inside a triangle is covered. */
  lemma InteriorCovered(a: Point, b: Point, c: Point, p: Point, u: real, v: real, w: real)
    requires Edge(a, b, c) != 0.0 && IsMean(a, b, c, p, u, v, w) && u > 0.0 && v > 0.0 && w > 0.0
    ensures Covers(a, b, c, p)
  {
    EdgeOfMean(a, b, c, p, u, v, w);
    EdgeOfMean(b, c, a, p, v, w, u);
    EdgeOfMean(c, a, b, p, w, u, v);
    EdgeRotates(a, b, c);
    EdgeFlips(a, b, c);
    EdgeSwaps(b, c, p);
    EdgeSwaps(c, a, p);
    EdgeSwaps(a, b, p);
    SameSign(u, Edge(a, b, c));
    SameSign(v, Edge(a, b, c));
    SameSign(w, Edge(a, b, c));
  }

  lemma SameSign(u: real, e: real)
    requires u > 0.0
    ensures (e > 0.0 <==> u * e > 0.0) && (e < 0.0 <==> u * e < 0.0) && (e == 0.0 <==> u * e == 0.0)
  {
  }

  /** The corners of an upright rectangle, clockwise on a screen whose y runs down. */
  datatype Box = Box(x0: real, y0: real, x1: real, y1: real)
  {
    function TopLeft(): Point { Point(x0, y0) }
    function TopRight(): Point { Point(x1, y0) }
    function BottomRight(): Point { Point(x1, y1) }
    function BottomLeft(): Point { Point(x0, y1) }
    predicate Proper() { x0 < x1 && y0 < y1 }

    /** The points on or below the top edge and on or left of the right edge, and strictly inside the
        other two. */
    predicate Holds(p: Point) { x0 < p.x <= x1 && y0 <= p.y < y1 }
  }

  lemma SideTests(b: Box, p: Point)
    requires b.Proper()
    ensures Inside(b.BottomRight(), b.TopRight(), p) <==> p.x <= b.x1
    ensures Inside(b.TopRight(), b.TopLeft(), p) <==> b.y0 <= p.y
    ensures Inside(b.BottomLeft(), b.BottomRight(), p) <==> p.y < b.y1
    ensures Inside(b.TopLeft(), b.BottomLeft(), p) <==> b.x0 < p.x
  {
    var w, h := b.x1 - b.x0, b.y1 - b.y0;
    SameSign(h, b.x1 - p.x);
    SameSign(w, p.y - b.y0);
    SameSign(w, b.y1 - p.y);
    SameSign(h, p.x - b.x0);
    assert Edge(b.BottomRight(), b.TopRight(), p) == h * (b.x1 - p.x);
    assert Edge(b.TopRight(), b.TopLeft(), p) == w * (p.y - b.y0);
    assert Edge(b.BottomLeft(), b.BottomRight(), p) == w * (b.y1 - p.y);
    assert Edge(b.TopLeft(), b.BottomLeft(), p) == h * (p.x - b.x0);
  }

  /** Above or below the falling diagonal. */
  lemma DiagonalTests(b: Box, p: Point)
    requires b.Proper()
    ensures Inside(b.TopLeft(), b.BottomRight(), p) && b.y0 <= p.y && p.x <= b.x1 ==> b.x0 < p.x && p.y < b.y1
    ensures Inside(b.BottomRight(), b.TopLeft(), p) && b.x0 < p.x && p.y < b.y1 ==> b.y0 <= p.y && p.x <= b.x1
  {
    var w, h, dx, dy := b.x1 - b.x0, b.y1 - b.y0, p.x - b.x0, p.y - b.y0;
    EdgeSwaps(b.TopLeft(), b.BottomRight(), p);
    assert Edge(b.TopLeft(), b.BottomRight(), p) == h * dx - w * dy;
    SameSign(h, dx);
    SameSign(w, dy);
    SameSign(w, h - dy);
    SameSign(h, w - dx);
    assert w * (h - dy) == w * h - w * dy && h * (w - dx) == w * h - h * dx;
  }

  lemma BoxTriangles(b: Box, p: Point)
    requires b.Proper()
    ensures Covers(b.TopLeft(), b.TopRight(), b.BottomRight(), p)
            <==> Inside(b.BottomRight(), b.TopRight(), p) && Inside(b.TopRight(), b.TopLeft(), p) && Inside(b.TopLeft(), b.BottomRight(), p)
    ensures Covers(b.TopLeft(), b.BottomRight(), b.BottomLeft(), p)
            <==> Inside(b.BottomLeft(), b.BottomRight(), p) && Inside(b.BottomRight(), b.TopLeft(), p) && Inside(b.TopLeft(), b.BottomLeft(), p)
  {
    var w, h := b.x1 - b.x0, b.y1 - b.y0;
    SameSign(w, h);
    assert Edge(b.TopLeft(), b.TopRight(), b.BottomRight()) == -(w * h);
    assert Edge(b.TopLeft(), b.BottomRight(), b.BottomLeft()) == -(w * h);
  }

  /** A rectangle made of two triangles covers each point of a half-open rectangle, once, and no other.
      Of its sides it owns the top and the right one. */
  lemma RectangleCovered(b: Box, p: Point)
    requires b.Proper()
    ensures var upper := Covers(b.TopLeft(), b.TopRight(), b.BottomRight(), p);
            var lower := Covers(b.TopLeft(), b.BottomRight(), b.BottomLeft(), p);
            (upper || lower <==> b.Holds(p)) && !(upper && lower)
  {
    BoxTriangles(b, p);
    SideTests(b, p);
    DiagonalTests(b, p);
    EdgeSplitsPlane(b.TopLeft(), b.BottomRight(), p);
  }

  /** A point strictly inside a shared edge is drawn by exactly one of the two triangles. */
  lemma SharedEdgeDrawnExactlyOnce(t: Corners, u: Corners, a: Point, b: Point, c: Point, d: Point, p: Point, s: real)
    requires OppositeSides(a, b, c, d) && t.Are(a, b, c) && u.Are(a, b, d) && Between(a, b, p, s)
    ensures t.Cover(p) != u.Cover(p)
  {
    CoversAnyOrder(a, b, c, p);
    CoversAnyOrder(a, b, d, p);
    EdgeSplitsPlane(a, b, p);
    CoversOnEdge(a, b, c, p, s);
    CoversOnEdge(a, b, d, p, s);
  }

  /** On an edge only that edge decides. */
  lemma CoversOnEdge(a: Point, b: Point, c: Point, p: Point, t: real)
    requires Edge(a, b, c) != 0.0 && Between(a, b, p, t)
    ensures Covers(a, b, c, p) == if Edge(a, b, c) > 0.0 then Inside(a, b, p) else Inside(b, a, p)
  {
    OnSegment(a, b, c, p, t);
    var area := Edge(a, b, c);
    ScaleSign(t, area, Edge(c, a, p));
    ScaleSign(1.0 - t, area, Edge(b, c, p));
    EdgeSwaps(b, c, p);
    EdgeSwaps(c, a, p);
  }

  /** A positive factor keeps the sign. */
  lemma ScaleSign(t: real, x: real, y: real)
    requires t > 0.0 && x != 0.0 && y == t * x
    ensures x > 0.0 <==> y > 0.0
    ensures x < 0.0 <==> y < 0.0
  {
  }

  // ----- rows ---------------------------------------------------------------------------------

  /** Along a row the edge function is affine. */
  lemma EdgeAlongRow(a: Point, b: Point, p: Point, q: Point)
    requires p.y == q.y
    ensures Edge(a, b, q) == Edge(a, b, p) + (q.x - p.x) * (b.y - a.y)
  {
  }

  lemma InsideBetween(a: Point, b: Point, p: Point, q: Point, r: Point)
    requires p.y == q.y == r.y && p.x <= q.x <= r.x
    requires Inside(a, b, p) && Inside(a, b, r)
    ensures Inside(a, b, q)
  {
    EdgeAlongRow(a, b, p, q);
    EdgeAlongRow(a, b, q, r);
    var dy := b.y - a.y;
    if dy >= 0.0 {
      assert (q.x - p.x) * dy >= 0.0;
    } else {
      assert (r.x - q.x) * dy <= 0.0;
    }
  }

  /** The pixels a triangle covers on a row are contiguous. */
  lemma RowContiguous(a: Point, b: Point, c: Point, p: Point, q: Point, r: Point)
    requires p.y == q.y == r.y && p.x <= q.x <= r.x
    requires Covers(a, b, c, p) && Covers(a, b, c, r)
    ensures Covers(a, b, c, q)
  {
    if Edge(a, b, c) > 0.0 {
      InsideBetween(b, c, p, q, r);
      InsideBetween(c, a, p, q, r);
      InsideBetween(a, b, p, q, r);
    } else {
      InsideBetween(c, b, p, q, r);
      InsideBetween(b, a, p, q, r);
      InsideBetween(a, c, p, q, r);
    }
  }

  // ----- barycentric weights ------------------------------------------------------------------

  lemma EdgesSumToArea(a: Point, b: Point, c: Point, p: Point)
    ensures Edge(b, c, p) + Edge(c, a, p) + Edge(a, b, p) == Edge(a, b, c)
  {
  }

  lemma EdgesWeighPoint(a: Point, b: Point, c: Point, p: Point)
    ensures Edge(b, c, p) * a.x + Edge(c, a, p) * b.x + Edge(a, b, p) * c.x == Edge(a, b, c) * p.x
    ensures Edge(b, c, p) * a.y + Edge(c, a, p) * b.y + Edge(a, b, p) * c.y == Edge(a, b, c) * p.y
  {
  }

  lemma ProductNonNegative(x: real, y: real)
    requires x >= 0.0 && y >= 0.0
    ensures x * y >= 0.0
  {
  }

  lemma MeanAbove(e0: real, e1: real, e2: real, u0: real, u1: real, u2: real, m: real, lo: real)
    requires e0 >= 0.0 && e1 >= 0.0 && e2 >= 0.0 && e0 + e1 + e2 > 0.0
    requires lo <= u0 && lo <= u1 && lo <= u2
    requires e0 * u0 + e1 * u1 + e2 * u2 == (e0 + e1 + e2) * m
    ensures lo <= m
  {
    ProductNonNegative(e0, u0 - lo);
    ProductNonNegative(e1, u1 - lo);
    ProductNonNegative(e2, u2 - lo);
    var s := e0 + e1 + e2;
    var d := m - lo;
    assert s * d == e0 * (u0 - lo) + e1 * (u1 - lo) + e2 * (u2 - lo);
    if d < 0.0 { ScaleSign(s, d, s * d); }
  }

  /** A weighted mean lies between bounds of its parts. */
  lemma MeanBetween(e0: real, e1: real, e2: real, u0: real, u1: real, u2: real, m: real, lo: real, hi: real)
    requires e0 >= 0.0 && e1 >= 0.0 && e2 >= 0.0 && e0 + e1 + e2 > 0.0
    requires lo <= u0 <= hi && lo <= u1 <= hi && lo <= u2 <= hi
    requires e0 * u0 + e1 * u1 + e2 * u2 == (e0 + e1 + e2) * m
    ensures lo <= m <= hi
  {
    MeanAbove(e0, e1, e2, u0, u1, u2, m, lo);
    assert e0 * -u0 + e1 * -u1 + e2 * -u2 == -(e0 * u0 + e1 * u1 + e2 * u2) == (e0 + e1 + e2) * -m;
    MeanAbove(e0, e1, e2, -u0, -u1, -u2, -m, -hi);
  }

  function Min3(a: real, b: real, c: real): real
  {
    var m := if a < b then a else b;
    if m < c then m else c
  }

  function Max3(a: real, b: real, c: real): real
  {
    var m := if a > b then a else b;
    if m > c then m else c
  }

  lemma InTriangleInBox(a: Point, b: Point, c: Point, p: Point)
    requires Edge(a, b, c) > 0.0 && InTriangle(a, b, c, p)
    ensures Min3(a.x, b.x, c.x) <= p.x <= Max3(a.x, b.x, c.x)
    ensures Min3(a.y, b.y, c.y) <= p.y <= Max3(a.y, b.y, c.y)
  {
    var e0, e1, e2 := Edge(b, c, p), Edge(c, a, p), Edge(a, b, p);
    EdgesSumToArea(a, b, c, p);
    EdgesWeighPoint(a, b, c, p);
    MeanBetween(e0, e1, e2, a.x, b.x, c.x, p.x, Min3(a.x, b.x, c.x), Max3(a.x, b.x, c.x));
    MeanBetween(e0, e1, e2, a.y, b.y, c.y, p.y, Min3(a.y, b.y, c.y), Max3(a.y, b.y, c.y));
  }

  lemma CoveredInBox(a: Point, b: Point, c: Point, p: Point)
    requires Covers(a, b, c, p)
    ensures Min3(a.x, b.x, c.x) <= p.x <= Max3(a.x, b.x, c.x)
    ensures Min3(a.y, b.y, c.y) <= p.y <= Max3(a.y, b.y, c.y)
  {
    EdgeFlips(a, b, c);
    if Edge(a, b, c) > 0.0 {
      InTriangleInBox(a, b, c, p);
    } else {
      InTriangleInBox(a, c, b, p);
    }
  }

  function Floor(x: real): int { x.Floor }
  function Ceil(x: real): int { -((-x).Floor) }

  /** A pixel whose centre lies between two bounds lies between their floor and ceiling. */
  lemma PixelBetween(lo: real, hi: real, x: int)
    requires lo <= x as real + 0.5 <= hi
    ensures Floor(lo) <= x < Ceil(hi)
  {
  }

  /** Covered pixels lie in the triangle's integer bounding box. */
  lemma CoveredInPixelBox(a: Point, b: Point, c: Point, x: int, y: int)
    requires Covers(a, b, c, Center(x, y))
    ensures Floor(Min3(a.x, b.x, c.x)) <= x < Ceil(Max3(a.x, b.x, c.x))
    ensures Floor(Min3(a.y, b.y, c.y)) <= y < Ceil(Max3(a.y, b.y, c.y))
  {
    CoveredInBox(a, b, c, Center(x, y));
    PixelBetween(Min3(a.x, b.x, c.x), Max3(a.x, b.x, c.x), x);
    PixelBetween(Min3(a.y, b.y, c.y), Max3(a.y, b.y, c.y), y);
  }
}
