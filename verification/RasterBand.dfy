/** Drawing triangles and scenes into a band of canvas rows. */
module RasterBand {
  import opened Common
  import opened RasterGeometry
  import opened RasterShade

  /** Half-open pixel rectangle. */
  datatype Rect = Rect(x0: int, y0: int, x1: int, y1: int)
  {
    predicate Contains(x: int, y: int) { x0 <= x < x1 && y0 <= y < y1 }
  }

  // ----- what a triangle draws at a pixel -----------------------------------------------------

  /** The vertices in the order that makes the area positive. */
  function Ordered(t: Triple): Triple
  {
    if Edge(t.v0.At(), t.v1.At(), t.v2.At()) > 0.0 then t else Triple(t.v0, t.v2, t.v1)
  }

  function Area(t: Triple): real
  {
    Edge(t.v0.At(), t.v1.At(), t.v2.At())
  }

  predicate Hits(t: Triple, p: Point)
  {
    InTriangle(t.v0.At(), t.v1.At(), t.v2.At(), p)
  }

  lemma OrderedPositive(t: Triple)
    requires Area(t) != 0.0
    ensures Area(Ordered(t)) > 0.0
  {
    EdgeFlips(t.v0.At(), t.v1.At(), t.v2.At());
  }

  function WeightsAt(t: Triple, p: Point): (w: Weights)
    requires Area(t) > 0.0 && Hits(t, p)
    ensures w.Valid()
  {
    var a, b, c := t.v0.At(), t.v1.At(), t.v2.At();
    var e0, e1, e2, area := Edge(b, c, p), Edge(c, a, p), Edge(a, b, p), Area(t);
    EdgesSumToArea(a, b, c, p);
    Shares(e0, e1, e2, area);
    Weights(e0 / area, e1 / area, e2 / area)
  }

  lemma Shares(e0: real, e1: real, e2: real, area: real)
    requires e0 >= 0.0 && e1 >= 0.0 && e2 >= 0.0 && area > 0.0 && e0 + e1 + e2 == area
    ensures Weights(e0 / area, e1 / area, e2 / area).Valid()
  {
    assert e0 / area + e1 / area + e2 / area == (e0 + e1 + e2) / area;
  }

  lemma ShareOf(e0: real, e1: real, e2: real, area: real, a: real, b: real, c: real, m: real)
    requires area > 0.0 && e0 * a + e1 * b + e2 * c == area * m
    ensures e0 / area * a + e1 / area * b + e2 / area * c == m
  {
    assert e0 / area * a == e0 * a / area && e1 / area * b == e1 * b / area && e2 / area * c == e2 * c / area;
    assert e0 * a / area + e1 * b / area + e2 * c / area == (e0 * a + e1 * b + e2 * c) / area;
  }

  /** The weights are the barycentric coordinates of the point: they take the vertices to it. */
  lemma WeightsLocate(t: Triple, p: Point)
    requires Area(t) > 0.0 && Hits(t, p)
    ensures WeightsAt(t, p).Of(t.v0.x, t.v1.x, t.v2.x) == p.x && WeightsAt(t, p).Of(t.v0.y, t.v1.y, t.v2.y) == p.y
  {
    var a, b, c := t.v0.At(), t.v1.At(), t.v2.At();
    EdgesWeighPoint(a, b, c, p);
    ShareOf(Edge(b, c, p), Edge(c, a, p), Edge(a, b, p), Area(t), a.x, b.x, c.x, p.x);
    ShareOf(Edge(b, c, p), Edge(c, a, p), Edge(a, b, p), Area(t), a.y, b.y, c.y, p.y);
  }

  lemma EdgeAtEnds(a: Point, b: Point)
    ensures Edge(a, b, a) == 0.0 && Edge(a, b, b) == 0.0
  {
  }

  lemma OwnShare(area: real)
    requires area > 0.0
    ensures area / area == 1.0 && 0.0 / area == 0.0
  {
  }

  lemma VertexWeights(t: Triple)
    requires Area(t) > 0.0
    ensures Hits(t, t.v0.At()) ==> WeightsAt(t, t.v0.At()) == Weights(1.0, 0.0, 0.0)
    ensures Hits(t, t.v1.At()) ==> WeightsAt(t, t.v1.At()) == Weights(0.0, 1.0, 0.0)
    ensures Hits(t, t.v2.At()) ==> WeightsAt(t, t.v2.At()) == Weights(0.0, 0.0, 1.0)
  {
    var a, b, c := t.v0.At(), t.v1.At(), t.v2.At();
    EdgeRotates(a, b, c);
    EdgeAtEnds(a, b);
    EdgeAtEnds(b, c);
    EdgeAtEnds(c, a);
    OwnShare(Area(t));
  }

  /** The weights single out one vertex: colour and texture coordinates are that vertex's. */
  predicate ShadedAs(t: Triple, w: Weights, v: Vertex)
    requires w.Valid()
  {
    Interpolated(t, w) == Wide(v.color) && w.Of(t.v0.u, t.v1.u, t.v2.u) == v.u && w.Of(t.v0.v, t.v1.v, t.v2.v) == v.v
  }

  lemma UnitShaded(t: Triple)
    ensures ShadedAs(t, Weights(1.0, 0.0, 0.0), t.v0) && ShadedAs(t, Weights(0.0, 1.0, 0.0), t.v1) && ShadedAs(t, Weights(0.0, 0.0, 1.0), t.v2)
  {
  }

  /** At a vertex, a triangle shows that vertex's own colour, and the texture where that vertex points. */
  lemma VertexShaded(t: Triple, tex: Option<Atlas>)
    requires Area(t) > 0.0 && ValidTexture(tex)
    ensures forall v | v in {t.v0, t.v1, t.v2} && Hits(t, v.At()) ::
              Interpolated(t, WeightsAt(t, v.At())) == Wide(v.color)
    ensures forall v | v in {t.v0, t.v1, t.v2} && Hits(t, v.At()) && tex.Some? ::
              SampledAt(t, WeightsAt(t, v.At()), tex) == Sample(tex.value, v.u, v.v)
  {
    VertexWeights(t);
    UnitShaded(t);
  }

  /** A triangle given in any order, at one pixel: the general path where it covers the centre. */
  function DrawTriangle(tex: Option<Atlas>, t: Triple, x: int, y: int, dst: Pixel): Pixel
    requires ValidTexture(tex)
  {
    if Area(t) == 0.0 then dst
    else
      OrderedPositive(t);
      var o := Ordered(t);
      if Hits(o, Center(x, y)) then Shade(o, WeightsAt(o, Center(x, y)), tex, dst) else dst
  }

  lemma DrawsWhereCovered(tex: Option<Atlas>, t: Triple, x: int, y: int, dst: Pixel)
    requires ValidTexture(tex)
    requires !Covers(t.v0.At(), t.v1.At(), t.v2.At(), Center(x, y))
    ensures DrawTriangle(tex, t, x, y, dst) == dst
  {
  }

  /** Where a flat opaque triangle covers, it puts its constant. */
  lemma ConstantDrawn(tex: Option<Atlas>, t: Triple, x: int, y: int, d: Pixel, out: Pixel)
    requires ValidTexture(tex) && Area(t) != 0.0 && Hits(Ordered(t), Center(x, y)) && PlanFill(Ordered(t), tex) == Constant(out)
    ensures DrawTriangle(tex, t, x, y, d) == out
  {
    OrderedPositive(t);
    FastPathsAgree(Ordered(t), WeightsAt(Ordered(t), Center(x, y)), tex, d);
  }

  // ----- raster_tri ---------------------------------------------------------------------------

  /** The contents of a canvas, by column and row. */
  type Picture = (int, int) -> Pixel

  ghost predicate Shows(canvas: array2<Pixel>, pic: Picture)
    reads canvas
  {
    forall y, x | 0 <= y < canvas.Length0 && 0 <= x < canvas.Length1 :: canvas[y, x] == pic(x, y)
  }

  /** Drawing an ordered triangle at one pixel. */
  function DrawOrdered(tex: Option<Atlas>, t: Triple, x: int, y: int, dst: Pixel): Pixel
    requires Area(t) > 0.0 && ValidTexture(tex)
  {
    if Hits(t, Center(x, y)) then Shade(t, WeightsAt(t, Center(x, y)), tex, dst) else dst
  }

  predicate ValidTexture(tex: Option<Atlas>)
  {
    tex.Some? ==> tex.value.Valid()
  }

  /** `after` is `before` with the ordered triangle drawn inside the box. */
  ghost predicate Drawn(tex: Option<Atlas>, t: Triple, box: Rect, before: Picture, after: Picture)
    requires Area(t) > 0.0 && ValidTexture(tex)
  {
    forall x, y :: PixelDrawn(tex, t, box, before, after, x, y)
  }

  ghost predicate PixelDrawn(tex: Option<Atlas>, t: Triple, box: Rect, before: Picture, after: Picture, x: int, y: int)
    requires Area(t) > 0.0 && ValidTexture(tex)
  {
    after(x, y) == if box.Contains(x, y) then DrawOrdered(tex, t, x, y, before(x, y)) else before(x, y)
  }

  /** Once past the covered span, the rest of the row is outside. */
  lemma SpanOver(t: Triple, y: int, first: int, x: int, later: int)
    requires Area(t) > 0.0 && first <= x <= later
    requires Hits(t, Center(first, y)) && !Hits(t, Center(x, y))
    ensures !Hits(t, Center(later, y))
  {
    if Hits(t, Center(later, y)) {
      RowContiguous(t.v0.At(), t.v1.At(), t.v2.At(), Center(first, y), Center(x, y), Center(later, y));
    }
  }

  lemma Kept(tex: Option<Atlas>, t: Triple, box: Rect, before: Picture, after: Picture, x: int, y: int)
    requires Area(t) > 0.0 && ValidTexture(tex) && Drawn(tex, t, box, before, after)
    requires !box.Contains(x, y) || !Hits(t, Center(x, y))
    ensures after(x, y) == before(x, y)
  {
    assert PixelDrawn(tex, t, box, before, after, x, y);
  }

  /** What the early exit skips would not have been drawn. */
  lemma RestKept(tex: Option<Atlas>, t: Triple, box: Rect, before: Picture, after: Picture, first: int, x: int, y: int)
    requires Area(t) > 0.0 && ValidTexture(tex) && Drawn(tex, t, box, before, after)
    requires first <= x && Hits(t, Center(first, y)) && !Hits(t, Center(x, y))
    ensures forall k | x <= k :: after(k, y) == before(k, y)
  {
    forall k | x <= k
      ensures after(k, y) == before(k, y)
    {
      SpanOver(t, y, first, x, k);
      Kept(tex, t, box, before, after, k, y);
    }
  }

  lemma RowOutsideKept(tex: Option<Atlas>, t: Triple, box: Rect, before: Picture, after: Picture, y: int)
    requires Area(t) > 0.0 && ValidTexture(tex) && Drawn(tex, t, box, before, after)
    ensures forall x | !box.Contains(x, y) :: after(x, y) == before(x, y)
  {
    forall x | !box.Contains(x, y)
      ensures after(x, y) == before(x, y)
    {
      Kept(tex, t, box, before, after, x, y);
    }
  }

  /** A covered pixel, through the fast paths. */
  method DrawPixel(tex: Option<Atlas>, t: Triple, fill: Fill, x: int, y: int, dst: Pixel,
                   ghost box: Rect, ghost before: Picture, ghost after: Picture) returns (p: Pixel)
    requires Area(t) > 0.0 && ValidTexture(tex) && fill == PlanFill(t, tex)
    requires Drawn(tex, t, box, before, after) && box.Contains(x, y) && dst == before(x, y)
    requires Hits(t, Center(x, y))
    ensures p == after(x, y)
  {
    var w := WeightsAt(t, Center(x, y));
    FastPathsAgree(t, w, tex, dst);
    p := Filled(fill, t, w, tex, dst);
    assert PixelDrawn(tex, t, box, before, after, x, y);
  }

  /** One scanline, with the early exit after the covered span. */
  method RasterSpan(canvas: array2<Pixel>, y: int, box: Rect, tex: Option<Atlas>, t: Triple, fill: Fill,
                    ghost before: Picture, ghost after: Picture)
    requires Area(t) > 0.0 && ValidTexture(tex) && fill == PlanFill(t, tex)
    requires 0 <= y < canvas.Length0 && 0 <= box.x0 <= box.x1 <= canvas.Length1 && box.y0 <= y < box.y1
    requires Drawn(tex, t, box, before, after)
    requires forall x | 0 <= x < canvas.Length1 :: canvas[y, x] == before(x, y)
    modifies canvas
    ensures forall x | 0 <= x < canvas.Length1 :: canvas[y, x] == after(x, y)
    ensures forall i, j | 0 <= i < canvas.Length0 && 0 <= j < canvas.Length1 && i != y :: canvas[i, j] == old(canvas[i, j])
  {
    var a, b, c := t.v0.At(), t.v1.At(), t.v2.At();
    RowOutsideKept(tex, t, box, before, after, y);
    var entered := false;
    ghost var first := box.x0;
    var px := box.x0;
    while px < box.x1
      invariant box.x0 <= px <= box.x1
      invariant entered ==> first < px && Hits(t, Center(first, y))
      invariant forall x | 0 <= x < canvas.Length1 :: canvas[y, x] == if x < px then after(x, y) else before(x, y)
      invariant forall i, j | 0 <= i < canvas.Length0 && 0 <= j < canvas.Length1 && i != y :: canvas[i, j] == old(canvas[i, j])
    {
      var p := Center(px, y);
      if !(Inside(b, c, p) && Inside(c, a, p) && Inside(a, b, p)) {
        if entered {
          RestKept(tex, t, box, before, after, first, px, y);
          break;
        }
        Kept(tex, t, box, before, after, px, y);
      } else {
        if !entered { first := px; }
        entered := true;
        var shaded := DrawPixel(tex, t, fill, px, y, canvas[y, px], box, before, after);
        canvas[y, px] := shaded;
      }
      px := px + 1;
    }
  }

  // ----- the whole triangle -------------------------------------------------------------------

  function Max(a: int, b: int): int { if a > b then a else b }
  function Min(a: int, b: int): int { if a < b then a else b }

  /** The integer bounding box of a triangle within a clip rectangle. */
  function PixelBox(t: Triple, clip: Rect): Rect
  {
    Rect(Max(Floor(Min3(t.v0.x, t.v1.x, t.v2.x)), clip.x0), Max(Floor(Min3(t.v0.y, t.v1.y, t.v2.y)), clip.y0),
         Min(Ceil(Max3(t.v0.x, t.v1.x, t.v2.x)), clip.x1), Min(Ceil(Max3(t.v0.y, t.v1.y, t.v2.y)), clip.y1))
  }

  /** Inside the clip, nothing outside the bounding box is covered. */
  lemma BoxHoldsHits(t: Triple, clip: Rect, x: int, y: int)
    requires Area(t) > 0.0 && clip.Contains(x, y) && Hits(t, Center(x, y))
    ensures PixelBox(t, clip).Contains(x, y)
  {
    CoveredInPixelBox(t.v0.At(), t.v1.At(), t.v2.At(), x, y);
  }

  /** Drawing inside the clip is drawing inside the bounding box. */
  lemma BoxSuffices(tex: Option<Atlas>, t: Triple, clip: Rect, before: Picture, after: Picture)
    requires Area(t) > 0.0 && ValidTexture(tex) && Drawn(tex, t, clip, before, after)
    ensures Drawn(tex, t, PixelBox(t, clip), before, after)
  {
    forall x, y
      ensures PixelDrawn(tex, t, PixelBox(t, clip), before, after, x, y)
    {
      assert PixelDrawn(tex, t, clip, before, after, x, y);
      if clip.Contains(x, y) && Hits(t, Center(x, y)) { BoxHoldsHits(t, clip, x, y); }
    }
  }

  /** An ordered triangle into the rows of the clip rectangle. */
  method RasterOrdered(canvas: array2<Pixel>, clip: Rect, tex: Option<Atlas>, t: Triple, ghost before: Picture, ghost after: Picture)
    requires Area(t) > 0.0 && ValidTexture(tex)
    requires 0 <= clip.x0 && clip.x1 <= canvas.Length1 && 0 <= clip.y0 && clip.y1 <= canvas.Length0
    requires Shows(canvas, before) && Drawn(tex, t, clip, before, after)
    modifies canvas
    ensures Shows(canvas, after)
  {
    var box := PixelBox(t, clip);
    BoxSuffices(tex, t, clip, before, after);
    forall x, y | 0 <= y < canvas.Length0 && 0 <= x < canvas.Length1 && !(box.y0 <= y < box.y1 && box.x0 < box.x1)
      ensures after(x, y) == before(x, y)
    {
      Kept(tex, t, box, before, after, x, y);
    }
    if box.x0 >= box.x1 || box.y0 >= box.y1 { return; }
    var fill := PlanFill(t, tex);
    if fill.Nothing? {
      NothingDrawn(tex, t, box, before, after);
      return;
    }
    var y := box.y0;
    while y < box.y1
      invariant box.y0 <= y <= box.y1
      invariant forall i, j | 0 <= i < canvas.Length0 && 0 <= j < canvas.Length1 ::
                  canvas[i, j] == if i < y then after(j, i) else before(j, i)
    {
      RasterSpan(canvas, y, box, tex, t, fill, before, after);
      y := y + 1;
    }
  }

  /** A fully transparent triangle is nowhere seen. */
  lemma NothingDrawn(tex: Option<Atlas>, t: Triple, box: Rect, before: Picture, after: Picture)
    requires Area(t) > 0.0 && ValidTexture(tex) && Drawn(tex, t, box, before, after) && PlanFill(t, tex).Nothing?
    ensures forall x, y :: after(x, y) == before(x, y)
  {
    forall x, y
      ensures after(x, y) == before(x, y)
    {
      assert PixelDrawn(tex, t, box, before, after, x, y);
      if Hits(t, Center(x, y)) {
        FastPathsAgree(t, WeightsAt(t, Center(x, y)), tex, before(x, y));
      }
    }
  }

  /** `after` is `before` with a triangle, given in any order, drawn inside the rectangle. */
  ghost predicate TriangleDrawn(tex: Option<Atlas>, t: Triple, rect: Rect, before: Picture, after: Picture)
    requires ValidTexture(tex)
  {
    forall x, y :: TriangleDrawnAt(tex, t, rect, before, after, x, y)
  }

  ghost predicate TriangleDrawnAt(tex: Option<Atlas>, t: Triple, rect: Rect, before: Picture, after: Picture, x: int, y: int)
    requires ValidTexture(tex)
  {
    after(x, y) == if rect.Contains(x, y) then DrawTriangle(tex, t, x, y, before(x, y)) else before(x, y)
  }

  lemma OrderedDrawn(tex: Option<Atlas>, t: Triple, rect: Rect, before: Picture, after: Picture)
    requires ValidTexture(tex) && TriangleDrawn(tex, t, rect, before, after)
    ensures Area(t) == 0.0 ==> forall x, y :: after(x, y) == before(x, y)
    ensures Area(t) != 0.0 ==> Area(Ordered(t)) > 0.0 && Drawn(tex, Ordered(t), rect, before, after)
  {
    if Area(t) != 0.0 {
      OrderedPositive(t);
      forall x, y
        ensures PixelDrawn(tex, Ordered(t), rect, before, after, x, y)
      {
        assert TriangleDrawnAt(tex, t, rect, before, after, x, y);
      }
    } else {
      forall x, y
        ensures after(x, y) == before(x, y)
      {
        assert TriangleDrawnAt(tex, t, rect, before, after, x, y);
      }
    }
  }

  /** The rows of a rectangle that fall inside a band. */
  function Rows(r: Rect, y0: int, y1: int): Rect
  {
    Rect(r.x0, Max(r.y0, y0), r.x1, Min(r.y1, y1))
  }

  method RasterTri(canvas: array2<Pixel>, y0: int, y1: int, clip: Rect, tex: Option<Atlas>, t: Triple,
                   ghost before: Picture, ghost after: Picture)
    requires ValidTexture(tex) && 0 <= y0 && y1 <= canvas.Length0 && 0 <= clip.x0 && clip.x1 <= canvas.Length1
    requires Shows(canvas, before) && TriangleDrawn(tex, t, Rows(clip, y0, y1), before, after)
    modifies canvas
    ensures Shows(canvas, after)
  {
    OrderedDrawn(tex, t, Rows(clip, y0, y1), before, after);
    if Area(t) == 0.0 { return; }
    RasterOrdered(canvas, Rows(clip, y0, y1), tex, Ordered(t), before, after);
  }

  // ----- scenes -------------------------------------------------------------------------------

  datatype Clip = Clip(x0: real, y0: real, x1: real, y1: real)
  {
    function Pixels(): Rect { Rect(Floor(x0), Floor(y0), Ceil(x1), Ceil(y1)) }
  }

  datatype Prim = Prim(clip: Clip, texId: nat, idx0: nat, idx1: nat)

  datatype Scene = Scene(verts: seq<Vertex>, idx: seq<nat>, prims: seq<Prim>)

  type Textures = map<nat, Atlas>

  ghost predicate ValidTextures(textures: Textures)
  {
    forall id | id in textures :: textures[id].Valid()
  }

  function TextureOf(textures: Textures, id: nat): Option<Atlas>
  {
    if id in textures then Some(textures[id]) else None
  }

  /** The indices of a primitive; a range that does not fit is cut to what there is. */
  function Slice(p: Prim, idx: seq<nat>): seq<nat>
  {
    var lo, hi := Min(p.idx0, |idx|), Min(p.idx1, |idx|);
    if lo < hi then idx[lo..hi] else []
  }

  /** The k-th triangle of a mesh, unless one of its indices is out of range. */
  function TriangleAt(verts: seq<Vertex>, slice: seq<nat>, k: nat): Option<Triple>
    requires 3 * k + 3 <= |slice|
  {
    var a, b, c := slice[3 * k], slice[3 * k + 1], slice[3 * k + 2];
    if a >= |verts| || b >= |verts| || c >= |verts| then None
    else Some(Triple(verts[a], verts[b], verts[c]))
  }

  /** A pixel after the first n triangles of a mesh. */
  function MeshAt(tex: Option<Atlas>, verts: seq<Vertex>, slice: seq<nat>, n: nat, x: int, y: int, dst: Pixel): Pixel
    requires ValidTexture(tex) && 3 * n <= |slice|
  {
    if n == 0 then dst
    else
      var d := MeshAt(tex, verts, slice, n - 1, x, y, dst);
      var t := TriangleAt(verts, slice, n - 1);
      if t.None? then d else DrawTriangle(tex, t.value, x, y, d)
  }

  function PrimAt(textures: Textures, p: Prim, verts: seq<Vertex>, idx: seq<nat>, x: int, y: int, dst: Pixel): Pixel
    requires ValidTextures(textures)
  {
    if p.clip.Pixels().Contains(x, y) then
      MeshAt(TextureOf(textures, p.texId), verts, Slice(p, idx), |Slice(p, idx)| / 3, x, y, dst)
    else dst
  }

  /** A pixel of a full repaint: the clear colour, then the first n primitives in order. */
  function SceneAt(textures: Textures, clear: Pixel, s: Scene, n: nat, x: int, y: int): Pixel
    requires ValidTextures(textures) && n <= |s.prims|
  {
    if n == 0 then clear
    else PrimAt(textures, s.prims[n - 1], s.verts, s.idx, x, y, SceneAt(textures, clear, s, n - 1, x, y))
  }

  // ----- raster_band --------------------------------------------------------------------------

  method FillRect(canvas: array2<Pixel>, by0: int, by1: int, rect: Rect, rgba: Pixel)
    requires 0 <= by0 && by1 <= canvas.Length0 && 0 <= rect.x0 && rect.x1 <= canvas.Length1
    modifies canvas
    ensures forall y, x | 0 <= y < canvas.Length0 && 0 <= x < canvas.Length1 ::
              canvas[y, x] == if Rows(rect, by0, by1).Contains(x, y) then rgba else old(canvas[y, x])
  {
    var y0, y1 := Max(rect.y0, by0), Min(rect.y1, by1);
    var y := y0;
    while y < y1
      invariant y0 <= y && (y <= y1 || y == y0)
      invariant forall i, j | 0 <= i < canvas.Length0 && 0 <= j < canvas.Length1 ::
                  canvas[i, j] == if rect.x0 <= j < rect.x1 && y0 <= i < y then rgba else old(canvas[i, j])
    {
      var x := rect.x0;
      while x < rect.x1
        invariant rect.x0 <= x && (x <= rect.x1 || x == rect.x0)
        invariant forall i, j | 0 <= i < canvas.Length0 && 0 <= j < canvas.Length1 ::
                    canvas[i, j] == if rect.x0 <= j < rect.x1 && (y0 <= i < y || (i == y && j < x)) then rgba else old(canvas[i, j])
      {
        canvas[y, x] := rgba;
        x := x + 1;
      }
      y := y + 1;
    }
  }

  /** The picture after n triangles of a mesh, drawn inside a rectangle. */
  ghost function MeshPicture(tex: Option<Atlas>, verts: seq<Vertex>, slice: seq<nat>, n: nat, rect: Rect, before: Picture): Picture
    requires ValidTexture(tex) && 3 * n <= |slice|
  {
    (x: int, y: int) => if rect.Contains(x, y) then MeshAt(tex, verts, slice, n, x, y, before(x, y)) else before(x, y)
  }

  lemma MeshStep(tex: Option<Atlas>, verts: seq<Vertex>, slice: seq<nat>, k: nat, x: int, y: int, dst: Pixel)
    requires ValidTexture(tex) && 3 * k + 3 <= |slice|
    ensures var d, t := MeshAt(tex, verts, slice, k, x, y, dst), TriangleAt(verts, slice, k);
            MeshAt(tex, verts, slice, k + 1, x, y, dst) == if t.None? then d else DrawTriangle(tex, t.value, x, y, d)
  {
  }

  lemma NextTriangle(tex: Option<Atlas>, verts: seq<Vertex>, slice: seq<nat>, k: nat, rect: Rect, before: Picture)
    requires ValidTexture(tex) && 3 * k + 3 <= |slice|
    ensures var pic, next := MeshPicture(tex, verts, slice, k, rect, before), MeshPicture(tex, verts, slice, k + 1, rect, before);
            var t := TriangleAt(verts, slice, k);
            && (t.None? ==> forall x, y :: next(x, y) == pic(x, y))
            && (t.Some? ==> TriangleDrawn(tex, t.value, rect, pic, next))
  {
    var pic, next := MeshPicture(tex, verts, slice, k, rect, before), MeshPicture(tex, verts, slice, k + 1, rect, before);
    var t := TriangleAt(verts, slice, k);
    forall x, y
      ensures t.None? ==> next(x, y) == pic(x, y)
      ensures t.Some? ==> TriangleDrawnAt(tex, t.value, rect, pic, next, x, y)
    {
      MeshStep(tex, verts, slice, k, x, y, before(x, y));
    }
  }

  method RasterMesh(canvas: array2<Pixel>, by0: int, by1: int, clip: Rect, tex: Option<Atlas>, verts: seq<Vertex>, slice: seq<nat>,
                    ghost before: Picture)
    requires ValidTexture(tex) && 0 <= by0 && by1 <= canvas.Length0 && 0 <= clip.x0 && clip.x1 <= canvas.Length1
    requires Shows(canvas, before)
    modifies canvas
    ensures Shows(canvas, MeshPicture(tex, verts, slice, |slice| / 3, Rows(clip, by0, by1), before))
  {
    ghost var rect := Rows(clip, by0, by1);
    var k := 0;
    while k < |slice| / 3
      invariant k <= |slice| / 3
      invariant Shows(canvas, MeshPicture(tex, verts, slice, k, rect, before))
    {
      NextTriangle(tex, verts, slice, k, rect, before);
      var t := TriangleAt(verts, slice, k);
      if t.Some? {
        RasterTri(canvas, by0, by1, clip, tex, t.value,
                  MeshPicture(tex, verts, slice, k, rect, before), MeshPicture(tex, verts, slice, k + 1, rect, before));
      }
      k := k + 1;
    }
  }

  function Meet(a: Rect, b: Rect): Rect
  {
    Rect(Max(a.x0, b.x0), Max(a.y0, b.y0), Min(a.x1, b.x1), Min(a.y1, b.y1))
  }

  /** A band of a frame: the damaged pixels of its rows repainted with the first n primitives. */
  ghost function BandPicture(textures: Textures, clear: Pixel, s: Scene, n: nat, rect: Rect, before: Picture): Picture
    requires ValidTextures(textures) && n <= |s.prims|
  {
    (x: int, y: int) => if rect.Contains(x, y) then SceneAt(textures, clear, s, n, x, y) else before(x, y)
  }

  /** A primitive drawn inside its clip and the damaged rows is the next picture of the band. */
  lemma NextPrim(textures: Textures, clear: Pixel, s: Scene, n: nat, damage: Rect, by0: int, by1: int, before: Picture)
    requires ValidTextures(textures) && n < |s.prims|
    ensures var p := s.prims[n];
            var rect := Rows(damage, by0, by1);
            var clip := Rows(Meet(p.clip.Pixels(), damage), by0, by1);
            var tex, slice := TextureOf(textures, p.texId), Slice(p, s.idx);
            var pic := BandPicture(textures, clear, s, n, rect, before);
            var drawn := MeshPicture(tex, s.verts, slice, |slice| / 3, clip, pic);
            forall x, y :: BandPicture(textures, clear, s, n + 1, rect, before)(x, y) == drawn(x, y)
  {
    var p := s.prims[n];
    var rect := Rows(damage, by0, by1);
    var clip := Rows(Meet(p.clip.Pixels(), damage), by0, by1);
    var pic := BandPicture(textures, clear, s, n, rect, before);
    forall x, y
      ensures BandPicture(textures, clear, s, n + 1, rect, before)(x, y)
              == MeshPicture(TextureOf(textures, p.texId), s.verts, Slice(p, s.idx), |Slice(p, s.idx)| / 3, clip, pic)(x, y)
    {
      assert clip.Contains(x, y) <==> rect.Contains(x, y) && p.clip.Pixels().Contains(x, y);
      SceneStep(textures, clear, s, n, x, y);
    }
  }

  lemma SceneStep(textures: Textures, clear: Pixel, s: Scene, n: nat, x: int, y: int)
    requires ValidTextures(textures) && n < |s.prims|
    ensures SceneAt(textures, clear, s, n + 1, x, y)
            == PrimAt(textures, s.prims[n], s.verts, s.idx, x, y, SceneAt(textures, clear, s, n, x, y))
  {
  }

  lemma StartBand(textures: Textures, clear: Pixel, s: Scene, rect: Rect, before: Picture)
    requires ValidTextures(textures)
    ensures forall x, y :: BandPicture(textures, clear, s, 0, rect, before)(x, y) == if rect.Contains(x, y) then clear else before(x, y)
  {
    forall x, y
      ensures BandPicture(textures, clear, s, 0, rect, before)(x, y) == if rect.Contains(x, y) then clear else before(x, y)
    {
      assert SceneAt(textures, clear, s, 0, x, y) == clear;
    }
  }

  /** Nothing to draw where the clip is empty or there are no indices. */
  lemma EmptyPrim(tex: Option<Atlas>, verts: seq<Vertex>, slice: seq<nat>, clip: Rect, by0: int, by1: int, before: Picture)
    requires ValidTexture(tex) && (clip.x0 >= clip.x1 || clip.y0 >= clip.y1 || slice == [])
    ensures forall x, y :: MeshPicture(tex, verts, slice, |slice| / 3, Rows(clip, by0, by1), before)(x, y) == before(x, y)
  {
  }

  /** The rows [by0, by1) of a frame: clear the damage, then draw every primitive clipped to it. */
  method DrawBand(canvas: array2<Pixel>, by0: int, by1: int, damage: Rect, clear: Pixel, s: Scene, textures: Textures,
                    ghost before: Picture)
    requires ValidTextures(textures) && 0 <= by0 && by1 <= canvas.Length0
    requires 0 <= damage.x0 && damage.x1 <= canvas.Length1 && Shows(canvas, before)
    modifies canvas
    ensures Shows(canvas, BandPicture(textures, clear, s, |s.prims|, Rows(damage, by0, by1), before))
  {
    FillRect(canvas, by0, by1, damage, clear);
    ghost var rect := Rows(damage, by0, by1);
    StartBand(textures, clear, s, rect, before);
    var n := 0;
    while n < |s.prims|
      invariant n <= |s.prims|
      invariant Shows(canvas, BandPicture(textures, clear, s, n, rect, before))
    {
      var p := s.prims[n];
      var clip := Meet(p.clip.Pixels(), damage);
      var tex := TextureOf(textures, p.texId);
      var slice := Slice(p, s.idx);
      ghost var pic := BandPicture(textures, clear, s, n, rect, before);
      NextPrim(textures, clear, s, n, damage, by0, by1, before);
      if clip.x0 >= clip.x1 || clip.y0 >= clip.y1 || slice == [] {
        EmptyPrim(tex, s.verts, slice, clip, by0, by1, pic);
      } else {
        RasterMesh(canvas, by0, by1, clip, tex, s.verts, slice, pic);
      }
      n := n + 1;
    }
  }

  ghost function Contents(canvas: array2<Pixel>): (rows: seq<seq<Pixel>>)
    reads canvas
    ensures |rows| == canvas.Length0 && forall y | 0 <= y < |rows| ::
              |rows[y]| == canvas.Length1 && forall x | 0 <= x < canvas.Length1 :: rows[y][x] == canvas[y, x]
  {
    seq(canvas.Length0, y requires 0 <= y < canvas.Length0 reads canvas =>
      seq(canvas.Length1, x requires 0 <= x < canvas.Length1 reads canvas => canvas[y, x]))
  }

  ghost function PictureOf(rows: seq<seq<Pixel>>): Picture
  {
    (x: int, y: int) => if 0 <= y < |rows| && 0 <= x < |rows[y]| then rows[y][x] else Pixel(0, 0, 0, 0)
  }

  /** raster_band: every damaged pixel of the band gets its full-repaint value, whatever it held, and
      no other pixel changes. */
  method RasterBand(canvas: array2<Pixel>, by0: int, by1: int, damage: Rect, clear: Pixel, s: Scene, textures: Textures)
    requires ValidTextures(textures) && 0 <= by0 && by1 <= canvas.Length0
    requires 0 <= damage.x0 && damage.x1 <= canvas.Length1
    modifies canvas
    ensures forall y, x | 0 <= y < canvas.Length0 && 0 <= x < canvas.Length1 ::
              canvas[y, x] == if damage.Contains(x, y) && by0 <= y < by1 then SceneAt(textures, clear, s, |s.prims|, x, y)
                              else old(canvas[y, x])
  {
    DrawBand(canvas, by0, by1, damage, clear, s, textures, PictureOf(Contents(canvas)));
  }
}
