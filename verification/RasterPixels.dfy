/** What a full repaint looks like, said over the index and vertex arrays themselves: every triple of
    indices is a triangle, drawn where it covers, inside its primitive's clip, in order. */
module RasterPixels {
  import opened Common
  import opened RasterGeometry
  import opened RasterShade
  import opened RasterBand

  // ----- flat triangles -----------------------------------------------------------------------

  const BRIGHT: Pixel := Pixel(255, 255, 255, 255)

  lemma OpaqueFrag(c: Pixel, s: Pixel, out: Pixel)
    requires c.a == s.a == 255 && ((c == BRIGHT && out == s) || (s == BRIGHT && out == c))
    ensures Frag(Wide(c), Wide(s)) == Wide(out)
  {
  }

  lemma RoundExact(n: int)
    ensures Round(n as real) == n
  {
  }

  lemma OpaqueFill(t: Triple, tex: Option<Atlas>, s: Pixel, out: Pixel)
    requires ValidTexture(tex) && t.v0.color == t.v1.color == t.v2.color && SameUv(t)
    requires if tex.None? then s == BRIGHT else Sample(tex.value, t.v0.u, t.v0.v) == Wide(s)
    requires Frag(Wide(t.v0.color), Wide(s)) == Wide(out)
    requires out.a == 255
    ensures PlanFill(t, tex) == Constant(out)
  {
    RoundExact(out.r);
    RoundExact(out.g);
    RoundExact(out.b);
    RoundExact(out.a);
    assert WHITE == Wide(BRIGHT);
  }

  /** One colour and one texture coordinate at all three vertices. */
  predicate Flat(t: Triple, c: Pixel)
  {
    t.v0.color == t.v1.color == t.v2.color == c && SameUv(t)
  }

  lemma OrderedFlat(t: Triple, c: Pixel)
    requires Flat(t, c)
    ensures Flat(Ordered(t), c) && Ordered(t).v0.u == t.v0.u && Ordered(t).v0.v == t.v0.v
  {
  }

  lemma CoveredHits(t: Triple, p: Point)
    requires Covers(t.v0.At(), t.v1.At(), t.v2.At(), p)
    ensures Area(t) != 0.0 && Hits(Ordered(t), p)
  {
  }

  /** A flat opaque triangle replaces the pixels it covers: by its own colour, where its texel (if it has
      a texture) is white, or by the texel, where its own colour is. */
  lemma OpaqueTriangle(tex: Option<Atlas>, t: Triple, c: Pixel, s: Pixel, x: int, y: int, d: Pixel, out: Pixel)
    requires ValidTexture(tex) && Flat(t, c) && Covers(t.v0.At(), t.v1.At(), t.v2.At(), Center(x, y)) && c.a == s.a == 255
    requires if tex.None? then s == BRIGHT else Sample(tex.value, t.v0.u, t.v0.v) == Wide(s)
    requires (c == BRIGHT && out == s) || (s == BRIGHT && out == c)
    ensures DrawTriangle(tex, t, x, y, d) == out
  {
    OrderedFlat(t, c);
    CoveredHits(t, Center(x, y));
    OpaqueFrag(c, s, out);
    OpaqueFill(Ordered(t), tex, s, out);
    ConstantDrawn(tex, t, x, y, d, out);
  }

  // ----- triples of indices -------------------------------------------------------------------

  /** Primitive n has a j-th triple of indices, all of them in range. */
  predicate HasTriple(s: Scene, n: nat, j: nat)
  {
    && n < |s.prims|
    && var i := s.prims[n].idx0 + 3 * j;
       && i + 3 <= s.prims[n].idx1 && i + 3 <= |s.idx|
       && s.idx[i] < |s.verts| && s.idx[i + 1] < |s.verts| && s.idx[i + 2] < |s.verts|
  }

  /** The triangle on its vertices. */
  function TripleOf(s: Scene, n: nat, j: nat): Triple
    requires HasTriple(s, n, j)
  {
    var i := s.prims[n].idx0 + 3 * j;
    Triple(s.verts[s.idx[i]], s.verts[s.idx[i + 1]], s.verts[s.idx[i + 2]])
  }

  predicate InClip(c: Clip, x: int, y: int)
  {
    Floor(c.x0) <= x < Ceil(c.x1) && Floor(c.y0) <= y < Ceil(c.y1)
  }

  /** The j-th triangle of primitive n covers the pixel, inside the clip. */
  predicate ShowsAt(s: Scene, n: nat, j: nat, x: int, y: int)
  {
    && HasTriple(s, n, j) && InClip(s.prims[n].clip, x, y)
    && var t := TripleOf(s, n, j); Covers(t.v0.At(), t.v1.At(), t.v2.At(), Center(x, y))
  }

  lemma SliceIs(p: Prim, idx: seq<nat>, k: nat)
    ensures var sl := Slice(p, idx);
            && (3 * k + 3 <= |sl| <==> p.idx0 + 3 * k + 3 <= p.idx1 && p.idx0 + 3 * k + 3 <= |idx|)
            && (3 * k + 3 <= |sl| ==> forall i | 0 <= i < 3 * k + 3 :: sl[i] == idx[p.idx0 + i])
  {
  }

  lemma TriangleIs(s: Scene, n: nat, k: nat)
    requires n < |s.prims|
    ensures var sl := Slice(s.prims[n], s.idx);
            && (HasTriple(s, n, k) ==> 3 * k + 3 <= |sl| && TriangleAt(s.verts, sl, k) == Some(TripleOf(s, n, k)))
            && (!HasTriple(s, n, k) && 3 * k + 3 <= |sl| ==> TriangleAt(s.verts, sl, k) == None)
  {
    SliceIs(s.prims[n], s.idx, k);
  }

  // ----- what does not cover does not show ----------------------------------------------------

  /** Triangles that do not cover the pixel leave it as it was. */
  lemma {:induction false} MeshUntouched(textures: Textures, s: Scene, n: nat, from: nat, to: nat, x: int, y: int, d: Pixel)
    requires ValidTextures(textures) && n < |s.prims| && from <= to && 3 * to <= |Slice(s.prims[n], s.idx)|
    requires InClip(s.prims[n].clip, x, y) && forall j: nat | from <= j < to :: !ShowsAt(s, n, j, x, y)
    ensures var tex, sl := TextureOf(textures, s.prims[n].texId), Slice(s.prims[n], s.idx);
            MeshAt(tex, s.verts, sl, to, x, y, d) == MeshAt(tex, s.verts, sl, from, x, y, d)
  {
    if from < to {
      var tex, sl := TextureOf(textures, s.prims[n].texId), Slice(s.prims[n], s.idx);
      var k := to - 1;
      MeshUntouched(textures, s, n, from, k, x, y, d);
      MeshStep(tex, s.verts, sl, k, x, y, d);
      TriangleIs(s, n, k);
      assert !ShowsAt(s, n, k, x, y);
      if HasTriple(s, n, k) { DrawsWhereCovered(tex, TripleOf(s, n, k), x, y, MeshAt(tex, s.verts, sl, k, x, y, d)); }
    }
  }

  lemma PrimUntouched(textures: Textures, s: Scene, n: nat, x: int, y: int, d: Pixel)
    requires ValidTextures(textures) && n < |s.prims| && forall j: nat :: !ShowsAt(s, n, j, x, y)
    ensures PrimAt(textures, s.prims[n], s.verts, s.idx, x, y, d) == d
  {
    if InClip(s.prims[n].clip, x, y) {
      MeshUntouched(textures, s, n, 0, |Slice(s.prims[n], s.idx)| / 3, x, y, d);
    }
  }

  lemma {:induction false} SceneUntouched(textures: Textures, clear: Pixel, s: Scene, from: nat, to: nat, x: int, y: int)
    requires ValidTextures(textures) && from <= to <= |s.prims|
    requires forall n: nat, j: nat | from <= n < to :: !ShowsAt(s, n, j, x, y)
    ensures SceneAt(textures, clear, s, to, x, y) == SceneAt(textures, clear, s, from, x, y)
  {
    if from < to {
      SceneUntouched(textures, clear, s, from, to - 1, x, y);
      SceneStep(textures, clear, s, to - 1, x, y);
      PrimUntouched(textures, s, to - 1, x, y, SceneAt(textures, clear, s, to - 1, x, y));
    }
  }

  /** A pixel that no triangle covers has the clear colour. */
  lemma UncoveredIsClear(textures: Textures, clear: Pixel, s: Scene, x: int, y: int)
    requires ValidTextures(textures) && forall n: nat, j: nat :: !ShowsAt(s, n, j, x, y)
    ensures SceneAt(textures, clear, s, |s.prims|, x, y) == clear
  {
    SceneUntouched(textures, clear, s, 0, |s.prims|, x, y);
    assert SceneAt(textures, clear, s, 0, x, y) == clear;
  }

  // ----- the triangle on top ------------------------------------------------------------------

  /** The scene up to, and without, the j-th triangle of primitive n. */
  function Beneath(s: Scene, n: nat, j: nat): Scene
    requires n < |s.prims|
  {
    s.(prims := s.prims[..n] + [s.prims[n].(idx1 := s.prims[n].idx0 + 3 * j)])
  }

  /** This triangle covers the pixel and no later one does. */
  ghost predicate OnTop(s: Scene, n: nat, j: nat, x: int, y: int)
  {
    && ShowsAt(s, n, j, x, y)
    && (forall k: nat | k > j :: !ShowsAt(s, n, k, x, y))
    && (forall m: nat, k: nat | m > n :: !ShowsAt(s, m, k, x, y))
  }

  lemma {:induction false} MeshOfPrefix(tex: Option<Atlas>, verts: seq<Vertex>, sl: seq<nat>, k: nat, j: nat, x: int, y: int, d: Pixel)
    requires ValidTexture(tex) && k <= j && 3 * j <= |sl|
    ensures MeshAt(tex, verts, sl[..3 * j], k, x, y, d) == MeshAt(tex, verts, sl, k, x, y, d)
  {
    if k > 0 {
      MeshOfPrefix(tex, verts, sl, k - 1, j, x, y, d);
      MeshStep(tex, verts, sl, k - 1, x, y, d);
      MeshStep(tex, verts, sl[..3 * j], k - 1, x, y, d);
      assert TriangleAt(verts, sl[..3 * j], k - 1) == TriangleAt(verts, sl, k - 1);
    }
  }

  lemma BeneathSlice(p: Prim, idx: seq<nat>, j: nat)
    requires p.idx0 + 3 * j + 3 <= p.idx1 && p.idx0 + 3 * j + 3 <= |idx|
    ensures 3 * j + 3 <= |Slice(p, idx)| && Slice(p.(idx1 := p.idx0 + 3 * j), idx) == Slice(p, idx)[..3 * j]
  {
    var lo, hi := p.idx0, Min(p.idx1, |idx|);
    assert Slice(p, idx) == idx[lo..hi];
    if j > 0 {
      assert Slice(p.(idx1 := p.idx0 + 3 * j), idx) == idx[lo..lo + 3 * j];
    } else {
      assert Slice(p.(idx1 := p.idx0 + 3 * j), idx) == [];
    }
    assert idx[lo..hi][..3 * j] == idx[lo..lo + 3 * j];
  }

  lemma {:induction false} SceneOfPrefix(textures: Textures, clear: Pixel, s: Scene, s': Scene, n: nat, x: int, y: int)
    requires ValidTextures(textures) && n <= |s.prims| && n <= |s'.prims| && s'.prims[..n] == s.prims[..n] && s'.verts == s.verts && s'.idx == s.idx
    ensures SceneAt(textures, clear, s', n, x, y) == SceneAt(textures, clear, s, n, x, y)
  {
    if n > 0 {
      assert s'.prims[..n - 1] == s'.prims[..n][..n - 1] && s.prims[..n - 1] == s.prims[..n][..n - 1];
      assert s'.prims[n - 1] == s'.prims[..n][n - 1] && s.prims[n - 1] == s.prims[..n][n - 1];
      SceneOfPrefix(textures, clear, s, s', n - 1, x, y);
    }
  }

  lemma MeshOnTop(textures: Textures, s: Scene, n: nat, j: nat, x: int, y: int, d: Pixel)
    requires ValidTextures(textures) && OnTop(s, n, j, x, y)
    ensures var tex, sl := TextureOf(textures, s.prims[n].texId), Slice(s.prims[n], s.idx);
            && 3 * j <= |sl|
            && MeshAt(tex, s.verts, sl, |sl| / 3, x, y, d) == DrawTriangle(tex, TripleOf(s, n, j), x, y, MeshAt(tex, s.verts, sl, j, x, y, d))
  {
    var tex, sl := TextureOf(textures, s.prims[n].texId), Slice(s.prims[n], s.idx);
    TriangleIs(s, n, j);
    MeshUntouched(textures, s, n, j + 1, |sl| / 3, x, y, d);
    MeshStep(tex, s.verts, sl, j, x, y, d);
  }

  lemma CutPrim(textures: Textures, p: Prim, q: Prim, verts: seq<Vertex>, idx: seq<nat>, sl: seq<nat>, j: nat, x: int, y: int, d: Pixel)
    requires ValidTextures(textures) && q.clip == p.clip && q.texId == p.texId && p.clip.Pixels().Contains(x, y)
    requires 3 * j <= |sl| && Slice(q, idx) == sl[..3 * j]
    ensures PrimAt(textures, q, verts, idx, x, y, d) == MeshAt(TextureOf(textures, p.texId), verts, sl, j, x, y, d)
  {
    assert |sl[..3 * j]| / 3 == j;
    MeshOfPrefix(TextureOf(textures, p.texId), verts, sl, j, j, x, y, d);
  }

  lemma InClipMeans(c: Clip, x: int, y: int)
    ensures InClip(c, x, y) <==> c.Pixels().Contains(x, y)
  {
  }

  lemma PrimBeneath(textures: Textures, p: Prim, q: Prim, verts: seq<Vertex>, idx: seq<nat>, j: nat, x: int, y: int, d: Pixel)
    requires ValidTextures(textures) && InClip(p.clip, x, y) && q == p.(idx1 := p.idx0 + 3 * j)
    requires p.idx0 + 3 * j + 3 <= p.idx1 && p.idx0 + 3 * j + 3 <= |idx|
    ensures 3 * j <= |Slice(p, idx)|
    ensures PrimAt(textures, q, verts, idx, x, y, d) == MeshAt(TextureOf(textures, p.texId), verts, Slice(p, idx), j, x, y, d)
  {
    InClipMeans(p.clip, x, y);
    BeneathSlice(p, idx, j);
    CutPrim(textures, p, q, verts, idx, Slice(p, idx), j, x, y, d);
  }

  lemma PrimOnTop(textures: Textures, s: Scene, n: nat, j: nat, x: int, y: int, d: Pixel)
    requires ValidTextures(textures) && OnTop(s, n, j, x, y)
    ensures var p := s.prims[n];
            PrimAt(textures, p, s.verts, s.idx, x, y, d)
            == DrawTriangle(TextureOf(textures, p.texId), TripleOf(s, n, j), x, y,
                            PrimAt(textures, p.(idx1 := p.idx0 + 3 * j), s.verts, s.idx, x, y, d))
  {
    MeshOnTop(textures, s, n, j, x, y, d);
    InClipMeans(s.prims[n].clip, x, y);
    PrimBeneath(textures, s.prims[n], s.prims[n].(idx1 := s.prims[n].idx0 + 3 * j), s.verts, s.idx, j, x, y, d);
  }

  /** The pixel is the last triangle that covers it, drawn over what the scene below that triangle shows. */
  lemma TopTriangleDrawn(textures: Textures, clear: Pixel, s: Scene, n: nat, j: nat, x: int, y: int)
    requires ValidTextures(textures) && OnTop(s, n, j, x, y)
    ensures SceneAt(textures, clear, s, |s.prims|, x, y)
            == DrawTriangle(TextureOf(textures, s.prims[n].texId), TripleOf(s, n, j), x, y,
                            SceneAt(textures, clear, Beneath(s, n, j), n + 1, x, y))
  {
    SceneUntouched(textures, clear, s, n + 1, |s.prims|, x, y);
    SceneStep(textures, clear, s, n, x, y);
    SceneStep(textures, clear, Beneath(s, n, j), n, x, y);
    SceneOfPrefix(textures, clear, s, Beneath(s, n, j), n, x, y);
    PrimOnTop(textures, s, n, j, x, y, SceneAt(textures, clear, s, n, x, y));
  }

  /** Whichever triangle of whichever primitive it is: if it is opaque, of one colour, and the last to
      cover the pixel, the pixel has its colour; or that of its texel, if it is white. */
  lemma TopTriangleShows(textures: Textures, clear: Pixel, s: Scene, n: nat, j: nat, x: int, y: int, c: Pixel, texel: Pixel, out: Pixel)
    requires ValidTextures(textures) && OnTop(s, n, j, x, y) && Flat(TripleOf(s, n, j), c) && c.a == texel.a == 255
    requires var tex, v := TextureOf(textures, s.prims[n].texId), TripleOf(s, n, j).v0;
             if tex.None? then texel == BRIGHT else Sample(tex.value, v.u, v.v) == Wide(texel)
    requires (texel == BRIGHT && out == c) || (c == BRIGHT && out == texel)
    ensures SceneAt(textures, clear, s, |s.prims|, x, y) == out
  {
    TopTriangleDrawn(textures, clear, s, n, j, x, y);
    OpaqueTriangle(TextureOf(textures, s.prims[n].texId), TripleOf(s, n, j), c, texel, x, y, SceneAt(textures, clear, Beneath(s, n, j), n + 1, x, y), out);
  }

  // ----- a rectangle --------------------------------------------------------------------------

  /** Primitive n starts with the two triangles of a rectangle, in one opaque colour. */
  predicate IsQuad(s: Scene, n: nat, b: Box, c: Pixel)
  {
    && HasTriple(s, n, 0) && HasTriple(s, n, 1) && Flat(TripleOf(s, n, 0), c) && Flat(TripleOf(s, n, 1), c) && b.Proper() && c.a == 255
    && var t, u := TripleOf(s, n, 0), TripleOf(s, n, 1);
       && t.v0.At() == u.v0.At() == b.TopLeft() && t.v1.At() == b.TopRight()
       && t.v2.At() == u.v1.At() == b.BottomRight() && u.v2.At() == b.BottomLeft()
  }

  /** A rectangle drawn last, without a texture, shows at exactly the pixels whose centre it holds: there
      the pixel has its colour, elsewhere it is as the primitives before left it. */
  lemma QuadShows(textures: Textures, clear: Pixel, s: Scene, n: nat, b: Box, c: Pixel, x: int, y: int)
    requires ValidTextures(textures) && n == |s.prims| - 1 && IsQuad(s, n, b, c) && s.prims[n].idx1 == s.prims[n].idx0 + 6
    requires TextureOf(textures, s.prims[n].texId) == None && InClip(s.prims[n].clip, x, y)
    ensures SceneAt(textures, clear, s, |s.prims|, x, y)
            == if b.Holds(Center(x, y)) then c else SceneAt(textures, clear, s, n, x, y)
  {
    RectangleCovered(b, Center(x, y));
    if b.Holds(Center(x, y)) {
      var j := if ShowsAt(s, n, 1, x, y) then 1 else 0;
      TopTriangleShows(textures, clear, s, n, j, x, y, c, BRIGHT, c);
    } else {
      SceneUntouched(textures, clear, s, n, |s.prims|, x, y);
    }
  }
}
