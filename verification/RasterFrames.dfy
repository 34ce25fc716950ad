/** Two frames compared: which pixels may differ. */
module RasterFrames {
  import opened Common
  import opened RasterGeometry
  import opened RasterShade
  import opened RasterBand
  import opened RasterDiff

  // ----- flat positions -----------------------------------------------------------------------

  lemma Scaled(d: nat, w: nat)
    ensures d * w >= 0
  {
  }

  lemma RowStep(w: nat, y: int, y': int)
    ensures y < y' ==> y * w + w <= y' * w
  {
    if y < y' {
      var d := y' - y - 1;
      Scaled(d, w);
      assert y' * w == (y + 1 + d) * w == y * w + w + d * w;
    }
  }

  /** A position in an atlas, flat. */
  lemma FlatInjective(w: nat, x: int, y: int, x': int, y': int)
    requires 0 <= x < w && 0 <= x' < w && y * w + x == y' * w + x'
    ensures x == x' && y == y'
  {
    RowStep(w, y, y');
    RowStep(w, y', y);
  }

  // ----- texels a primitive can sample --------------------------------------------------------

  /** The texels of an axis that the two taps can touch for coordinates from u0 to u1. */
  predicate InTaps(u0: real, u1: real, n: nat, i: int)
    requires n >= 1
  {
    Clamp(Tap(u0, n), 0, n - 1) <= i <= Clamp(Tap(u1, n) + 1, 0, n - 1)
  }

  lemma TapMonotone(u: real, v: real, n: nat)
    requires u <= v
    ensures Tap(u, n) <= Tap(v, n)
  {
    ProductNonNegative(v - u, n as real);
    assert u * n as real <= v * n as real;
    FloorMonotone(u * n as real - 0.5, v * n as real - 0.5);
  }

  lemma TapsWithin(u0: real, u1: real, u: real, n: nat)
    requires u0 <= u <= u1 && n >= 1
    ensures InTaps(u0, u1, n, Clamp(Tap(u, n), 0, n - 1)) && InTaps(u0, u1, n, Clamp(Tap(u, n) + 1, 0, n - 1))
  {
    TapMonotone(u0, u, n);
    TapMonotone(u, u1, n);
  }

  /** Two atlases of one size that agree on every texel samples from the uv box can touch. */
  ghost predicate TexelsAgree(t: Atlas, t': Atlas, e: Bounds)
    requires t.Valid() && t'.Valid()
  {
    && t.w == t'.w && t.h == t'.h
    && forall x, y | 0 <= x < t.w && 0 <= y < t.h && InTaps(e.x0, e.x1, t.w, x) && InTaps(e.y0, e.y1, t.h, y) ::
         TexelSame(t, t', x, y)
  }

  predicate TexelSame(t: Atlas, t': Atlas, x: int, y: int)
    requires t.Valid() && t'.Valid() && t.w == t'.w && t.h == t'.h && 0 <= x < t.w && 0 <= y < t.h
  {
    TexelIndex(t.w, t.h, x, y);
    t.px[y * t.w + x] == t'.px[y * t'.w + x]
  }

  lemma TapAgrees(t: Atlas, t': Atlas, e: Bounds, x: int, y: int)
    requires t.Valid() && t'.Valid() && TexelsAgree(t, t', e) && 0 <= x < t.w && 0 <= y < t.h
    requires InTaps(e.x0, e.x1, t.w, x) && InTaps(e.y0, e.y1, t.h, y)
    ensures Texel(t, x, y) == Texel(t', x, y)
  {
    assert TexelSame(t, t', x, y);
  }

  lemma CornersAgree(t: Atlas, t': Atlas, e: Bounds, x0: int, x1: int, y0: int, y1: int)
    requires t.Valid() && t'.Valid() && TexelsAgree(t, t', e) && 0 <= x0 < t.w && 0 <= x1 < t.w && 0 <= y0 < t.h && 0 <= y1 < t.h
    requires InTaps(e.x0, e.x1, t.w, x0) && InTaps(e.x0, e.x1, t.w, x1) && InTaps(e.y0, e.y1, t.h, y0) && InTaps(e.y0, e.y1, t.h, y1)
    ensures Texel(t, x0, y0) == Texel(t', x0, y0) && Texel(t, x1, y0) == Texel(t', x1, y0)
    ensures Texel(t, x0, y1) == Texel(t', x0, y1) && Texel(t, x1, y1) == Texel(t', x1, y1)
  {
    TapAgrees(t, t', e, x0, y0);
    TapAgrees(t, t', e, x1, y0);
    TapAgrees(t, t', e, x0, y1);
    TapAgrees(t, t', e, x1, y1);
  }

  lemma SampleAgrees(t: Atlas, t': Atlas, e: Bounds, u: real, v: real)
    requires t.Valid() && t'.Valid() && TexelsAgree(t, t', e) && e.x0 <= u <= e.x1 && e.y0 <= v <= e.y1
    ensures Sample(t, u, v) == Sample(t', u, v)
  {
    TapsWithin(e.x0, e.x1, u, t.w);
    TapsWithin(e.y0, e.y1, v, t.h);
    CornersAgree(t, t', e, Clamp(Tap(u, t.w), 0, t.w - 1), Clamp(Tap(u, t.w) + 1, 0, t.w - 1),
                 Clamp(Tap(v, t.h), 0, t.h - 1), Clamp(Tap(v, t.h) + 1, 0, t.h - 1));
  }

  /** Two textures that look the same through the uv box. */
  ghost predicate Alike(tex: Option<Atlas>, tex': Option<Atlas>, e: Bounds)
    requires ValidTexture(tex) && ValidTexture(tex')
  {
    tex == tex' || (tex.Some? && tex'.Some? && TexelsAgree(tex.value, tex'.value, e))
  }

  predicate UvWithin(v: Vertex, e: Bounds)
  {
    e.x0 <= v.u <= e.x1 && e.y0 <= v.v <= e.y1
  }

  lemma ShadeAgrees(t: Triple, w: Weights, tex: Option<Atlas>, tex': Option<Atlas>, e: Bounds, d: Pixel)
    requires w.Valid() && ValidTexture(tex) && ValidTexture(tex') && Alike(tex, tex', e)
    requires UvWithin(t.v0, e) && UvWithin(t.v1, e) && UvWithin(t.v2, e)
    ensures Shade(t, w, tex, d) == Shade(t, w, tex', d)
  {
    if tex.Some? && tex'.Some? && TexelsAgree(tex.value, tex'.value, e) {
      MeanInRange(w, t.v0.u, t.v1.u, t.v2.u, e.x0, e.x1);
      MeanInRange(w, t.v0.v, t.v1.v, t.v2.v, e.y0, e.y1);
      SampleAgrees(tex.value, tex'.value, e, w.Of(t.v0.u, t.v1.u, t.v2.u), w.Of(t.v0.v, t.v1.v, t.v2.v));
    }
  }

  lemma TriangleAgrees(t: Triple, tex: Option<Atlas>, tex': Option<Atlas>, e: Bounds, x: int, y: int, d: Pixel)
    requires ValidTexture(tex) && ValidTexture(tex') && Alike(tex, tex', e)
    requires UvWithin(t.v0, e) && UvWithin(t.v1, e) && UvWithin(t.v2, e)
    ensures DrawTriangle(tex, t, x, y, d) == DrawTriangle(tex', t, x, y, d)
  {
    if Area(t) != 0.0 {
      OrderedPositive(t);
      var o := Ordered(t);
      if Hits(o, Center(x, y)) {
        ShadeAgrees(o, WeightsAt(o, Center(x, y)), tex, tex', e, d);
      }
    }
  }

  lemma {:induction false} MeshAgrees(tex: Option<Atlas>, tex': Option<Atlas>, verts: seq<Vertex>, slice: seq<nat>, n: nat, x: int, y: int, d: Pixel)
    requires ValidTexture(tex) && ValidTexture(tex') && 3 * n <= |slice|
    requires Data(verts, slice) != [] ==> Alike(tex, tex', UvExtent(Data(verts, slice)))
    ensures MeshAt(tex, verts, slice, n, x, y, d) == MeshAt(tex', verts, slice, n, x, y, d)
  {
    if n > 0 {
      MeshAgrees(tex, tex', verts, slice, n - 1, x, y, d);
      var t := TriangleAt(verts, slice, n - 1);
      if t.Some? {
        var k := 3 * (n - 1);
        VertexInExtent(verts, slice, k);
        VertexInExtent(verts, slice, k + 1);
        VertexInExtent(verts, slice, k + 2);
        TriangleAgrees(t.value, tex, tex', UvExtent(Data(verts, slice)), x, y, MeshAt(tex, verts, slice, n - 1, x, y, d));
      }
    }
  }

  // ----- a primitive known by its key ---------------------------------------------------------

  ghost predicate Carries(k: Key, verts: seq<Vertex>)
  {
    Data(verts, k.indices) == k.data
  }

  /** What a primitive with this key draws; by KeyDetermines any vertices that fit the key will do. */
  ghost function PaintKey(textures: Textures, k: Key, x: int, y: int, d: Pixel): Pixel
    requires ValidTextures(textures)
  {
    if !(exists verts :: Carries(k, verts)) || !k.clip.Pixels().Contains(x, y) then d
    else
      var verts :| Carries(k, verts);
      MeshAt(TextureOf(textures, k.texId), verts, k.indices, |k.indices| / 3, x, y, d)
  }

  lemma PrimIsKey(textures: Textures, p: Prim, verts: seq<Vertex>, idx: seq<nat>, x: int, y: int, d: Pixel)
    requires ValidTextures(textures)
    ensures PrimAt(textures, p, verts, idx, x, y, d) == PaintKey(textures, KeyOf(p, verts, idx), x, y, d)
  {
    var k := KeyOf(p, verts, idx);
    assert Carries(k, verts);
    forall other | Carries(k, other)
      ensures MeshAt(TextureOf(textures, k.texId), other, k.indices, |k.indices| / 3, x, y, d)
              == MeshAt(TextureOf(textures, k.texId), verts, k.indices, |k.indices| / 3, x, y, d)
    {
      DataAlignsEither(other, verts, k.indices);
      MeshDetermined(TextureOf(textures, k.texId), other, verts, k.indices, |k.indices| / 3, x, y, d);
    }
  }

  ghost function Painter(textures: Textures, x: int, y: int): (Key, Pixel) -> Pixel
    requires ValidTextures(textures)
  {
    (k: Key, d: Pixel) => PaintKey(textures, k, x, y, d)
  }

  /** The keys of a scene's first n primitives. */
  function Keys(s: Scene, n: nat): (r: seq<Key>)
    requires n <= |s.prims|
    ensures |r| == n && forall i | 0 <= i < n :: r[i] == KeyOf(s.prims[i], s.verts, s.idx)
  {
    if n == 0 then [] else Keys(s, n - 1) + [KeyOf(s.prims[n - 1], s.verts, s.idx)]
  }

  lemma {:induction false} SceneIsPainted(textures: Textures, clear: Pixel, s: Scene, n: nat, x: int, y: int)
    requires ValidTextures(textures) && n <= |s.prims|
    ensures SceneAt(textures, clear, s, n, x, y) == Painted(Painter(textures, x, y), Keys(s, n), clear)
  {
    if n > 0 {
      SceneIsPainted(textures, clear, s, n - 1, x, y);
      assert Keys(s, n)[..n - 1] == Keys(s, n - 1);
      PrimIsKey(textures, s.prims[n - 1], s.verts, s.idx, x, y, SceneAt(textures, clear, s, n - 1, x, y));
    }
  }

  function KeyBbox(k: Key, w: nat, h: nat): Rect
  {
    Bbox(k.clip, k.data, w, h)
  }

  lemma KeyInvisible(textures: Textures, k: Key, w: nat, h: nat, x: int, y: int, d: Pixel)
    requires ValidTextures(textures) && 0 <= x < w && 0 <= y < h && !KeyBbox(k, w, h).Contains(x, y)
    ensures PaintKey(textures, k, x, y, d) == d
  {
    if (exists verts :: Carries(k, verts)) && k.clip.Pixels().Contains(x, y) {
      forall verts | Carries(k, verts)
        ensures MeshAt(TextureOf(textures, k.texId), verts, k.indices, |k.indices| / 3, x, y, d) == d
      {
        MeshOutside(TextureOf(textures, k.texId), verts, k.indices, |k.indices| / 3, k.clip, w, h, x, y, d);
      }
    }
  }

  /** No texel the primitive can sample differs between the two sets of textures. */
  ghost predicate SamplesAlike(textures: Textures, textures': Textures, k: Key)
    requires ValidTextures(textures) && ValidTextures(textures')
  {
    k.data != [] ==> Alike(TextureOf(textures, k.texId), TextureOf(textures', k.texId), UvExtent(k.data))
  }

  lemma KeyAgrees(textures: Textures, textures': Textures, k: Key, x: int, y: int, d: Pixel)
    requires ValidTextures(textures) && ValidTextures(textures') && SamplesAlike(textures, textures', k)
    ensures PaintKey(textures, k, x, y, d) == PaintKey(textures', k, x, y, d)
  {
    if (exists verts :: Carries(k, verts)) && k.clip.Pixels().Contains(x, y) {
      forall verts | Carries(k, verts)
        ensures MeshAt(TextureOf(textures, k.texId), verts, k.indices, |k.indices| / 3, x, y, d)
                == MeshAt(TextureOf(textures', k.texId), verts, k.indices, |k.indices| / 3, x, y, d)
      {
        MeshAgrees(TextureOf(textures, k.texId), TextureOf(textures', k.texId), verts, k.indices, |k.indices| / 3, x, y, d);
      }
    }
  }

  // ----- the difference between two frames ----------------------------------------------------

  /** Nothing that changed between two frames can show at this pixel. */
  ghost predicate Undamaged(before: seq<Key>, after: seq<Key>, textures: Textures, textures': Textures, w: nat, h: nat, x: int, y: int)
    requires ValidTextures(textures) && ValidTextures(textures')
  {
    && (forall k | k in before && k !in after :: !KeyBbox(k, w, h).Contains(x, y))
    && (forall k | k in after && k !in before :: !KeyBbox(k, w, h).Contains(x, y))
    && (forall k | k in after && k in before :: SamplesAlike(textures, textures', k) || !KeyBbox(k, w, h).Contains(x, y))
  }

  /** An undamaged pixel is the same in a full repaint of either frame. */
  lemma UndamagedPixel(textures: Textures, textures': Textures, clear: Pixel, s: Scene, s': Scene, w: nat, h: nat, x: int, y: int)
    requires ValidTextures(textures) && ValidTextures(textures') && 0 <= x < w && 0 <= y < h
    requires StableOrder(Keys(s, |s.prims|), Keys(s', |s'.prims|))
    requires Undamaged(Keys(s, |s.prims|), Keys(s', |s'.prims|), textures, textures', w, h, x, y)
    ensures SceneAt(textures, clear, s, |s.prims|, x, y) == SceneAt(textures', clear, s', |s'.prims|, x, y)
  {
    SceneIsPainted(textures, clear, s, |s.prims|, x, y);
    SceneIsPainted(textures', clear, s', |s'.prims|, x, y);
    var before, after := Keys(s, |s.prims|), Keys(s', |s'.prims|);
    var paint, paint' := Painter(textures, x, y), Painter(textures', x, y);
    forall k, c | k in before && k !in after
      ensures paint(k, c) == c
    {
      KeyInvisible(textures, k, w, h, x, y, c);
    }
    forall k, c | k in after && k !in before
      ensures paint'(k, c) == c
    {
      KeyInvisible(textures', k, w, h, x, y, c);
    }
    forall k, c | k in before && k in after
      ensures paint(k, c) == paint'(k, c)
    {
      if SamplesAlike(textures, textures', k) {
        KeyAgrees(textures, textures', k, x, y, c);
      } else {
        KeyInvisible(textures, k, w, h, x, y, c);
        KeyInvisible(textures', k, w, h, x, y, c);
      }
    }
    UnchangedPixel(paint, paint', before, after, clear);
  }
}
