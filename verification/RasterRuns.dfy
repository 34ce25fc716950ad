/** Whole runs of the renderer, and the three ways in which damage tracking can miss a change. */
module RasterRuns {
  import opened Common
  import opened RasterGeometry
  import opened RasterShade
  import opened RasterBand
  import opened RasterPixels
  import opened RasterDiff
  import opened RasterDamage
  import opened RasterViews
  import opened RasterRender

  // ----- runs ---------------------------------------------------------------------------------

  ghost predicate Chain<S(!new), C(!new)>(next: (S, C, S) -> bool, states: seq<S>, calls: seq<C>)
  {
    |states| == |calls| + 1 && forall k | 0 <= k < |calls| :: next(states[k], calls[k], states[k + 1])
  }

  lemma ChainOnward<S(!new), C(!new)>(next: (S, C, S) -> bool, states: seq<S>, calls: seq<C>, c: C, s: S)
    requires Chain(next, states, calls) && next(states[|calls|], c, s)
    ensures Chain(next, states + [s], calls + [c])
  {
    var more, all := states + [s], calls + [c];
    forall k | 0 <= k < |all|
      ensures next(more[k], all[k], more[k + 1])
    {
      assert k < |calls| ==> next(states[k], calls[k], states[k + 1]);
    }
  }

  lemma {:induction false} ChainKeeps<S(!new), C(!new)>(next: (S, C, S) -> bool, keep: S -> bool, states: seq<S>, calls: seq<C>, k: nat)
    requires Chain(next, states, calls) && k < |states| && keep(states[0])
    requires forall s, c, s' | keep(s) && next(s, c, s') :: keep(s')
    ensures keep(states[k])
  {
    if k > 0 {
      ChainKeeps(next, keep, states, calls, k - 1);
      var i := k - 1;
      assert next(states[i], calls[i], states[i + 1]);
    }
  }

  /** What a call makes of a state, if the state is valid. */
  ghost function Steps(): (View, Call, View) -> bool
  {
    (v: View, c: Call, v': View) => v.Valid() ==> Next(v, c, v')
  }

  /** The states of a renderer from its construction on; its methods ensure Next of every call. */
  ghost predicate IsRun(views: seq<View>, calls: seq<Call>)
  {
    Chain(Steps(), views, calls) && Start(views[0])
  }

  lemma RunValid(views: seq<View>, calls: seq<Call>, k: nat)
    requires IsRun(views, calls) && k < |views|
    ensures views[k].Valid()
  {
    StartExact(views[0]);
    var keep := (v: View) => v.Valid();
    forall v, c, v' | keep(v) && Steps()(v, c, v')
      ensures keep(v')
    {
      NextValid(v, c, v');
    }
    ChainKeeps(Steps(), keep, views, calls, k);
  }

  /** After any run of frames, resizes, texture updates and clear-colour changes, the canvas is, pixel
      for pixel, a full repaint of the latest scene. */
  lemma {:induction false} CanvasIsFullRepaint(views: seq<View>, calls: seq<Call>, k: nat)
    requires IsRun(views, calls) && k < |views|
    requires forall i | 0 <= i < |calls| :: views[i].Valid() ==> FrameFaithful(views[i], calls[i])
    ensures views[k].Valid() && views[k].Exact()
  {
    RunValid(views, calls, k);
    if k == 0 {
      StartExact(views[0]);
    } else {
      CanvasIsFullRepaint(views, calls, k - 1);
      var i := k - 1;
      assert Steps()(views[i], calls[i], views[i + 1]) && FrameFaithful(views[i], calls[i]);
      NextExact(views[i], calls[i], views[i + 1]);
    }
  }

  lemma RunStarts(v: View)
    requires Start(v)
    ensures IsRun([v], [])
  {
  }

  lemma RunOnward(views: seq<View>, calls: seq<Call>, n: nat, v: View)
    requires n < |calls| && IsRun(views, calls[..n]) && views[n].Valid() && Next(views[n], calls[n], v)
    ensures IsRun(views + [v], calls[..n + 1])
  {
    ChainOnward(Steps(), views, calls[..n], calls[n], v);
    assert calls[..n + 1] == calls[..n] + [calls[n]];
  }

  /** One call on a renderer. */
  method Apply(r: Raster, c: Call)
    requires r.Valid() && (c.Frame? ==> Representable(r.f, c.s))
    modifies r, r.canvas
    ensures r.Valid() && Next(old(r.View()), c, r.View())
    ensures r.canvas == old(r.canvas) || fresh(r.canvas)
  {
    match c
    case Frame(s, width, height) => var _ := r.Render(s, width, height);
    case Recolour(clear) => r.SetClear(clear);
    case Retexture(id, pos, w, h, px) => r.SetTexture(id, pos, w, h, px);
  }

  /** Every sequence of calls on a new renderer is such a run. */
  method Play(f: Format, clear: Pixel, calls: seq<Call>) returns (r: Raster, ghost views: seq<View>)
    requires forall k | 0 <= k < |calls| :: calls[k].Frame? ==> Representable(f, calls[k].s)
    ensures r.Valid() && fresh(r) && fresh(r.canvas) && IsRun(views, calls) && views[|calls|] == r.View()
  {
    r := new Raster(f, clear);
    views := [r.View()];
    RunStarts(r.View());
    var n := 0;
    while n < |calls|
      invariant n <= |calls| && r.Valid() && fresh(r) && fresh(r.canvas) && r.f == f
      invariant IsRun(views, calls[..n]) && views[n] == r.View()
    {
      Apply(r, calls[n]);
      RunOnward(views, calls, n, r.View());
      views := views + [r.View()];
      n := n + 1;
    }
    assert calls[..n] == calls;
  }

  // ----- what damage tracking misses ----------------------------------------------------------

  function Corner(x: real, y: real, c: Pixel): Vertex
  {
    Vertex(x, y, 0.0, 0.0, c)
  }

  /** A triangle over the top left of the screen, in one colour. */
  function CornerTriangle(c: Pixel): Triple
  {
    Triple(Corner(0.0, 0.0, c), Corner(4.0, 0.0, c), Corner(0.0, 4.0, c))
  }

  const RED: Pixel := Pixel(255, 0, 0, 255)
  const GREEN: Pixel := Pixel(0, 255, 0, 255)
  const BLACK: Pixel := Pixel(0, 0, 0, 255)

  lemma CornerEdges()
    ensures var a, b, c, p := Point(0.0, 0.0), Point(4.0, 0.0), Point(0.0, 4.0), Point(0.5, 0.5);
            && Edge(a, b, c) == -16.0 && Edge(a, c, b) == 16.0
            && Edge(c, b, p) == 12.0 && Edge(b, a, p) == 2.0 && Edge(a, c, p) == 2.0
  {
  }

  lemma CornerCovered(c: Pixel)
    ensures var t := CornerTriangle(c);
            Area(t) == -16.0 && Ordered(t) == Triple(t.v0, t.v2, t.v1) && Area(Ordered(t)) > 0.0 && Hits(Ordered(t), Center(0, 0))
  {
    CornerEdges();
    var t := CornerTriangle(c);
    assert t.v0.At() == Point(0.0, 0.0) && t.v1.At() == Point(4.0, 0.0) && t.v2.At() == Point(0.0, 4.0);
    assert Center(0, 0) == Point(0.5, 0.5);
  }

  lemma CornerDrawn(c: Pixel)
    ensures var t := CornerTriangle(c); Covers(t.v0.At(), t.v1.At(), t.v2.At(), Center(0, 0)) && Flat(t, c)
  {
    CornerCovered(c);
  }

  const CLIP: Clip := Clip(0.0, 0.0, 4.0, 4.0)

  /** A primitive of one triangle. */
  lemma OneTriangle(textures: Textures, p: Prim, verts: seq<Vertex>, idx: seq<nat>, t: Triple, d: Pixel)
    requires ValidTextures(textures) && p.clip == CLIP && |Slice(p, idx)| == 3
    requires TriangleAt(verts, Slice(p, idx), 0) == Some(t)
    ensures PrimAt(textures, p, verts, idx, 0, 0, d) == DrawTriangle(TextureOf(textures, p.texId), t, 0, 0, d)
  {
    MeshStep(TextureOf(textures, p.texId), verts, Slice(p, idx), 0, 0, 0, d);
    assert MeshAt(TextureOf(textures, p.texId), verts, Slice(p, idx), 0, 0, 0, d) == d;
    assert CLIP.Pixels().Contains(0, 0);
  }

  lemma {:induction false} NonePicked(ms: seq<Meta>, n: nat, pick: Meta -> bool)
    requires n <= |ms| && forall i | 0 <= i < n :: !pick(ms[i])
    ensures Picked(ms, n, pick) == []
  {
    if n > 0 { NonePicked(ms, n - 1, pick); }
  }

  const TWO_VERTS: seq<Vertex> :=
    [Corner(0.0, 0.0, RED), Corner(4.0, 0.0, RED), Corner(0.0, 4.0, RED),
     Corner(0.0, 0.0, GREEN), Corner(4.0, 0.0, GREEN), Corner(0.0, 4.0, GREEN)]
  const TWO_IDX: seq<nat> := [0, 1, 2, 3, 4, 5]
  const RED_PRIM: Prim := Prim(CLIP, 0, 0, 3)
  const GREEN_PRIM: Prim := Prim(CLIP, 0, 3, 6)

  lemma RedAndGreen(d: Pixel)
    ensures PrimAt(map[], RED_PRIM, TWO_VERTS, TWO_IDX, 0, 0, d) == RED
    ensures PrimAt(map[], GREEN_PRIM, TWO_VERTS, TWO_IDX, 0, 0, d) == GREEN
  {
    var r, g := Slice(RED_PRIM, TWO_IDX), Slice(GREEN_PRIM, TWO_IDX);
    assert r == [0, 1, 2] && g == [3, 4, 5];
    assert TriangleAt(TWO_VERTS, r, 0) == Some(CornerTriangle(RED)) && TriangleAt(TWO_VERTS, g, 0) == Some(CornerTriangle(GREEN));
    OneTriangle(map[], RED_PRIM, TWO_VERTS, TWO_IDX, CornerTriangle(RED), d);
    OneTriangle(map[], GREEN_PRIM, TWO_VERTS, TWO_IDX, CornerTriangle(GREEN), d);
    CornerDrawn(RED);
    CornerDrawn(GREEN);
    OpaqueTriangle(None, CornerTriangle(RED), RED, BRIGHT, 0, 0, d, RED);
    OpaqueTriangle(None, CornerTriangle(GREEN), GREEN, BRIGHT, 0, 0, d, GREEN);
  }

  lemma NoneUnmatched(prev: seq<Meta>, meta: seq<Meta>)
    requires Hashes(prev) == Hashes(meta)
    ensures Unmatched(prev, Hashes(meta)) == []
  {
    forall i | 0 <= i < |prev|
      ensures prev[i].hash in Hashes(meta)
    {
      assert prev[i].hash in Hashes(prev);
    }
    NonePicked(prev, |prev|, Missing(Hashes(meta)));
  }

  /** Frames with the same hashes, in whatever order, have no damage. */
  lemma SameHashesNoDamage(f: Format, shown: Scene, s: Scene, textures: Textures, patches: seq<Patch>, w: nat, h: nat)
    requires Hashes(AllMetas(f, shown, w, h)) == Hashes(AllMetas(f, s, w, h))
    requires StaleAll(AllMetas(f, s, w, h), textures, patches, |patches|) == []
    ensures Planned(f, false, shown, s, textures, patches, w, h) == None
  {
    NoneUnmatched(AllMetas(f, shown, w, h), AllMetas(f, s, w, h));
    NoneUnmatched(AllMetas(f, s, w, h), AllMetas(f, shown, w, h));
    var rs := Changed(AllMetas(f, shown, w, h), AllMetas(f, s, w, h), textures, patches);
    assert rs == [];
    assert UnionAll(rs) == EMPTY;
  }

  const FORTH: Scene := Scene(TWO_VERTS, TWO_IDX, [RED_PRIM, GREEN_PRIM])
  const BACK: Scene := Scene(TWO_VERTS, TWO_IDX, [GREEN_PRIM, RED_PRIM])

  lemma Swapped(a: Meta, b: Meta)
    ensures Hashes([a, b]) == Hashes([b, a])
  {
  }

  lemma TwoMetas(f: Format, verts: seq<Vertex>, idx: seq<nat>, p: Prim, q: Prim, w: nat, h: nat)
    ensures AllMetas(f, Scene(verts, idx, [p, q]), w, h) == [MetaOf(f, KeyOf(p, verts, idx), w, h), MetaOf(f, KeyOf(q, verts, idx), w, h)]
  {
  }

  /** Two overlapping primitives that change places: no damage, though the picture changes. */
  lemma ReorderingMissed(f: Format, clear: Pixel)
    ensures Planned(f, false, FORTH, BACK, map[], [], 4, 4) == None
    ensures SceneAt(map[], clear, FORTH, 2, 0, 0) == GREEN && SceneAt(map[], clear, BACK, 2, 0, 0) == RED
  {
    SceneStep(map[], clear, FORTH, 1, 0, 0);
    SceneStep(map[], clear, BACK, 1, 0, 0);
    RedAndGreen(SceneAt(map[], clear, FORTH, 1, 0, 0));
    RedAndGreen(SceneAt(map[], clear, BACK, 1, 0, 0));
    SwappedNoDamage(f, TWO_VERTS, TWO_IDX, RED_PRIM, GREEN_PRIM);
  }

  lemma SwappedNoDamage(f: Format, verts: seq<Vertex>, idx: seq<nat>, p: Prim, q: Prim)
    ensures Planned(f, false, Scene(verts, idx, [p, q]), Scene(verts, idx, [q, p]), map[], [], 4, 4) == None
  {
    TwoMetas(f, verts, idx, p, q, 4, 4);
    TwoMetas(f, verts, idx, q, p, 4, 4);
    Swapped(MetaOf(f, KeyOf(p, verts, idx), 4, 4), MetaOf(f, KeyOf(q, verts, idx), 4, 4));
    SameHashesNoDamage(f, Scene(verts, idx, [p, q]), Scene(verts, idx, [q, p]), map[], [], 4, 4);
  }

  // ----- vertices passed off as indices -------------------------------------------------------

  const TRIANGLE: Scene := Scene([Corner(0.0, 0.0, GREEN), Corner(4.0, 0.0, GREEN), Corner(0.0, 4.0, GREEN)], [0, 1, 2], [Prim(CLIP, 0, 0, 3)])

  /** No vertices, and the words of the triangle's vertices as indices before its own. */
  function Disguise(f: Format): Scene
  {
    Scene([], DataWords(f, TRIANGLE.verts) + [0, 1, 2], [Prim(CLIP, 0, 0, 18)])
  }

  lemma {:induction false} NoVertices(tex: Option<Atlas>, slice: seq<nat>, n: nat, x: int, y: int, d: Pixel)
    requires ValidTexture(tex) && 3 * n <= |slice|
    ensures MeshAt(tex, [], slice, n, x, y, d) == d
  {
    if n > 0 { NoVertices(tex, slice, n - 1, x, y, d); }
  }

  lemma {:induction false} NoData(slice: seq<nat>)
    ensures Data([], slice) == []
  {
    if slice != [] { NoData(slice[1..]); }
  }

  lemma ThreeVertices(verts: seq<Vertex>)
    requires |verts| == 3
    ensures Data(verts, [0, 1, 2]) == verts
  {
    assert [0, 1, 2][1..] == [1, 2] && [1, 2][1..] == [2] && [2][1..] == [];
    assert Data(verts, [2]) == [verts[2]];
    assert Data(verts, [1, 2]) == [verts[1], verts[2]];
  }

  lemma SameStream(f: Format, k: Key, k': Key, data: seq<Vertex>)
    requires k == Key(CLIP, 0, data, [0, 1, 2]) && k' == Key(CLIP, 0, [], DataWords(f, data) + [0, 1, 2])
    ensures Stream(f, k) == Stream(f, k')
  {
    assert DataWords(f, []) == [];
  }

  lemma DisguiseDraws(f: Format, clear: Pixel)
    ensures SceneAt(map[], clear, TRIANGLE, 1, 0, 0) == GREEN && SceneAt(map[], clear, Disguise(f), 1, 0, 0) == clear
  {
    var slice := Slice(TRIANGLE.prims[0], TRIANGLE.idx);
    assert slice == [0, 1, 2];
    assert TriangleAt(TRIANGLE.verts, slice, 0) == Some(CornerTriangle(GREEN));
    SceneStep(map[], clear, TRIANGLE, 0, 0, 0);
    OneTriangle(map[], TRIANGLE.prims[0], TRIANGLE.verts, TRIANGLE.idx, CornerTriangle(GREEN), clear);
    CornerDrawn(GREEN);
    OpaqueTriangle(None, CornerTriangle(GREEN), GREEN, BRIGHT, 0, 0, clear, GREEN);
    var d := Disguise(f);
    SceneStep(map[], clear, d, 0, 0, 0);
    var other := Slice(d.prims[0], d.idx);
    NoVertices(None, other, |other| / 3, 0, 0, clear);
  }

  /** A triangle replaced by no vertices and its own words as indices, all out of range but hashed: no
      damage, though the picture changes, whatever the bits of the numbers. */
  lemma SkippedIndicesMissed(f: Format, clear: Pixel)
    ensures Planned(f, false, TRIANGLE, Disguise(f), map[], [], 4, 4) == None
    ensures SceneAt(map[], clear, TRIANGLE, 1, 0, 0) == GREEN && SceneAt(map[], clear, Disguise(f), 1, 0, 0) == clear
  {
    DisguiseDraws(f, clear);
    var d := Disguise(f);
    DataLength(f, TRIANGLE.verts);
    assert Slice(TRIANGLE.prims[0], TRIANGLE.idx) == [0, 1, 2] && Slice(d.prims[0], d.idx) == d.idx;
    ThreeVertices(TRIANGLE.verts);
    NoData(d.idx);
    SameStream(f, AllKeys(TRIANGLE)[0], AllKeys(d)[0], TRIANGLE.verts);
    SingleHash(f, TRIANGLE, d);
    SameHashesNoDamage(f, TRIANGLE, d, map[], [], 4, 4);
  }

  lemma SingleHash(f: Format, s: Scene, s': Scene)
    requires |s.prims| == |s'.prims| == 1 && Stream(f, AllKeys(s)[0]) == Stream(f, AllKeys(s')[0])
    ensures Hashes(AllMetas(f, s, 4, 4)) == Hashes(AllMetas(f, s', 4, 4))
  {
    var a, b := AllMetas(f, s, 4, 4), AllMetas(f, s', 4, 4);
    assert a == [a[0]] && b == [b[0]];
  }

  // ----- the half-texel margin ----------------------------------------------------------------

  /** An atlas of one texel. */
  function Dot(c: Pixel): Atlas
  {
    Atlas(1, 1, [c])
  }

  lemma DotSampled(c: Pixel)
    ensures Dot(c).Valid() && Sample(Dot(c), 0.0, 0.0) == Wide(c)
  {
    var t := Dot(c);
    var w := Wide(c);
    assert Tap(0.0, 1) == -1;
    assert Texel(t, 0, 0) == w;
    assert Mix(w, w, Part(0.0, 1)) == w;
  }

  const ONE: Scene := Scene([Corner(0.0, 0.0, BRIGHT), Corner(4.0, 0.0, BRIGHT), Corner(0.0, 4.0, BRIGHT)], [0, 1, 2], [Prim(CLIP, 1, 0, 3)])

  lemma DotShown(c: Pixel, clear: Pixel)
    requires c.a == 255
    ensures ValidTextures(map[1 := Dot(c)]) && SceneAt(map[1 := Dot(c)], clear, ONE, 1, 0, 0) == c
  {
    DotSampled(c);
    var textures := map[1 := Dot(c)];
    var slice := Slice(ONE.prims[0], ONE.idx);
    assert slice == [0, 1, 2];
    assert TriangleAt(ONE.verts, slice, 0) == Some(CornerTriangle(BRIGHT));
    SceneStep(textures, clear, ONE, 0, 0, 0);
    OneTriangle(textures, ONE.prims[0], ONE.verts, ONE.idx, CornerTriangle(BRIGHT), clear);
    CornerDrawn(BRIGHT);
    OpaqueTriangle(Some(Dot(c)), CornerTriangle(BRIGHT), BRIGHT, c, 0, 0, clear, c);
  }

  lemma NoUvArea(m: Meta)
    requires m.uv == Some(Bounds(0.0, 0.0, 0.0, 0.0))
    ensures !Touches(m, 1, Rect(0, 0, 1, 1), Some(Dot(BLACK)))
  {
  }

  /** A solid primitive samples the one texel at uv (0, 0); its uv box has no area, so replacing the
      atlas is not noticed: no damage, though the picture changes. */
  lemma SolidTexelMissed(f: Format, clear: Pixel)
    ensures var before, after := map[1 := Dot(BRIGHT)], map[1 := Dot(BLACK)];
            var patches := [Patch(1, Rect(0, 0, 1, 1))];
            && ValidTextures(before) && ValidTextures(after) && Tracked(before, after, patches)
            && Planned(f, false, ONE, ONE, after, patches, 4, 4) == None
            && SceneAt(before, clear, ONE, 1, 0, 0) == BRIGHT && SceneAt(after, clear, ONE, 1, 0, 0) == BLACK
  {
    var before, after := map[1 := Dot(BRIGHT)], map[1 := Dot(BLACK)];
    var patches := [Patch(1, Rect(0, 0, 1, 1))];
    DotShown(BRIGHT, clear);
    DotShown(BLACK, clear);
    forall id: nat
      ensures TrackedAt(before, after, patches, id)
    {
      assert patches[0] in patches;
    }
    var meta := AllMetas(f, ONE, 4, 4);
    OneUv(f);
    NoUvArea(meta[0]);
    NonePicked(meta, 1, Sampling(1, Rect(0, 0, 1, 1), Some(Dot(BLACK))));
    assert StaleAll(meta, after, patches, 0) == [];
    assert StaleAll(meta, after, patches, 1) == [];
    SameHashesNoDamage(f, ONE, ONE, after, patches, 4, 4);
  }

  lemma OneUv(f: Format)
    ensures AllMetas(f, ONE, 4, 4)[0].uv == Some(Bounds(0.0, 0.0, 0.0, 0.0))
  {
    assert Slice(ONE.prims[0], ONE.idx) == [0, 1, 2];
    ThreeVertices(ONE.verts);
    FlatUv(ONE.verts);
  }

  lemma {:induction false} FlatUv(d: seq<Vertex>)
    requires d != [] && forall k | 0 <= k < |d| :: d[k].u == 0.0 && d[k].v == 0.0
    ensures UvExtent(d) == Bounds(0.0, 0.0, 0.0, 0.0)
  {
    if |d| > 1 { FlatUv(d[..|d| - 1]); }
  }
}
