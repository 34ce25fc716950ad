/** prim_meta and the damage rectangle of a frame. */
module RasterDamage {
  import opened Common
  import opened RasterGeometry
  import opened RasterShade
  import opened RasterBand
  import opened RasterDiff
  import opened RasterFrames

  // ----- per-primitive data -------------------------------------------------------------------

  /** What the renderer keeps of a primitive; `hash` is the list of words hashed. */
  datatype Meta = Meta(hash: seq<nat>, texId: nat, bbox: Rect, uv: Option<Bounds>)

  function MetaOf(f: Format, k: Key, w: nat, h: nat): Meta
  {
    Meta(Stream(f, k), k.texId, KeyBbox(k, w, h), if k.data == [] then None else Some(UvExtent(k.data)))
  }

  lemma {:induction false} DataSnoc(verts: seq<Vertex>, a: seq<nat>, i: nat)
    ensures Data(verts, a + [i]) == Data(verts, a) + if i < |verts| then [verts[i]] else []
  {
    var last := if i < |verts| then [verts[i]] else [];
    if a == [] {
      assert a + [i] == [i] && [i][1..] == [];
      assert Data(verts, [i]) == last + Data(verts, []) == last;
      assert Data(verts, a) + last == last;
    } else {
      var rest, first := a[1..], if a[0] < |verts| then [verts[a[0]]] else [];
      assert (a + [i])[1..] == rest + [i] && (a + [i])[0] == a[0];
      DataSnoc(verts, rest, i);
      assert Data(verts, a + [i]) == first + Data(verts, rest + [i]);
      assert first + (Data(verts, rest) + last) == (first + Data(verts, rest)) + last;
    }
  }

  lemma ExtentSnoc(d: seq<Vertex>, v: Vertex)
    ensures Extent(d + [v]) == if d == [] then Bounds(v.x, v.y, v.x, v.y)
                               else Bounds(Lesser(Extent(d).x0, v.x), Lesser(Extent(d).y0, v.y),
                                           Greater(Extent(d).x1, v.x), Greater(Extent(d).y1, v.y))
    ensures UvExtent(d + [v]) == if d == [] then Bounds(v.u, v.v, v.u, v.v)
                                 else Bounds(Lesser(UvExtent(d).x0, v.u), Lesser(UvExtent(d).y0, v.v),
                                             Greater(UvExtent(d).x1, v.u), Greater(UvExtent(d).y1, v.v))
  {
    assert (d + [v])[..|d|] == d;
  }

  lemma WordsSnoc(f: Format, d: seq<Vertex>, v: Vertex)
    ensures DataWords(f, d + [v]) == DataWords(f, d) + VertexWords(f, v)
  {
    assert (d + [v])[..|d|] == d;
  }

  lemma WordsOnward(f: Format, head: seq<nat>, d: seq<Vertex>, v: Vertex)
    ensures head + DataWords(f, d + [v]) == head + DataWords(f, d) + VertexWords(f, v)
  {
    WordsSnoc(f, d, v);
    assert head + (DataWords(f, d) + VertexWords(f, v)) == head + DataWords(f, d) + VertexWords(f, v);
  }

  function Wider(b: Option<Bounds>, x: real, y: real): Bounds
  {
    if b.None? then Bounds(x, y, x, y)
    else Bounds(Lesser(b.value.x0, x), Lesser(b.value.y0, y), Greater(b.value.x1, x), Greater(b.value.y1, y))
  }

  /** One pass over the indices for the vertices, a second for the indices themselves; no vertex in
      range leaves both boxes empty. */
  method PrimMeta(f: Format, p: Prim, verts: seq<Vertex>, idx: seq<nat>, w: nat, h: nat) returns (m: Meta)
    ensures m == MetaOf(f, KeyOf(p, verts, idx), w, h)
  {
    var slice := Slice(p, idx);
    var hash := HeadWords(f, p.clip, p.texId);
    ghost var head, data: seq<Vertex> := hash, [];
    var at, uv: Option<Bounds> := None, None;
    assert head + [] == head;
    var k := 0;
    while k < |slice|
      invariant k <= |slice| && data == Data(verts, slice[..k]) && hash == head + DataWords(f, data)
      invariant if data == [] then at == None && uv == None else at == Some(Extent(data)) && uv == Some(UvExtent(data))
    {
      assert slice[..k + 1] == slice[..k] + [slice[k]];
      DataSnoc(verts, slice[..k], slice[k]);
      if slice[k] < |verts| {
        var v := verts[slice[k]];
        ExtentSnoc(data, v);
        WordsOnward(f, head, data, v);
        hash := hash + VertexWords(f, v);
        at, uv := Some(Wider(at, v.x, v.y)), Some(Wider(uv, v.u, v.v));
        data := data + [v];
      }
      k := k + 1;
    }
    assert slice[..|slice|] == slice;
    hash := hash + slice;
    var box := EMPTY;
    if at.Some? {
      var r := Rect(Floor(Greater(at.value.x0, p.clip.x0)), Floor(Greater(at.value.y0, p.clip.y0)),
                    Ceil(Lesser(at.value.x1, p.clip.x1)), Ceil(Lesser(at.value.y1, p.clip.y1)));
      if !(r.x0 >= r.x1 || r.y0 >= r.y1) { box := Clamped(r, w, h); }
    }
    m := Meta(hash, p.texId, box, uv);
  }

  // ----- rectangles ---------------------------------------------------------------------------

  predicate IsEmpty(r: Rect)
  {
    r.x0 >= r.x1 || r.y0 >= r.y1
  }

  function Union(a: Rect, b: Rect): Rect
  {
    if IsEmpty(a) then b
    else if IsEmpty(b) then a
    else Rect(Min(a.x0, b.x0), Min(a.y0, b.y0), Max(a.x1, b.x1), Max(a.y1, b.y1))
  }

  /** Union of rectangles taken in order. */
  function UnionAll(rs: seq<Rect>): Rect
  {
    var n := |rs| - 1;
    if n < 0 then EMPTY else Union(UnionAll(rs[..n]), rs[n])
  }

  lemma UnionAllSnoc(rs: seq<Rect>, r: Rect)
    ensures UnionAll(rs + [r]) == Union(UnionAll(rs), r)
  {
    assert (rs + [r])[..|rs|] == rs;
  }

  lemma {:induction false} UnionHolds(rs: seq<Rect>, k: nat, x: int, y: int)
    requires k < |rs| && rs[k].Contains(x, y)
    ensures UnionAll(rs).Contains(x, y)
  {
    var n := |rs| - 1;
    if k < n { UnionHolds(rs[..n], k, x, y); }
  }

  /** Grown by a pixel on each side and cut to the screen, unless it is the whole screen. */
  function Padded(d: Rect, w: nat, h: nat): Rect
  {
    if IsEmpty(d) || d == Rect(0, 0, w, h) then d
    else Clamped(Rect(d.x0 - 1, d.y0 - 1, d.x1 + 1, d.y1 + 1), w, h)
  }

  lemma PaddedHolds(d: Rect, w: nat, h: nat, x: int, y: int)
    requires 0 <= x < w && 0 <= y < h && d.Contains(x, y)
    ensures Padded(d, w, h).Contains(x, y)
  {
  }

  // ----- what changed -------------------------------------------------------------------------

  /** The patched area of an atlas meets the primitive's uv box, as plan_damage tests it. */
  predicate Touches(m: Meta, id: nat, dirty: Rect, tex: Option<Atlas>)
  {
    && m.texId == id
    && (tex.None? || (m.uv.Some? && Meets(UvPixels(m.uv.value, tex.value.w, tex.value.h), dirty)))
  }

  predicate Meets(a: Rect, b: Rect)
  {
    a.x0 < b.x1 && b.x0 < a.x1 && a.y0 < b.y1 && b.y0 < a.y1
  }

  /** The pixels of the uv box in an atlas of this size. */
  function UvPixels(uv: Bounds, w: nat, h: nat): Rect
  {
    Rect(Floor(uv.x0 * w as real), Floor(uv.y0 * h as real), Ceil(uv.x1 * w as real), Ceil(uv.y1 * h as real))
  }

  /** Boxes of those of the first n primitives that are picked. */
  function Picked(ms: seq<Meta>, n: nat, pick: Meta -> bool): seq<Rect>
    requires n <= |ms|
  {
    if n == 0 then [] else Picked(ms, n - 1, pick) + if pick(ms[n - 1]) then [ms[n - 1].bbox] else []
  }

  /** Picks the primitives whose hash is not among the other frame's. */
  function Missing(hashes: set<seq<nat>>): Meta -> bool
  {
    (m: Meta) => m.hash !in hashes
  }

  /** Picks the primitives that sample a patched area. */
  function Sampling(id: nat, dirty: Rect, tex: Option<Atlas>): Meta -> bool
  {
    (m: Meta) => Touches(m, id, dirty, tex)
  }

  function Unmatched(ms: seq<Meta>, hashes: set<seq<nat>>): seq<Rect>
  {
    Picked(ms, |ms|, Missing(hashes))
  }

  function Stale(ms: seq<Meta>, p: Patch, textures: Textures): seq<Rect>
  {
    Picked(ms, |ms|, Sampling(p.id, p.area, TextureOf(textures, p.id)))
  }

  datatype Patch = Patch(id: nat, area: Rect)

  function StaleAll(ms: seq<Meta>, textures: Textures, patches: seq<Patch>, j: nat): seq<Rect>
    requires j <= |patches|
  {
    if j == 0 then []
    else StaleAll(ms, textures, patches, j - 1) + Stale(ms, patches[j - 1], textures)
  }

  function Hashes(ms: seq<Meta>): set<seq<nat>>
  {
    set m | m in ms :: m.hash
  }

  /** Everything that must be repainted: primitives removed, added, or with a patched texture. */
  function Changed(prev: seq<Meta>, meta: seq<Meta>, textures: Textures, patches: seq<Patch>): seq<Rect>
  {
    Unmatched(prev, Hashes(meta)) + Unmatched(meta, Hashes(prev)) + StaleAll(meta, textures, patches, |patches|)
  }

  lemma UnionAllPlus(rs: seq<Rect>, more: seq<Rect>, r: Rect)
    ensures UnionAll(rs + (more + [r])) == Union(UnionAll(rs + more), r)
    ensures UnionAll(rs + (more + [])) == UnionAll(rs + more)
  {
    assert rs + (more + [r]) == (rs + more) + [r];
    assert rs + (more + []) == rs + more;
    UnionAllSnoc(rs + more, r);
  }

  /** Adds the boxes of the picked primitives to the damage so far. */
  method AddPicked(d0: Rect, ms: seq<Meta>, pick: Meta -> bool, ghost rs: seq<Rect>) returns (d: Rect)
    requires d0 == UnionAll(rs)
    ensures d == UnionAll(rs + Picked(ms, |ms|, pick))
  {
    d := d0;
    assert rs + [] == rs;
    var n := 0;
    while n < |ms|
      invariant n <= |ms| && d == UnionAll(rs + Picked(ms, n, pick))
    {
      UnionAllPlus(rs, Picked(ms, n, pick), ms[n].bbox);
      if pick(ms[n]) { d := Union(d, ms[n].bbox); }
      n := n + 1;
    }
  }

  /** Adds what every recorded patch makes stale. */
  method AddPatches(d0: Rect, ms: seq<Meta>, textures: Textures, patches: seq<Patch>, ghost rs: seq<Rect>) returns (d: Rect)
    requires d0 == UnionAll(rs)
    ensures d == UnionAll(rs + StaleAll(ms, textures, patches, |patches|))
  {
    d := d0;
    assert rs + [] == rs;
    var j := 0;
    while j < |patches|
      invariant j <= |patches| && d == UnionAll(rs + StaleAll(ms, textures, patches, j))
    {
      var p := patches[j];
      ghost var sofar := StaleAll(ms, textures, patches, j);
      d := AddPicked(d, ms, Sampling(p.id, p.area, TextureOf(textures, p.id)), rs + sofar);
      Regroup(rs, sofar, Stale(ms, p, textures));
      j := j + 1;
    }
  }

  lemma Regroup(a: seq<Rect>, b: seq<Rect>, c: seq<Rect>)
    ensures (a + b) + c == a + (b + c)
  {
  }

  /** The three diffs of plan_damage, in its order. */
  method Diff(prev: seq<Meta>, meta: seq<Meta>, textures: Textures, patches: seq<Patch>) returns (d: Rect)
    ensures d == UnionAll(Changed(prev, meta, textures, patches))
  {
    ghost var removed, added := Unmatched(prev, Hashes(meta)), Unmatched(meta, Hashes(prev));
    d := AddPicked(EMPTY, prev, Missing(Hashes(meta)), []);
    assert [] + removed == removed;
    d := AddPicked(d, meta, Missing(Hashes(prev)), removed);
    d := AddPatches(d, meta, textures, patches, removed + added);
  }

  lemma InConcat(a: seq<Rect>, b: seq<Rect>, r: Rect)
    requires r in a || r in b
    ensures r in a + b
  {
    if r in a {
      var k :| 0 <= k < |a| && a[k] == r;
      assert (a + b)[k] == r;
    } else {
      var k :| 0 <= k < |b| && b[k] == r;
      assert (a + b)[|a| + k] == r;
    }
  }

  lemma {:induction false} PickedListed(ms: seq<Meta>, n: nat, pick: Meta -> bool, i: nat)
    requires i < n <= |ms| && pick(ms[i])
    ensures ms[i].bbox in Picked(ms, n, pick)
  {
    var rest := Picked(ms, n - 1, pick);
    if i < n - 1 {
      PickedListed(ms, n - 1, pick, i);
      InConcat(rest, if pick(ms[n - 1]) then [ms[n - 1].bbox] else [], ms[i].bbox);
    } else {
      assert Picked(ms, n, pick)[|rest|] == ms[i].bbox;
    }
  }

  lemma {:induction false} StaleAllListed(ms: seq<Meta>, textures: Textures, patches: seq<Patch>, j: nat, l: nat, r: Rect)
    requires l < j <= |patches| && r in Stale(ms, patches[l], textures)
    ensures r in StaleAll(ms, textures, patches, j)
  {
    if l < j - 1 {
      StaleAllListed(ms, textures, patches, j - 1, l, r);
    }
    InConcat(StaleAll(ms, textures, patches, j - 1), Stale(ms, patches[j - 1], textures), r);
  }

  lemma ChangedHolds(prev: seq<Meta>, meta: seq<Meta>, textures: Textures, patches: seq<Patch>, r: Rect, x: int, y: int)
    requires r in Changed(prev, meta, textures, patches) && r.Contains(x, y)
    ensures UnionAll(Changed(prev, meta, textures, patches)).Contains(x, y)
  {
    var rs := Changed(prev, meta, textures, patches);
    var k :| 0 <= k < |rs| && rs[k] == r;
    UnionHolds(rs, k, x, y);
  }

  lemma RemovedShown(prev: seq<Meta>, meta: seq<Meta>, textures: Textures, patches: seq<Patch>, i: nat, x: int, y: int)
    requires i < |prev| && prev[i].hash !in Hashes(meta) && prev[i].bbox.Contains(x, y)
    ensures UnionAll(Changed(prev, meta, textures, patches)).Contains(x, y)
  {
    PickedListed(prev, |prev|, Missing(Hashes(meta)), i);
    ChangedHolds(prev, meta, textures, patches, prev[i].bbox, x, y);
  }

  lemma AddedShown(prev: seq<Meta>, meta: seq<Meta>, textures: Textures, patches: seq<Patch>, i: nat, x: int, y: int)
    requires i < |meta| && meta[i].hash !in Hashes(prev) && meta[i].bbox.Contains(x, y)
    ensures UnionAll(Changed(prev, meta, textures, patches)).Contains(x, y)
  {
    PickedListed(meta, |meta|, Missing(Hashes(prev)), i);
    ChangedHolds(prev, meta, textures, patches, meta[i].bbox, x, y);
  }

  lemma PatchedShown(prev: seq<Meta>, meta: seq<Meta>, textures: Textures, patches: seq<Patch>, l: nat, i: nat, x: int, y: int)
    requires l < |patches| && i < |meta| && Touches(meta[i], patches[l].id, patches[l].area, TextureOf(textures, patches[l].id))
    requires meta[i].bbox.Contains(x, y)
    ensures UnionAll(Changed(prev, meta, textures, patches)).Contains(x, y)
  {
    PickedListed(meta, |meta|, Sampling(patches[l].id, patches[l].area, TextureOf(textures, patches[l].id)), i);
    StaleAllListed(meta, textures, patches, |patches|, l, meta[i].bbox);
    ChangedHolds(prev, meta, textures, patches, meta[i].bbox, x, y);
  }

  // ----- textures between two frames ----------------------------------------------------------

  ghost predicate InPatch(patches: seq<Patch>, id: nat, x: int, y: int)
  {
    exists p :: p in patches && p.id == id && p.area.Contains(x, y)
  }

  /** The patches on record account for every difference between the textures of the last frame
      (`shown`) and those of now. */
  ghost predicate TrackedAt(shown: Textures, textures: Textures, patches: seq<Patch>, id: nat)
    requires ValidTextures(shown) && ValidTextures(textures)
  {
    if id !in textures then id !in shown
    else
      var now := textures[id];
      || Patch(id, Rect(0, 0, now.w, now.h)) in patches
      || (&& id in shown && shown[id].w == now.w && shown[id].h == now.h
          && forall x, y | 0 <= x < now.w && 0 <= y < now.h :: TexelSame(shown[id], now, x, y) || InPatch(patches, id, x, y))
  }

  ghost predicate Tracked(shown: Textures, textures: Textures, patches: seq<Patch>)
    requires ValidTextures(shown) && ValidTextures(textures)
  {
    forall id: nat :: TrackedAt(shown, textures, patches, id)
  }

  /** The texels that samples from the uv box can touch. */
  function TapPixels(uv: Bounds, w: nat, h: nat): Rect
    requires w >= 1 && h >= 1
  {
    Rect(Clamp(Tap(uv.x0, w), 0, w - 1), Clamp(Tap(uv.y0, h), 0, h - 1),
         Clamp(Tap(uv.x1, w) + 1, 0, w - 1) + 1, Clamp(Tap(uv.y1, h) + 1, 0, h - 1) + 1)
  }

  lemma UntouchedAlike(shown: Textures, textures: Textures, patches: seq<Patch>, k: Key)
    requires ValidTextures(shown) && ValidTextures(textures) && TrackedAt(shown, textures, patches, k.texId) && k.data != []
    requires k.texId in textures ==> forall p | p in patches && p.id == k.texId ::
               !Meets(TapPixels(UvExtent(k.data), textures[k.texId].w, textures[k.texId].h), p.area)
    ensures SamplesAlike(shown, textures, k)
  {
    if k.texId in textures {
      var now, uv := textures[k.texId], UvExtent(k.data);
      var whole := Patch(k.texId, Rect(0, 0, now.w, now.h));
      assert Meets(TapPixels(uv, now.w, now.h), whole.area);
      assert whole !in patches;
      forall x, y | 0 <= x < now.w && 0 <= y < now.h && InTaps(uv.x0, uv.x1, now.w, x) && InTaps(uv.y0, uv.y1, now.h, y)
        ensures TexelSame(shown[k.texId], now, x, y)
      {
      }
    }
  }

  // ----- what the uv test notices -------------------------------------------------------------

  predicate Within(a: Rect, b: Rect)
  {
    b.x0 <= a.x0 && a.x1 <= b.x1 && b.y0 <= a.y0 && a.y1 <= b.y1
  }

  /** The uv box's own pixels cover the texels that samples from it can touch. */
  predicate UvCovered(e: Bounds, w: nat, h: nat)
    requires w >= 1 && h >= 1
  {
    Within(TapPixels(e, w, h), UvPixels(e, w, h))
  }

  lemma WithinMeets(a: Rect, b: Rect, area: Rect)
    requires Within(a, b) && Meets(a, area)
    ensures Meets(b, area)
  {
  }

  /** A pixel of a box that is not in another. */
  lemma PixelOutside(a: Rect, b: Rect) returns (x: int, y: int)
    requires !Within(a, b) && a.x0 < a.x1 && a.y0 < a.y1
    ensures a.Contains(x, y) && !Meets(b, Rect(x, y, x + 1, y + 1))
  {
    x := if a.x0 < b.x0 then a.x0 else a.x1 - 1;
    y := if a.y0 < b.y0 then a.y0 else a.y1 - 1;
  }

  lemma TapPixelsInAtlas(e: Bounds, w: nat, h: nat)
    requires w >= 1 && h >= 1 && e.x0 <= e.x1 && e.y0 <= e.y1
    ensures var t := TapPixels(e, w, h); 0 <= t.x0 < t.x1 <= w && 0 <= t.y0 < t.y1 <= h
  {
    TapMonotone(e.x0, e.x1, w);
    TapMonotone(e.y0, e.y1, h);
  }

  /** An atlas of this size before and after a patch inside it. */
  ghost predicate IsPatch(t: Atlas, t': Atlas, area: Rect, w: nat, h: nat)
  {
    && t.Valid() && t'.Valid() && t.w == t'.w == w && t.h == t'.h == h
    && 0 <= area.x0 < area.x1 <= w && 0 <= area.y0 < area.y1 <= h
    && forall x, y | 0 <= x < w && 0 <= y < h && !area.Contains(x, y) :: TexelSame(t, t', x, y)
  }

  /** The uv test is right about this patch: nothing sampled has changed, or it says so. */
  ghost predicate TestRight(e: Bounds, t: Atlas, t': Atlas, area: Rect)
    requires t.Valid() && t'.Valid()
  {
    TexelsAgree(t, t', e) || Meets(UvPixels(e, t.w, t.h), area)
  }

  lemma CoveredIsRight(e: Bounds, t: Atlas, t': Atlas, area: Rect, w: nat, h: nat)
    requires w >= 1 && h >= 1 && UvCovered(e, w, h) && IsPatch(t, t', area, w, h)
    ensures TestRight(e, t, t', area)
  {
    if !Meets(UvPixels(e, w, h), area) {
      forall x, y | 0 <= x < w && 0 <= y < h && InTaps(e.x0, e.x1, w, x) && InTaps(e.y0, e.y1, h, y)
        ensures TexelSame(t, t', x, y)
      {
        if area.Contains(x, y) { SharedPixel(TapPixels(e, w, h), UvPixels(e, w, h), area, x, y); }
      }
    }
  }

  lemma SharedPixel(a: Rect, b: Rect, area: Rect, x: int, y: int)
    requires Within(a, b) && a.Contains(x, y) && area.Contains(x, y)
    ensures Meets(b, area)
  {
  }

  function Blank(w: nat, h: nat): Atlas
  {
    Atlas(w, h, seq(w * h, _ => Pixel(0, 0, 0, 0)))
  }

  lemma OneTexelPatch(w: nat, h: nat, x: int, y: int) returns (t': Atlas)
    requires 0 <= x < w && 0 <= y < h
    ensures IsPatch(Blank(w, h), t', Rect(x, y, x + 1, y + 1), w, h) && !TexelSame(Blank(w, h), t', x, y)
  {
    var t := Blank(w, h);
    TexelIndex(w, h, x, y);
    t' := Atlas(w, h, t.px[y * w + x := Pixel(255, 255, 255, 255)]);
    forall a, b | 0 <= a < w && 0 <= b < h && !Rect(x, y, x + 1, y + 1).Contains(a, b)
      ensures TexelSame(t, t', a, b)
    {
      TexelIndex(w, h, a, b);
      if b * w + a == y * w + x { FlatInjective(w, a, b, x, y); }
    }
  }

  lemma UncoveredIsWrong(e: Bounds, w: nat, h: nat) returns (t': Atlas, area: Rect)
    requires w >= 1 && h >= 1 && e.x0 <= e.x1 && e.y0 <= e.y1 && !UvCovered(e, w, h)
    ensures IsPatch(Blank(w, h), t', area, w, h) && !TestRight(e, Blank(w, h), t', area)
  {
    TapPixelsInAtlas(e, w, h);
    var x, y := PixelOutside(TapPixels(e, w, h), UvPixels(e, w, h));
    area := Rect(x, y, x + 1, y + 1);
    t' := OneTexelPatch(w, h, x, y);
  }

  /** The uv test, which has no half-texel margin, is right about every patch of an atlas of this size
      exactly when the pixels of the uv box cover what the bilinear taps touch. */
  lemma UvTestRightIff(e: Bounds, w: nat, h: nat)
    requires w >= 1 && h >= 1 && e.x0 <= e.x1 && e.y0 <= e.y1
    ensures UvCovered(e, w, h) <==> forall t, t', area | IsPatch(t, t', area, w, h) :: TestRight(e, t, t', area)
  {
    if UvCovered(e, w, h) {
      forall t, t', area | IsPatch(t, t', area, w, h)
        ensures TestRight(e, t, t', area)
      {
        CoveredIsRight(e, t, t', area, w, h);
      }
    } else {
      var t', area := UncoveredIsWrong(e, w, h);
    }
  }

  // ----- the frame theorem --------------------------------------------------------------------

  function Metas(f: Format, s: Scene, n: nat, w: nat, h: nat): (r: seq<Meta>)
    requires n <= |s.prims|
    ensures |r| == n && forall i | 0 <= i < n :: r[i] == MetaOf(f, KeyOf(s.prims[i], s.verts, s.idx), w, h)
  {
    if n == 0 then [] else Metas(f, s, n - 1, w, h) + [MetaOf(f, KeyOf(s.prims[n - 1], s.verts, s.idx), w, h)]
  }

  function AllMetas(f: Format, s: Scene, w: nat, h: nat): seq<Meta>
  {
    Metas(f, s, |s.prims|, w, h)
  }

  function AllKeys(s: Scene): seq<Key>
  {
    Keys(s, |s.prims|)
  }

  /** The numbers of a scene are the machine's. */
  predicate Representable(f: Format, s: Scene)
  {
    && (forall i | 0 <= i < |s.verts| :: f.HoldsVertex(s.verts[i]))
    && (forall i | 0 <= i < |s.prims| :: f.HoldsClip(s.prims[i].clip))
  }

  /** Primitives of two frames that hash the same words have as many indices in range. */
  ghost predicate Unmistaken(f: Format, before: seq<Key>, after: seq<Key>)
  {
    forall k, k' | k in before && k' in after && Stream(f, k) == Stream(f, k') :: |k.data| == |k'.data|
  }

  /** So it is if no index of either frame is out of range. */
  lemma InRangeUnmistaken(f: Format, s: Scene, s': Scene)
    requires AllInRange(s.verts, s.idx) && AllInRange(s'.verts, s'.idx)
    ensures Unmistaken(f, AllKeys(s), AllKeys(s'))
  {
    forall k, k' | k in AllKeys(s) && k' in AllKeys(s') && Stream(f, k) == Stream(f, k')
      ensures |k.data| == |k'.data|
    {
      SceneKeyInRange(s, k);
      SceneKeyInRange(s', k');
      InRangeTold(f, k, k');
    }
  }

  lemma SliceInRange(p: Prim, verts: seq<Vertex>, idx: seq<nat>)
    requires AllInRange(verts, idx)
    ensures AllInRange(verts, Slice(p, idx))
  {
  }

  lemma SceneKeyInRange(s: Scene, k: Key)
    requires AllInRange(s.verts, s.idx) && k in AllKeys(s)
    ensures NoneSkipped(k)
  {
    var n :| 0 <= n < |s.prims| && AllKeys(s)[n] == k;
    SliceInRange(s.prims[n], s.verts, s.idx);
    NoneSkippedIff(s.verts, Slice(s.prims[n], s.idx));
  }

  lemma {:induction false} DataHeld(f: Format, verts: seq<Vertex>, slice: seq<nat>)
    requires forall i | 0 <= i < |verts| :: f.HoldsVertex(verts[i])
    ensures forall i | 0 <= i < |Data(verts, slice)| :: f.HoldsVertex(Data(verts, slice)[i])
  {
    if slice != [] { DataHeld(f, verts, slice[1..]); }
  }

  lemma SceneKeyHeld(f: Format, s: Scene, k: Key)
    requires Representable(f, s) && k in AllKeys(s)
    ensures f.HoldsKey(k)
  {
    var n :| 0 <= n < |s.prims| && AllKeys(s)[n] == k;
    DataHeld(f, s.verts, Slice(s.prims[n], s.idx));
  }

  /** What the two frames share by hash is what they share. */
  lemma SameHashSameKey(f: Format, s: Scene, s': Scene, k: Key, k': Key)
    requires Representable(f, s) && Representable(f, s') && Unmistaken(f, AllKeys(s), AllKeys(s'))
    requires k in AllKeys(s) && k' in AllKeys(s') && Stream(f, k) == Stream(f, k')
    ensures k == k'
  {
    SceneKeyHeld(f, s, k);
    SceneKeyHeld(f, s', k');
    SameWordsIff(f, k, k');
  }

  lemma HashFrom(f: Format, s: Scene, w: nat, h: nat, hash: seq<nat>) returns (k: Key)
    requires hash in Hashes(AllMetas(f, s, w, h))
    ensures k in AllKeys(s) && Stream(f, k) == hash
  {
    var ms := AllMetas(f, s, w, h);
    var m :| m in ms && m.hash == hash;
    var i :| 0 <= i < |ms| && ms[i] == m;
    k := AllKeys(s)[i];
  }

  lemma RemovedUnhashed(f: Format, s: Scene, s': Scene, w: nat, h: nat, k: Key)
    requires Representable(f, s) && Representable(f, s') && Unmistaken(f, AllKeys(s), AllKeys(s'))
    requires k in AllKeys(s) && k !in AllKeys(s')
    ensures Stream(f, k) !in Hashes(AllMetas(f, s', w, h))
  {
    if Stream(f, k) in Hashes(AllMetas(f, s', w, h)) {
      var k' := HashFrom(f, s', w, h, Stream(f, k));
      SameHashSameKey(f, s, s', k, k');
    }
  }

  lemma AddedUnhashed(f: Format, s: Scene, s': Scene, w: nat, h: nat, k: Key)
    requires Representable(f, s) && Representable(f, s') && Unmistaken(f, AllKeys(s), AllKeys(s'))
    requires k in AllKeys(s') && k !in AllKeys(s)
    ensures Stream(f, k) !in Hashes(AllMetas(f, s, w, h))
  {
    if Stream(f, k) in Hashes(AllMetas(f, s, w, h)) {
      var k' := HashFrom(f, s, w, h, Stream(f, k));
      SameHashSameKey(f, s, s', k', k);
    }
  }

  lemma MetaFor(f: Format, s: Scene, w: nat, h: nat, k: Key) returns (i: nat)
    requires k in AllKeys(s)
    ensures i < |s.prims| && AllMetas(f, s, w, h)[i] == MetaOf(f, k, w, h)
  {
    var keys := AllKeys(s);
    i :| 0 <= i < |keys| && keys[i] == k;
  }

  /** Some patch on record meets the primitive's uv box. */
  ghost predicate Flagged(k: Key, textures: Textures, patches: seq<Patch>)
  {
    exists p :: p in patches && KeyTouched(k, p, textures)
  }

  predicate KeyTouched(k: Key, p: Patch, textures: Textures)
  {
    var tex := TextureOf(textures, p.id);
    k.texId == p.id && (tex.None? || (k.data != [] && Meets(UvPixels(UvExtent(k.data), tex.value.w, tex.value.h), p.area)))
  }

  /** Every primitive of both frames samples the same texels as before, or a patch is seen to meet it. */
  ghost predicate Noticed(before: seq<Key>, after: seq<Key>, were: Textures, textures: Textures, patches: seq<Patch>)
    requires ValidTextures(were) && ValidTextures(textures)
  {
    forall k | k in before && k in after :: SamplesAlike(were, textures, k) || Flagged(k, textures, patches)
  }

  /** So it is for every change on record if the uv boxes cover the taps. */
  lemma CoveredNoticed(before: seq<Key>, after: seq<Key>, were: Textures, textures: Textures, patches: seq<Patch>)
    requires ValidTextures(were) && ValidTextures(textures) && Tracked(were, textures, patches)
    requires forall k | k in before && k in after && k.data != [] && k.texId in textures ::
               UvCovered(UvExtent(k.data), textures[k.texId].w, textures[k.texId].h)
    ensures Noticed(before, after, were, textures, patches)
  {
    forall k | k in before && k in after && !Flagged(k, textures, patches)
      ensures SamplesAlike(were, textures, k)
    {
      if k.data != [] {
        assert TrackedAt(were, textures, patches, k.texId);
        forall p | p in patches && p.id == k.texId && k.texId in textures
          ensures !Meets(TapPixels(UvExtent(k.data), textures[k.texId].w, textures[k.texId].h), p.area)
        {
          assert !KeyTouched(k, p, textures);
          var uv, w, h := UvExtent(k.data), textures[k.texId].w, textures[k.texId].h;
          if Meets(TapPixels(uv, w, h), p.area) { WithinMeets(TapPixels(uv, w, h), UvPixels(uv, w, h), p.area); }
        }
        UntouchedAlike(were, textures, patches, k);
      }
    }
  }

  /** The area plan_damage computes when the canvas is kept. */
  function DamageOf(f: Format, shown: Scene, s: Scene, textures: Textures, patches: seq<Patch>, w: nat, h: nat): Rect
  {
    Padded(UnionAll(Changed(AllMetas(f, shown, w, h), AllMetas(f, s, w, h), textures, patches)), w, h)
  }

  /** When damage tracking can tell what changed from the frame before: the common primitives keep
      their order, no two primitives are mistaken for each other, and no changed texel goes unseen. */
  ghost predicate Faithful(f: Format, shown: Scene, s: Scene, were: Textures, textures: Textures, patches: seq<Patch>)
    requires ValidTextures(were) && ValidTextures(textures)
  {
    && StableOrder(AllKeys(shown), AllKeys(s))
    && Unmistaken(f, AllKeys(shown), AllKeys(s))
    && Noticed(AllKeys(shown), AllKeys(s), were, textures, patches)
  }

  lemma OutsideIsUndamaged(f: Format, shown: Scene, s: Scene, were: Textures, textures: Textures, patches: seq<Patch>,
                           w: nat, h: nat, x: int, y: int)
    requires ValidTextures(were) && ValidTextures(textures) && Representable(f, shown) && Representable(f, s)
    requires Faithful(f, shown, s, were, textures, patches) && 0 <= x < w && 0 <= y < h
    requires !DamageOf(f, shown, s, textures, patches, w, h).Contains(x, y)
    ensures Undamaged(AllKeys(shown), AllKeys(s), were, textures, w, h, x, y)
  {
    var prev, meta := AllMetas(f, shown, w, h), AllMetas(f, s, w, h);
    var before, after := AllKeys(shown), AllKeys(s);
    var area := UnionAll(Changed(prev, meta, textures, patches));
    if area.Contains(x, y) { PaddedHolds(area, w, h, x, y); }
    forall k | k in before && k !in after
      ensures !KeyBbox(k, w, h).Contains(x, y)
    {
      RemovedUnhashed(f, shown, s, w, h, k);
      var i := MetaFor(f, shown, w, h, k);
      if prev[i].bbox.Contains(x, y) { RemovedShown(prev, meta, textures, patches, i, x, y); }
    }
    forall k | k in after && k !in before
      ensures !KeyBbox(k, w, h).Contains(x, y)
    {
      AddedUnhashed(f, shown, s, w, h, k);
      var i := MetaFor(f, s, w, h, k);
      if meta[i].bbox.Contains(x, y) { AddedShown(prev, meta, textures, patches, i, x, y); }
    }
    forall k | k in after && k in before
      ensures SamplesAlike(were, textures, k) || !KeyBbox(k, w, h).Contains(x, y)
    {
      if !SamplesAlike(were, textures, k) && KeyBbox(k, w, h).Contains(x, y) {
        FlaggedShown(f, prev, s, textures, patches, w, h, x, y, k);
      }
    }
  }

  lemma FlaggedShown(f: Format, prev: seq<Meta>, s: Scene, textures: Textures, patches: seq<Patch>, w: nat, h: nat, x: int, y: int, k: Key)
    requires k in AllKeys(s) && Flagged(k, textures, patches) && KeyBbox(k, w, h).Contains(x, y)
    ensures UnionAll(Changed(prev, AllMetas(f, s, w, h), textures, patches)).Contains(x, y)
  {
    var p :| p in patches && KeyTouched(k, p, textures);
    var l :| 0 <= l < |patches| && patches[l] == p;
    var i := MetaFor(f, s, w, h, k);
    PatchedShown(prev, AllMetas(f, s, w, h), textures, patches, l, i, x, y);
  }

  /** Outside the damage rectangle a full repaint of the new frame is what the old one left. */
  lemma DamageSuffices(f: Format, shown: Scene, s: Scene, were: Textures, textures: Textures, patches: seq<Patch>,
                       clear: Pixel, w: nat, h: nat, x: int, y: int)
    requires ValidTextures(were) && ValidTextures(textures) && Representable(f, shown) && Representable(f, s)
    requires Faithful(f, shown, s, were, textures, patches) && 0 <= x < w && 0 <= y < h
    requires !DamageOf(f, shown, s, textures, patches, w, h).Contains(x, y)
    ensures SceneAt(were, clear, shown, |shown.prims|, x, y) == SceneAt(textures, clear, s, |s.prims|, x, y)
  {
    OutsideIsUndamaged(f, shown, s, were, textures, patches, w, h, x, y);
    UndamagedPixel(were, textures, clear, shown, s, w, h, x, y);
  }

  method ComputeMetas(f: Format, s: Scene, w: nat, h: nat) returns (ms: seq<Meta>)
    ensures ms == AllMetas(f, s, w, h)
  {
    ms := [];
    var n := 0;
    while n < |s.prims|
      invariant n <= |s.prims| && ms == Metas(f, s, n, w, h)
    {
      var m := PrimMeta(f, s.prims[n], s.verts, s.idx, w, h);
      ms := ms + [m];
      n := n + 1;
    }
  }

  // ----- no more than that --------------------------------------------------------------------

  predicate Inside(a: Rect, r: Rect)
  {
    IsEmpty(a) || (r.x0 <= a.x0 && a.x1 <= r.x1 && r.y0 <= a.y0 && a.y1 <= r.y1)
  }

  lemma {:induction false} UnionInside(rs: seq<Rect>, r: Rect)
    requires forall i | 0 <= i < |rs| :: Inside(rs[i], r)
    ensures Inside(UnionAll(rs), r)
  {
    var n := |rs| - 1;
    if n >= 0 { UnionInside(rs[..n], r); }
  }

  lemma {:induction false} PickedInside(ms: seq<Meta>, n: nat, pick: Meta -> bool, r: Rect)
    requires n <= |ms| && forall i | 0 <= i < n && pick(ms[i]) :: Inside(ms[i].bbox, r)
    ensures forall i | 0 <= i < |Picked(ms, n, pick)| :: Inside(Picked(ms, n, pick)[i], r)
  {
    if n > 0 { PickedInside(ms, n - 1, pick, r); }
  }

  lemma {:induction false} StaleInside(ms: seq<Meta>, textures: Textures, patches: seq<Patch>, j: nat, r: Rect)
    requires j <= |patches|
    requires forall l, i | 0 <= l < j && 0 <= i < |ms| && Touches(ms[i], patches[l].id, patches[l].area, TextureOf(textures, patches[l].id)) ::
               Inside(ms[i].bbox, r)
    ensures forall i | 0 <= i < |StaleAll(ms, textures, patches, j)| :: Inside(StaleAll(ms, textures, patches, j)[i], r)
  {
    if j > 0 {
      StaleInside(ms, textures, patches, j - 1, r);
      var p := patches[j - 1];
      PickedInside(ms, |ms|, Sampling(p.id, p.area, TextureOf(textures, p.id)), r);
    }
  }

  lemma ChangedInside(prev: seq<Meta>, meta: seq<Meta>, textures: Textures, patches: seq<Patch>, r: Rect)
    requires forall m | m in prev && m.hash !in Hashes(meta) :: Inside(m.bbox, r)
    requires forall m | m in meta && m.hash !in Hashes(prev) :: Inside(m.bbox, r)
    requires forall m, p | m in meta && p in patches && Touches(m, p.id, p.area, TextureOf(textures, p.id)) :: Inside(m.bbox, r)
    ensures Inside(UnionAll(Changed(prev, meta, textures, patches)), r)
  {
    PickedInside(prev, |prev|, Missing(Hashes(meta)), r);
    PickedInside(meta, |meta|, Missing(Hashes(prev)), r);
    forall l, i | 0 <= l < |patches| && 0 <= i < |meta| && Touches(meta[i], patches[l].id, patches[l].area, TextureOf(textures, patches[l].id))
      ensures Inside(meta[i].bbox, r)
    {
      assert meta[i] in meta && patches[l] in patches;
    }
    StaleInside(meta, textures, patches, |patches|, r);
    UnionInside(Changed(prev, meta, textures, patches), r);
  }

  lemma PaddedNear(d: Rect, r: Rect, w: nat, h: nat, x: int, y: int)
    requires Inside(d, r) && Padded(d, w, h).Contains(x, y)
    ensures Rect(r.x0 - 1, r.y0 - 1, r.x1 + 1, r.y1 + 1).Contains(x, y)
  {
  }

  /** The damage is no larger than it must be: if everything removed, added or patched lies in some
      rectangle, so does the damage, but for one pixel of padding. */
  lemma DamageTight(f: Format, shown: Scene, s: Scene, textures: Textures, patches: seq<Patch>, w: nat, h: nat, r: Rect, x: int, y: int)
    requires var prev, meta := AllMetas(f, shown, w, h), AllMetas(f, s, w, h);
             && (forall m | m in prev && m.hash !in Hashes(meta) :: Inside(m.bbox, r))
             && (forall m | m in meta && m.hash !in Hashes(prev) :: Inside(m.bbox, r))
             && (forall m, p | m in meta && p in patches && Touches(m, p.id, p.area, TextureOf(textures, p.id)) :: Inside(m.bbox, r))
    requires DamageOf(f, shown, s, textures, patches, w, h).Contains(x, y)
    ensures Rect(r.x0 - 1, r.y0 - 1, r.x1 + 1, r.y1 + 1).Contains(x, y)
  {
    ChangedInside(AllMetas(f, shown, w, h), AllMetas(f, s, w, h), textures, patches, r);
    PaddedNear(UnionAll(Changed(AllMetas(f, shown, w, h), AllMetas(f, s, w, h), textures, patches)), r, w, h, x, y);
  }
}
