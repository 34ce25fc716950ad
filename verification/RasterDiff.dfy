/** What identifies a primitive from frame to frame, where it can draw, and why repainting only what
    changed is enough. */
module RasterDiff {
  import opened Common
  import opened RasterGeometry
  import opened RasterShade
  import opened RasterBand

  // ----- identity of a primitive --------------------------------------------------------------

  /** The vertices a mesh refers to, in index order; indices out of range are skipped. */
  function Data(verts: seq<Vertex>, slice: seq<nat>): seq<Vertex>
  {
    if slice == [] then []
    else (if slice[0] < |verts| then [verts[slice[0]]] else []) + Data(verts, slice[1..])
  }

  /** What a primitive consists of. */
  datatype Key = Key(clip: Clip, texId: nat, data: seq<Vertex>, indices: seq<nat>)

  function KeyOf(p: Prim, verts: seq<Vertex>, idx: seq<nat>): Key
  {
    Key(p.clip, p.texId, Data(verts, Slice(p, idx)), Slice(p, idx))
  }

  // ----- the words that are hashed ------------------------------------------------------------

  /** The machine's numbers: f32::to_bits and f32::from_bits.  A real is such a number if it survives
      the way there and back. */
  datatype Format = Format(toBits: real -> nat, fromBits: nat -> real)
  {
    predicate Holds(r: real) { fromBits(toBits(r)) == r }
    predicate HoldsVertex(v: Vertex) { Holds(v.x) && Holds(v.y) && Holds(v.u) && Holds(v.v) }
    predicate HoldsClip(c: Clip) { Holds(c.x0) && Holds(c.y0) && Holds(c.x1) && Holds(c.y1) }
    predicate HoldsKey(k: Key) { HoldsClip(k.clip) && forall i | 0 <= i < |k.data| :: HoldsVertex(k.data[i]) }
  }

  const WORD: nat := 0x1_0000_0000

  function ColorWord(c: Pixel): nat
  {
    c.r + 0x100 * (c.g + 0x100 * (c.b + 0x100 * c.a))
  }

  function VertexWords(f: Format, v: Vertex): seq<nat>
  {
    [f.toBits(v.x), f.toBits(v.y), f.toBits(v.u), f.toBits(v.v), ColorWord(v.color)]
  }

  function DataWords(f: Format, data: seq<Vertex>): seq<nat>
  {
    var n := |data| - 1;
    if n < 0 then [] else DataWords(f, data[..n]) + VertexWords(f, data[n])
  }

  function HeadWords(f: Format, c: Clip, texId: nat): seq<nat>
  {
    [f.toBits(c.x0), f.toBits(c.y0), f.toBits(c.x1), f.toBits(c.y1), texId % WORD, texId / WORD]
  }

  /** What prim_meta hashes, word after word.  Equal hashes are taken to mean equal words.  Nothing in
      the words tells where the vertices end and the indices begin. */
  function Stream(f: Format, k: Key): seq<nat>
  {
    HeadWords(f, k.clip, k.texId) + DataWords(f, k.data) + k.indices
  }

  lemma LowByte(a: int, b: int, c: int, d: int)
    requires 0 <= a <= 255 && 0 <= c <= 255 && a + 0x100 * b == c + 0x100 * d
    ensures a == c && b == d
  {
  }

  lemma ColorTold(c: Pixel, d: Pixel)
    requires ColorWord(c) == ColorWord(d)
    ensures c == d
  {
    LowByte(c.r, c.g + 0x100 * (c.b + 0x100 * c.a), d.r, d.g + 0x100 * (d.b + 0x100 * d.a));
    LowByte(c.g, c.b + 0x100 * c.a, d.g, d.b + 0x100 * d.a);
    LowByte(c.b, c.a, d.b, d.a);
  }

  lemma VertexTold(f: Format, v: Vertex, w: Vertex)
    requires f.HoldsVertex(v) && f.HoldsVertex(w) && VertexWords(f, v) == VertexWords(f, w)
    ensures v == w
  {
    var a, b := VertexWords(f, v), VertexWords(f, w);
    assert a[0] == b[0] && a[1] == b[1] && a[2] == b[2] && a[3] == b[3] && a[4] == b[4];
    ColorTold(v.color, w.color);
  }

  lemma HeadTold(f: Format, c: Clip, i: nat, d: Clip, j: nat)
    requires f.HoldsClip(c) && f.HoldsClip(d) && HeadWords(f, c, i) == HeadWords(f, d, j)
    ensures c == d && i == j
  {
    var a, b := HeadWords(f, c, i), HeadWords(f, d, j);
    assert a[0] == b[0] && a[1] == b[1] && a[2] == b[2] && a[3] == b[3] && a[4] == b[4] && a[5] == b[5];
  }

  lemma {:induction false} DataLength(f: Format, data: seq<Vertex>)
    ensures |DataWords(f, data)| == 5 * |data|
  {
    if data != [] { DataLength(f, data[..|data| - 1]); }
  }

  lemma SplitAt(a: seq<nat>, b: seq<nat>, c: seq<nat>, d: seq<nat>)
    requires |a| == |c| && a + b == c + d
    ensures a == c && b == d
  {
    assert a == (a + b)[..|a|] && c == (c + d)[..|c|];
    assert b == (a + b)[|a|..] && d == (c + d)[|c|..];
  }

  lemma {:induction false} DataTold(f: Format, v: seq<Vertex>, w: seq<Vertex>)
    requires |v| == |w| && DataWords(f, v) == DataWords(f, w)
    requires forall i | 0 <= i < |v| :: f.HoldsVertex(v[i]) && f.HoldsVertex(w[i])
    ensures v == w
  {
    var n := |v| - 1;
    if n >= 0 {
      DataLength(f, v[..n]);
      DataLength(f, w[..n]);
      SplitAt(DataWords(f, v[..n]), VertexWords(f, v[n]), DataWords(f, w[..n]), VertexWords(f, w[n]));
      VertexTold(f, v[n], w[n]);
      DataTold(f, v[..n], w[..n]);
      assert v == v[..n] + [v[n]] && w == w[..n] + [w[n]];
    }
  }

  /** Primitives that hash the same words are the same exactly if they have as many indices in range. */
  lemma SameWordsIff(f: Format, k: Key, k': Key)
    requires f.HoldsKey(k) && f.HoldsKey(k') && Stream(f, k) == Stream(f, k')
    ensures k == k' <==> |k.data| == |k'.data|
  {
    var head, head' := HeadWords(f, k.clip, k.texId), HeadWords(f, k'.clip, k'.texId);
    var rest, rest' := DataWords(f, k.data) + k.indices, DataWords(f, k'.data) + k'.indices;
    assert Stream(f, k) == head + rest && Stream(f, k') == head' + rest';
    SplitAt(head, rest, head', rest');
    HeadTold(f, k.clip, k.texId, k'.clip, k'.texId);
    if |k.data| == |k'.data| {
      DataLength(f, k.data);
      DataLength(f, k'.data);
      SplitAt(DataWords(f, k.data), k.indices, DataWords(f, k'.data), k'.indices);
      DataTold(f, k.data, k'.data);
    }
  }

  /** No index of the primitive was skipped. */
  predicate NoneSkipped(k: Key)
  {
    |k.data| == |k.indices|
  }

  predicate AllInRange(verts: seq<Vertex>, slice: seq<nat>)
  {
    forall i | 0 <= i < |slice| :: slice[i] < |verts|
  }

  lemma {:induction false} NoneSkippedIff(verts: seq<Vertex>, slice: seq<nat>)
    ensures |Data(verts, slice)| <= |slice|
    ensures |Data(verts, slice)| == |slice| <==> AllInRange(verts, slice)
  {
    if slice != [] {
      var rest := slice[1..];
      NoneSkippedIff(verts, rest);
      assert |Data(verts, slice)| == |Data(verts, rest)| + if slice[0] < |verts| then 1 else 0;
      assert forall i | 1 <= i < |slice| :: slice[i] == rest[i - 1];
      assert forall i | 0 <= i < |rest| :: rest[i] == slice[i + 1];
    }
  }

  /** Six words for each index, so that the words tell how many there are. */
  lemma InRangeTold(f: Format, k: Key, k': Key)
    requires NoneSkipped(k) && NoneSkipped(k') && Stream(f, k) == Stream(f, k')
    ensures |k.data| == |k'.data|
  {
    DataLength(f, k.data);
    DataLength(f, k'.data);
    assert |Stream(f, k)| == 6 + 6 * |k.data| && |Stream(f, k')| == 6 + 6 * |k'.data|;
  }

  // ----- same contents, same drawing ----------------------------------------------------------

  lemma {:induction false} FewerVertices(v: seq<Vertex>, w: seq<Vertex>, slice: seq<nat>)
    requires |v| <= |w|
    ensures |Data(v, slice)| <= |Data(w, slice)|
  {
    if slice != [] { FewerVertices(v, w, slice[1..]); }
  }

  /** Position k of the slice refers to the same vertex in both arrays, or to none in both. */
  predicate SameAt(v: seq<Vertex>, w: seq<Vertex>, slice: seq<nat>, k: int)
    requires 0 <= k < |slice|
  {
    (slice[k] < |v| <==> slice[k] < |w|) && (slice[k] < |v| && slice[k] < |w| ==> v[slice[k]] == w[slice[k]])
  }

  /** The skipped positions are not part of the hash, but they follow from it: with more vertices
      never fewer positions are in range. */
  lemma {:induction false} DataAligns(v: seq<Vertex>, w: seq<Vertex>, slice: seq<nat>)
    requires |v| <= |w| && Data(v, slice) == Data(w, slice)
    ensures forall k | 0 <= k < |slice| :: SameAt(v, w, slice, k)
  {
    if slice != [] {
      FewerVertices(v, w, slice[1..]);
      var i := slice[0];
      if i < |v| {
        assert Data(v, slice)[0] == v[i] && Data(w, slice)[0] == w[i];
        assert Data(v, slice[1..]) == Data(v, slice)[1..] == Data(w, slice)[1..] == Data(w, slice[1..]);
      } else {
        assert Data(v, slice) == Data(v, slice[1..]);
        assert |Data(w, slice)| == |Data(w, slice[1..])| + if i < |w| then 1 else 0;
        assert Data(w, slice) == Data(w, slice[1..]);
      }
      DataAligns(v, w, slice[1..]);
      forall k | 0 <= k < |slice|
        ensures SameAt(v, w, slice, k)
      {
        if k > 0 { assert SameAt(v, w, slice[1..], k - 1); }
      }
    }
  }

  lemma DataAlignsEither(v: seq<Vertex>, w: seq<Vertex>, slice: seq<nat>)
    requires Data(v, slice) == Data(w, slice)
    ensures forall k | 0 <= k < |slice| :: SameAt(v, w, slice, k)
  {
    if |v| <= |w| {
      DataAligns(v, w, slice);
    } else {
      DataAligns(w, v, slice);
      forall k | 0 <= k < |slice|
        ensures SameAt(v, w, slice, k)
      {
        assert SameAt(w, v, slice, k);
      }
    }
  }

  lemma {:induction false} MeshDetermined(tex: Option<Atlas>, v: seq<Vertex>, w: seq<Vertex>, slice: seq<nat>, n: nat, x: int, y: int, d: Pixel)
    requires ValidTexture(tex) && 3 * n <= |slice|
    requires forall k | 0 <= k < |slice| :: SameAt(v, w, slice, k)
    ensures MeshAt(tex, v, slice, n, x, y, d) == MeshAt(tex, w, slice, n, x, y, d)
  {
    if n > 0 {
      MeshDetermined(tex, v, w, slice, n - 1, x, y, d);
      assert SameAt(v, w, slice, 3 * (n - 1)) && SameAt(v, w, slice, 3 * (n - 1) + 1) && SameAt(v, w, slice, 3 * (n - 1) + 2);
      assert TriangleAt(v, slice, n - 1) == TriangleAt(w, slice, n - 1);
    }
  }

  /** Primitives with the same contents draw the same pixels. */
  lemma KeyDetermines(textures: Textures, p: Prim, v: seq<Vertex>, i: seq<nat>, q: Prim, w: seq<Vertex>, j: seq<nat>, x: int, y: int, d: Pixel)
    requires ValidTextures(textures) && KeyOf(p, v, i) == KeyOf(q, w, j)
    ensures PrimAt(textures, p, v, i, x, y, d) == PrimAt(textures, q, w, j, x, y, d)
  {
    DataAlignsEither(v, w, Slice(p, i));
    MeshDetermined(TextureOf(textures, p.texId), v, w, Slice(p, i), |Slice(p, i)| / 3, x, y, d);
  }

  /** Primitives that hash the same words draw the same pixels if all their indices are in range, or
      at least as many of one as of the other. */
  lemma WordsDetermine(f: Format, textures: Textures, p: Prim, v: seq<Vertex>, i: seq<nat>, q: Prim, w: seq<Vertex>, j: seq<nat>,
                       x: int, y: int, d: Pixel)
    requires ValidTextures(textures) && f.HoldsKey(KeyOf(p, v, i)) && f.HoldsKey(KeyOf(q, w, j))
    requires Stream(f, KeyOf(p, v, i)) == Stream(f, KeyOf(q, w, j))
    requires var k, k' := KeyOf(p, v, i), KeyOf(q, w, j); (NoneSkipped(k) && NoneSkipped(k')) || |k.data| == |k'.data|
    ensures PrimAt(textures, p, v, i, x, y, d) == PrimAt(textures, q, w, j, x, y, d)
  {
    var k, k' := KeyOf(p, v, i), KeyOf(q, w, j);
    if NoneSkipped(k) && NoneSkipped(k') { InRangeTold(f, k, k'); }
    SameWordsIff(f, k, k');
    KeyDetermines(textures, p, v, i, q, w, j, x, y, d);
  }

  // ----- the bounding box ---------------------------------------------------------------------

  datatype Bounds = Bounds(x0: real, y0: real, x1: real, y1: real)

  function Lesser(a: real, b: real): real { if a < b then a else b }
  function Greater(a: real, b: real): real { if a > b then a else b }

  /** Extent of the positions of some vertices. */
  function Extent(data: seq<Vertex>): Bounds
    requires data != []
  {
    var n := |data| - 1;
    var v := data[n];
    if n == 0 then Bounds(v.x, v.y, v.x, v.y)
    else
      var b := Extent(data[..n]);
      Bounds(Lesser(b.x0, v.x), Lesser(b.y0, v.y), Greater(b.x1, v.x), Greater(b.y1, v.y))
  }

  /** Extent of their texture coordinates. */
  function UvExtent(data: seq<Vertex>): Bounds
    requires data != []
  {
    var n := |data| - 1;
    var v := data[n];
    if n == 0 then Bounds(v.u, v.v, v.u, v.v)
    else
      var b := UvExtent(data[..n]);
      Bounds(Lesser(b.x0, v.u), Lesser(b.y0, v.v), Greater(b.x1, v.u), Greater(b.y1, v.v))
  }

  lemma {:induction false} ExtentHolds(data: seq<Vertex>, k: nat)
    requires k < |data|
    ensures Extent(data).x0 <= data[k].x <= Extent(data).x1 && Extent(data).y0 <= data[k].y <= Extent(data).y1
    ensures UvExtent(data).x0 <= data[k].u <= UvExtent(data).x1 && UvExtent(data).y0 <= data[k].v <= UvExtent(data).y1
  {
    var n := |data| - 1;
    if k < n { ExtentHolds(data[..n], k); }
  }

  const EMPTY: Rect := Rect(0, 0, 0, 0)

  function Clamped(r: Rect, w: nat, h: nat): Rect
  {
    Rect(Clamp(r.x0, 0, w), Clamp(r.y0, 0, h), Clamp(r.x1, 0, w), Clamp(r.y1, 0, h))
  }

  /** Vertex extent within the clip, in whole pixels, on the screen. */
  function Bbox(clip: Clip, data: seq<Vertex>, w: nat, h: nat): Rect
  {
    if data == [] then EMPTY
    else
      var e := Extent(data);
      var r := Rect(Floor(Greater(e.x0, clip.x0)), Floor(Greater(e.y0, clip.y0)),
                    Ceil(Lesser(e.x1, clip.x1)), Ceil(Lesser(e.y1, clip.y1)));
      if r.x0 >= r.x1 || r.y0 >= r.y1 then EMPTY else Clamped(r, w, h)
  }

  lemma {:induction false} IndexInData(verts: seq<Vertex>, slice: seq<nat>, k: nat) returns (j: nat)
    requires k < |slice| && slice[k] < |verts|
    ensures j < |Data(verts, slice)| && Data(verts, slice)[j] == verts[slice[k]]
  {
    if k == 0 {
      j := 0;
    } else {
      var i := IndexInData(verts, slice[1..], k - 1);
      j := if slice[0] < |verts| then i + 1 else i;
    }
  }

  lemma FloorOfGreater(a: real, b: real, x: int)
    requires Floor(a) <= x && Floor(b) <= x
    ensures Floor(Greater(a, b)) <= x
  {
  }

  lemma CeilOfLesser(a: real, b: real, x: int)
    requires x < Ceil(a) && x < Ceil(b)
    ensures x < Ceil(Lesser(a, b))
  {
  }

  lemma FloorMonotone(a: real, b: real)
    requires a <= b
    ensures Floor(a) <= Floor(b) && Ceil(a) <= Ceil(b)
  {
  }

  /** x in [floor(lo), ceil(hi)). */
  predicate Spans(lo: real, hi: real, x: int)
  {
    Floor(lo) <= x < Ceil(hi)
  }

  lemma SpansWider(lo: real, hi: real, a: real, b: real, c: real, x: int)
    requires lo <= a <= hi && lo <= b <= hi && lo <= c <= hi && Spans(Min3(a, b, c), Max3(a, b, c), x)
    ensures Spans(lo, hi, x)
  {
    FloorMonotone(lo, Min3(a, b, c));
    FloorMonotone(Max3(a, b, c), hi);
  }

  lemma VertexInExtent(verts: seq<Vertex>, slice: seq<nat>, k: nat)
    requires k < |slice| && slice[k] < |verts|
    ensures var d := Data(verts, slice);
            && d != []
            && Extent(d).x0 <= verts[slice[k]].x <= Extent(d).x1 && Extent(d).y0 <= verts[slice[k]].y <= Extent(d).y1
            && UvExtent(d).x0 <= verts[slice[k]].u <= UvExtent(d).x1 && UvExtent(d).y0 <= verts[slice[k]].v <= UvExtent(d).y1
  {
    var j := IndexInData(verts, slice, k);
    ExtentHolds(Data(verts, slice), j);
  }

  /** A pixel some triangle of the mesh covers lies in the mesh's extent. */
  lemma CoveredInExtent(verts: seq<Vertex>, slice: seq<nat>, k: nat, x: int, y: int)
    requires 3 * k + 3 <= |slice| && TriangleAt(verts, slice, k).Some?
    requires var t := TriangleAt(verts, slice, k).value; Covers(t.v0.At(), t.v1.At(), t.v2.At(), Center(x, y))
    ensures var d := Data(verts, slice);
            d != [] && Spans(Extent(d).x0, Extent(d).x1, x) && Spans(Extent(d).y0, Extent(d).y1, y)
  {
    var t := TriangleAt(verts, slice, k).value;
    VertexInExtent(verts, slice, 3 * k);
    VertexInExtent(verts, slice, 3 * k + 1);
    VertexInExtent(verts, slice, 3 * k + 2);
    CoveredInPixelBox(t.v0.At(), t.v1.At(), t.v2.At(), x, y);
    var e := Extent(Data(verts, slice));
    SpansWider(e.x0, e.x1, t.v0.x, t.v1.x, t.v2.x, x);
    SpansWider(e.y0, e.y1, t.v0.y, t.v1.y, t.v2.y, y);
  }

  lemma BboxHolds(clip: Clip, data: seq<Vertex>, w: nat, h: nat, x: int, y: int)
    requires data != [] && 0 <= x < w && 0 <= y < h && clip.Pixels().Contains(x, y)
    requires Spans(Extent(data).x0, Extent(data).x1, x) && Spans(Extent(data).y0, Extent(data).y1, y)
    ensures Bbox(clip, data, w, h).Contains(x, y)
  {
    var e := Extent(data);
    FloorOfGreater(e.x0, clip.x0, x);
    FloorOfGreater(e.y0, clip.y0, y);
    CeilOfLesser(e.x1, clip.x1, x);
    CeilOfLesser(e.y1, clip.y1, y);
  }

  lemma {:induction false} MeshOutside(tex: Option<Atlas>, verts: seq<Vertex>, slice: seq<nat>, n: nat, clip: Clip, w: nat, h: nat, x: int, y: int, d: Pixel)
    requires ValidTexture(tex) && 3 * n <= |slice| && 0 <= x < w && 0 <= y < h && clip.Pixels().Contains(x, y)
    requires !Bbox(clip, Data(verts, slice), w, h).Contains(x, y)
    ensures MeshAt(tex, verts, slice, n, x, y, d) == d
  {
    if n > 0 {
      MeshOutside(tex, verts, slice, n - 1, clip, w, h, x, y, d);
      var t := TriangleAt(verts, slice, n - 1);
      if t.Some? {
        if Covers(t.value.v0.At(), t.value.v1.At(), t.value.v2.At(), Center(x, y)) {
          CoveredInExtent(verts, slice, n - 1, x, y);
          BboxHolds(clip, Data(verts, slice), w, h, x, y);
        } else {
          DrawsWhereCovered(tex, t.value, x, y, d);
        }
      }
    }
  }

  /** Some vertex lies at each side of the extent. */
  lemma {:induction false} ExtentReached(data: seq<Vertex>)
    requires data != []
    ensures var e := Extent(data);
            && (exists v :: v in data && v.x == e.x0) && (exists v :: v in data && v.x == e.x1)
            && (exists v :: v in data && v.y == e.y0) && (exists v :: v in data && v.y == e.y1)
  {
    var n := |data| - 1;
    assert data[n] in data;
    if n > 0 {
      ExtentReached(data[..n]);
      assert forall v :: v in data[..n] ==> v in data;
    }
  }

  /** The box is no larger than the primitive: each of its pixels is on the screen, in the clip, and
      between the vertices in both directions. */
  lemma BboxTight(clip: Clip, data: seq<Vertex>, w: nat, h: nat, x: int, y: int)
    requires Bbox(clip, data, w, h).Contains(x, y)
    ensures 0 <= x < w && 0 <= y < h && clip.Pixels().Contains(x, y)
    ensures (exists v :: v in data && Floor(v.x) <= x) && (exists v :: v in data && x < Ceil(v.x))
    ensures (exists v :: v in data && Floor(v.y) <= y) && (exists v :: v in data && y < Ceil(v.y))
  {
    ExtentReached(data);
    var e := Extent(data);
    FloorMonotone(e.x0, Greater(e.x0, clip.x0));
    FloorMonotone(clip.x0, Greater(e.x0, clip.x0));
    FloorMonotone(e.y0, Greater(e.y0, clip.y0));
    FloorMonotone(clip.y0, Greater(e.y0, clip.y0));
    FloorMonotone(Lesser(e.x1, clip.x1), e.x1);
    FloorMonotone(Lesser(e.x1, clip.x1), clip.x1);
    FloorMonotone(Lesser(e.y1, clip.y1), e.y1);
    FloorMonotone(Lesser(e.y1, clip.y1), clip.y1);
  }

  /** A primitive draws nothing outside its bounding box. */
  lemma InvisibleOutside(textures: Textures, p: Prim, verts: seq<Vertex>, idx: seq<nat>, w: nat, h: nat, x: int, y: int, d: Pixel)
    requires ValidTextures(textures) && 0 <= x < w && 0 <= y < h
    requires !Bbox(p.clip, Data(verts, Slice(p, idx)), w, h).Contains(x, y)
    ensures PrimAt(textures, p, verts, idx, x, y, d) == d
  {
    if p.clip.Pixels().Contains(x, y) {
      MeshOutside(TextureOf(textures, p.texId), verts, Slice(p, idx), |Slice(p, idx)| / 3, p.clip, w, h, x, y, d);
    }
  }

  // ----- layers seen through one pixel --------------------------------------------------------

  /** What layers painted in order make of a first colour, whatever stands for colours. */
  function Painted<K, C>(paint: (K, C) -> C, layers: seq<K>, d: C): C
  {
    var n := |layers| - 1;
    if n < 0 then d else paint(layers[n], Painted(paint, layers[..n], d))
  }

  function Kept<K>(layers: seq<K>, keep: K -> bool): seq<K>
  {
    var n := |layers| - 1;
    if n < 0 then [] else Kept(layers[..n], keep) + if keep(layers[n]) then [layers[n]] else []
  }

  /** Layers that do not show at this pixel can be left out. */
  lemma {:induction false} InvisibleLayers<K(!new), C(!new)>(paint: (K, C) -> C, layers: seq<K>, keep: K -> bool, d: C)
    requires forall k, c :: k in layers && !keep(k) ==> paint(k, c) == c
    ensures Painted(paint, layers, d) == Painted(paint, Kept(layers, keep), d)
  {
    var n := |layers| - 1;
    if n >= 0 {
      InvisibleLayers(paint, layers[..n], keep, d);
      var rest := Kept(layers[..n], keep);
      if keep(layers[n]) {
        assert (rest + [layers[n]])[..|rest|] == rest;
      } else {
        assert rest + [] == rest;
      }
    }
  }

  lemma {:induction false} KeptFrom<K>(layers: seq<K>, keep: K -> bool, k: K)
    ensures k in Kept(layers, keep) <==> k in layers && keep(k)
  {
    var n := |layers| - 1;
    if n >= 0 {
      KeptFrom(layers[..n], keep, k);
      assert layers == layers[..n] + [layers[n]];
    }
  }

  /** Two ways of painting that agree on every layer agree on the pixel. */
  lemma {:induction false} SamePaint<K(!new), C(!new)>(paint: (K, C) -> C, paint': (K, C) -> C, layers: seq<K>, d: C)
    requires forall k, c :: k in layers ==> paint(k, c) == paint'(k, c)
    ensures Painted(paint, layers, d) == Painted(paint', layers, d)
  {
    var n := |layers| - 1;
    if n >= 0 {
      SamePaint(paint, paint', layers[..n], d);
      assert layers[n] in layers;
    }
  }

  /** The layers both frames have come in the same order (and as often) in both. */
  ghost predicate StableOrder<K(!new)>(before: seq<K>, after: seq<K>)
  {
    Kept(before, k => k in after) == Kept(after, k => k in before)
  }

  /** Where only layers common to both frames show, and those paint alike, both frames look alike. */
  lemma UnchangedPixel<K(!new), C(!new)>(paint: (K, C) -> C, paint': (K, C) -> C, before: seq<K>, after: seq<K>, d: C)
    requires StableOrder(before, after)
    requires forall k, c :: k in before && k !in after ==> paint(k, c) == c
    requires forall k, c :: k in after && k !in before ==> paint'(k, c) == c
    requires forall k, c :: k in before && k in after ==> paint(k, c) == paint'(k, c)
    ensures Painted(paint, before, d) == Painted(paint', after, d)
  {
    var keepOld, keepNew := (k: K) => k in after, (k: K) => k in before;
    InvisibleLayers(paint, before, keepOld, d);
    InvisibleLayers(paint', after, keepNew, d);
    var common := Kept(before, keepOld);
    assert common == Kept(after, keepNew);
    forall k, c | k in common
      ensures paint(k, c) == paint'(k, c)
    {
      KeptFrom(before, keepOld, k);
    }
    SamePaint(paint, paint', common, d);
  }

  // ----- the order of the common layers is exactly what matters -------------------------------

  /** Only layers of both frames show. */
  ghost predicate HidesOthers<K(!new), C(!new)>(paint: (K, C) -> C, before: seq<K>, after: seq<K>)
  {
    forall k, c :: !(k in before && k in after) ==> paint(k, c) == c
  }

  /** Every way of painting that shows only common layers makes both frames look alike.  Colours are
      lists of layers: enough to tell any two orders apart. */
  ghost predicate LooksAlike<K(!new)>(before: seq<K>, after: seq<K>)
  {
    forall paint: (K, seq<K>) -> seq<K>, d: seq<K> ::
      HidesOthers(paint, before, after) ==> Painted(paint, before, d) == Painted(paint, after, d)
  }

  /** Painting that records what it paints, if kept. */
  ghost function Recorder<K>(keep: K -> bool): (K, seq<K>) -> seq<K>
  {
    (k: K, c: seq<K>) => if keep(k) then c + [k] else c
  }

  /** What is recorded is what is kept, by any other name. */
  lemma {:induction false} Recorded<K(!new)>(layers: seq<K>, keep: K -> bool, keep': K -> bool)
    requires forall k | k in layers :: keep(k) == keep'(k)
    ensures Painted(Recorder(keep), layers, []) == Kept(layers, keep')
  {
    var n := |layers| - 1;
    if n >= 0 {
      Recorded(layers[..n], keep, keep');
      assert layers[n] in layers;
    }
  }

  /** Looking only at which layers are in both frames suffices exactly when these keep their order. */
  lemma StableOrderIff<K(!new)>(before: seq<K>, after: seq<K>)
    ensures StableOrder(before, after) <==> LooksAlike(before, after)
  {
    if StableOrder(before, after) {
      forall paint: (K, seq<K>) -> seq<K>, d: seq<K> | HidesOthers(paint, before, after)
        ensures Painted(paint, before, d) == Painted(paint, after, d)
      {
        UnchangedPixel(paint, paint, before, after, d);
      }
    }
    if LooksAlike(before, after) {
      var common := (k: K) => k in before && k in after;
      assert HidesOthers(Recorder(common), before, after);
      Recorded(before, common, k => k in after);
      Recorded(after, common, k => k in before);
    }
  }
}
