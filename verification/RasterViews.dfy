/** The renderer seen from outside, call by call. */
module RasterViews {
  import opened Common
  import opened RasterShade
  import opened RasterBand
  import opened RasterDiff
  import opened RasterDamage
  import opened RasterPatches

  const NO_SCENE: Scene := Scene([], [], [])

  /** The damage of a frame, or none when nothing changed. */
  function Planned(f: Format, realloc: bool, shown: Scene, s: Scene, textures: Textures, patches: seq<Patch>, w: nat, h: nat): Option<Rect>
  {
    var d := if realloc then Rect(0, 0, w, h) else DamageOf(f, shown, s, textures, patches, w, h);
    if IsEmpty(d) then None else Some(d)
  }

  lemma OnScreen(f: Format, realloc: bool, shown: Scene, s: Scene, textures: Textures, patches: seq<Patch>, w: nat, h: nat)
    ensures var r := Planned(f, realloc, shown, s, textures, patches, w, h);
            && (r.Some? ==> 0 <= r.value.x0 && r.value.x1 <= w && 0 <= r.value.y0 && r.value.y1 <= h)
            && (!realloc ==> forall x, y :: (r.Some? && r.value.Contains(x, y)) <==> DamageOf(f, shown, s, textures, patches, w, h).Contains(x, y))
            && (realloc && w >= 1 && h >= 1 ==> r == Some(Rect(0, 0, w, h)))
  {
    var d := UnionAll(Changed(AllMetas(f, shown, w, h), AllMetas(f, s, w, h), textures, patches));
    assert IsEmpty(Padded(d, w, h)) || (0 <= Padded(d, w, h).x0 && Padded(d, w, h).x1 <= w);
  }

  /** The renderer between calls: canvas size and contents, clear colour, the scene of the last frame
      with its textures, the textures now, and the patches on record. */
  datatype View = View(f: Format, w: nat, h: nat, clear: Pixel, shown: Scene, were: Textures, now: Textures, patches: seq<Patch>, pic: Picture)
  {
    ghost predicate Valid()
    {
      ValidTextures(were) && ValidTextures(now) && Tracked(were, now, patches) && Representable(f, shown)
    }

    /** The canvas is, pixel for pixel, a full repaint of the last scene. */
    ghost predicate Exact()
      requires Valid()
    {
      forall x, y | 0 <= x < w && 0 <= y < h :: pic(x, y) == SceneAt(were, clear, shown, |shown.prims|, x, y)
    }

    /** Whether a frame of this size needs a new canvas. */
    predicate Resized(w': nat, h': nat)
    {
      w != w' || h != h' || w == 0 || h == 0
    }
  }

  datatype Call =
    | Frame(s: Scene, width: nat, height: nat)
    | Recolour(c: Pixel)
    | Retexture(id: nat, pos: Option<(nat, nat)>, w: nat, h: nat, px: seq<Pixel>)

  ghost predicate Start(v: View)
  {
    v.w == 0 && v.h == 0 && v.shown == NO_SCENE && v.were == v.now == map[] && v.patches == []
  }

  /** What a call makes of a valid state. */
  ghost predicate Next(v: View, c: Call, v': View)
    requires v.Valid()
  {
    match c
    case Frame(s, width, height) => Framed(v, s, Max(width, 1), Max(height, 1), v')
    case Recolour(clear) => v' == View(v.f, 0, 0, clear, NO_SCENE, v.now, v.now, [], v'.pic)
    case Retexture(id, pos, w, h, px) =>
      && v' == v.(now := v'.now, patches := v'.patches)
      && Retextured(v.now, v.patches, id, pos, w, h, px, v'.now, v'.patches)
  }

  ghost predicate Framed(v: View, s: Scene, w: nat, h: nat, v': View)
    requires v.Valid()
  {
    && Representable(v.f, s)
    && v' == View(v.f, w, h, v.clear, s, v.now, v.now, [], v'.pic)
    && Repainted(v.pic, Planned(v.f, v.Resized(w, h), v.shown, s, v.now, v.patches, w, h), v.now, v.clear, s, w, h, v'.pic)
  }

  /** Damaged pixels are those of a full repaint; the others are as before. */
  ghost predicate Repainted(before: Picture, damage: Option<Rect>, textures: Textures, clear: Pixel, s: Scene, w: nat, h: nat, after: Picture)
    requires ValidTextures(textures)
  {
    forall x, y | 0 <= x < w && 0 <= y < h ::
      after(x, y) == if damage.Some? && damage.value.Contains(x, y) then SceneAt(textures, clear, s, |s.prims|, x, y) else before(x, y)
  }

  lemma StartExact(v: View)
    requires Start(v)
    ensures v.Valid() && v.Exact()
  {
    TrackedWhenSame(map[]);
  }

  lemma NextValid(v: View, c: Call, v': View)
    requires v.Valid() && Next(v, c, v')
    ensures v'.Valid()
  {
    match c
    case Frame(_, _, _) => TrackedWhenSame(v.now);
    case Recolour(_) => TrackedWhenSame(v.now);
    case Retexture(id, pos, w, h, px) => RetexturedTracked(v.were, v.now, v.patches, id, pos, w, h, px, v'.now, v'.patches);
  }

  /** A frame drawn onto a kept canvas is one that damage tracking can tell from the last. */
  ghost predicate FrameFaithful(v: View, c: Call)
    requires v.Valid()
  {
    c.Frame? && !v.Resized(Max(c.width, 1), Max(c.height, 1)) ==> Faithful(v.f, v.shown, c.s, v.were, v.now, v.patches)
  }

  lemma UnchangedOutside(v: View, s: Scene)
    requires v.Valid() && Representable(v.f, s) && Faithful(v.f, v.shown, s, v.were, v.now, v.patches)
    ensures forall x, y | 0 <= x < v.w && 0 <= y < v.h && !DamageOf(v.f, v.shown, s, v.now, v.patches, v.w, v.h).Contains(x, y) ::
              SceneAt(v.were, v.clear, v.shown, |v.shown.prims|, x, y) == SceneAt(v.now, v.clear, s, |s.prims|, x, y)
  {
    forall x, y | 0 <= x < v.w && 0 <= y < v.h && !DamageOf(v.f, v.shown, s, v.now, v.patches, v.w, v.h).Contains(x, y)
      ensures SceneAt(v.were, v.clear, v.shown, |v.shown.prims|, x, y) == SceneAt(v.now, v.clear, s, |s.prims|, x, y)
    {
      DamageSuffices(v.f, v.shown, s, v.were, v.now, v.patches, v.clear, v.w, v.h, x, y);
    }
  }

  /** A frame on a new canvas is exact; so is a faithful one on an exact canvas. */
  lemma FrameExact(v: View, c: Call, v': View)
    requires v.Valid() && v'.Valid() && c.Frame? && Next(v, c, v')
    ensures v.Resized(Max(c.width, 1), Max(c.height, 1)) || (v.Exact() && FrameFaithful(v, c)) ==> v'.Exact()
  {
    var w, h := Max(c.width, 1), Max(c.height, 1);
    OnScreen(v.f, v.Resized(w, h), v.shown, c.s, v.now, v.patches, w, h);
    if !v.Resized(w, h) && v.Exact() && FrameFaithful(v, c) { UnchangedOutside(v, c.s); }
  }

  lemma NextExact(v: View, c: Call, v': View)
    requires v.Valid() && v'.Valid() && v.Exact() && Next(v, c, v') && FrameFaithful(v, c)
    ensures v'.Exact()
  {
    if c.Frame? { FrameExact(v, c, v'); }
  }
}
