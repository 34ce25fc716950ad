/** The renderer: textures, a persistent canvas, and frames that repaint only their damage. */
module RasterRender {
  import opened Common
  import opened RasterShade
  import opened RasterBand
  import opened RasterDiff
  import opened RasterDamage
  import opened RasterPatches
  import opened RasterViews

  /** The damage rectangle: everything on a new canvas, otherwise what the diffs found, padded. */
  method ComputeDamage(f: Format, realloc: bool, prev: seq<Meta>, s: Scene, textures: Textures, patches: seq<Patch>, w: nat, h: nat,
                       ghost shown: Scene)
    returns (meta: seq<Meta>, r: Option<Rect>)
    requires !realloc ==> prev == AllMetas(f, shown, w, h)
    ensures meta == AllMetas(f, s, w, h) && r == Planned(f, realloc, shown, s, textures, patches, w, h)
  {
    meta := ComputeMetas(f, s, w, h);
    var damage := Rect(0, 0, w, h);
    if !realloc {
      var changed := Diff(prev, meta, textures, patches);
      damage := Padded(changed, w, h);
    }
    r := if IsEmpty(damage) then None else Some(damage);
  }

  class Raster {
    const f: Format
    var textures: Textures
    var canvas: array2<Pixel>
    var cw: nat
    var ch: nat
    var prev: seq<Meta>
    var clear: Pixel
    var texDirty: seq<Patch>

    ghost var shown: Scene             // the scene of the last frame
    ghost var shownTextures: Textures  // its textures

    ghost predicate Valid()
      reads this
    {
      && ValidTextures(textures) && ValidTextures(shownTextures)
      && Tracked(shownTextures, textures, texDirty) && Representable(f, shown)
      && canvas.Length0 == ch && canvas.Length1 == cw
      && prev == AllMetas(f, shown, cw, ch)
    }

    ghost function View(): View
      reads this, canvas
    {
      RasterViews.View(f, cw, ch, clear, shown, shownTextures, textures, texDirty, PictureOf(Contents(canvas)))
    }

    constructor (f: Format, clear: Pixel)
      ensures Valid() && Start(View()) && this.f == f && this.clear == clear && fresh(canvas)
    {
      this.f := f;
      this.textures := map[];
      this.canvas := new Pixel[0, 0];
      this.cw := 0;
      this.ch := 0;
      this.prev := [];
      this.clear := clear;
      this.texDirty := [];
      this.shown := NO_SCENE;
      this.shownTextures := map[];
      new;
      TrackedWhenSame(map[]);
    }

    method SetTexture(id: nat, pos: Option<(nat, nat)>, w: nat, h: nat, px: seq<Pixel>)
      requires Valid()
      modifies this`textures, this`texDirty
      ensures Valid() && Next(old(View()), Retexture(id, pos, w, h, px), View())
    {
      ghost var before := View();
      Upload(id, pos, w, h, px);
      RetexturedTracked(before.were, before.now, before.patches, id, pos, w, h, px, textures, texDirty);
    }

    method Upload(id: nat, pos: Option<(nat, nat)>, w: nat, h: nat, px: seq<Pixel>)
      requires ValidTextures(textures)
      modifies this`textures, this`texDirty
      ensures Retextured(old(textures), old(texDirty), id, pos, w, h, px, textures, texDirty)
    {
      if w == 0 || h == 0 || |px| < w * h { return; }
      if pos.Some? {
        if id !in textures { return; }
        var (ox, oy) := pos.value;
        var atlas := textures[id];
        if ox + w > atlas.w || oy + h > atlas.h { return; }
        var patched := CopyPatch(atlas, ox, oy, w, h, px);
        textures := textures[id := patched];
        texDirty := texDirty + [Patch(id, Rect(ox, oy, ox + w, oy + h))];
      } else {
        textures := textures[id := Atlas(w, h, px[..w * h])];
        texDirty := texDirty + [Patch(id, Rect(0, 0, w, h))];
      }
    }

    /** A new clear colour forgets the canvas and the last frame. */
    method SetClear(c: Pixel)
      requires Valid()
      modifies this
      ensures Valid() && Next(old(View()), Recolour(c), View()) && fresh(canvas)
    {
      clear := c;
      Resize(0, 0);
      Remember([], NO_SCENE);
    }

    method Resize(w: nat, h: nat)
      modifies this`cw, this`ch, this`canvas
      ensures cw == w && ch == h && fresh(canvas) && canvas.Length0 == h && canvas.Length1 == w
    {
      cw := w;
      ch := h;
      canvas := new Pixel[h, w]((i, j) => Pixel(0, 0, 0, 0));
    }

    /** Whether the canvas must be made anew for this size. */
    predicate Reallocates(w: nat, h: nat)
      reads this
    {
      cw != w || ch != h || canvas.Length0 == 0 || canvas.Length1 == 0
    }

    method PlanDamage(s: Scene, width: nat, height: nat) returns (r: Option<Rect>)
      requires Valid() && Representable(f, s)
      modifies this
      ensures Valid() && clear == old(clear) && textures == old(textures) && texDirty == []
      ensures shown == s && shownTextures == textures && cw == Max(width, 1) && ch == Max(height, 1)
      ensures old(Reallocates(Max(width, 1), Max(height, 1))) ==> fresh(canvas)
      ensures !old(Reallocates(Max(width, 1), Max(height, 1))) ==> canvas == old(canvas)
      ensures r == Planned(f, old(Reallocates(Max(width, 1), Max(height, 1))), old(shown), s, textures, old(texDirty), cw, ch)
    {
      var w, h := Max(width, 1), Max(height, 1);
      var realloc := Reallocates(w, h);
      if realloc { Resize(w, h); }
      var meta, d := ComputeDamage(f, realloc, prev, s, textures, texDirty, w, h, shown);
      Remember(meta, s);
      return d;
    }

    /** This frame becomes the one to compare with. */
    method Remember(meta: seq<Meta>, s: Scene)
      requires ValidTextures(textures) && Representable(f, s)
      requires canvas.Length0 == ch && canvas.Length1 == cw && meta == AllMetas(f, s, cw, ch)
      modifies this`prev, this`texDirty, this`shown, this`shownTextures
      ensures Valid() && texDirty == [] && shown == s && shownTextures == textures
    {
      TrackedWhenSame(textures);
      prev := meta;
      texDirty := [];
      shown := s;
      shownTextures := textures;
    }

    /** One band over the full height. */
    method Paint(dirty: Option<Rect>, s: Scene)
      requires ValidTextures(textures) && canvas.Length0 == ch && canvas.Length1 == cw
      requires dirty.Some? ==> 0 <= dirty.value.x0 && dirty.value.x1 <= cw
      modifies canvas
      ensures Repainted(old(View()).pic, dirty, textures, clear, s, cw, ch, View().pic)
    {
      if dirty.Some? {
        RasterBand.RasterBand(canvas, 0, ch, dirty.value, clear, s, textures);
      }
    }

    /** render: repaints the damage and nothing else.  The canvas then shows the scene: always after
        (re)allocation, and otherwise if it showed the last scene and damage tracking can tell the two
        frames apart. */
    method Render(s: Scene, width: nat, height: nat) returns (dirty: Option<Rect>)
      requires Valid() && Representable(f, s)
      modifies this, canvas
      ensures Valid() && Next(old(View()), Frame(s, width, height), View())
      ensures if old(View()).Resized(cw, ch) then fresh(canvas) else canvas == old(canvas)
      ensures dirty == Planned(f, old(View()).Resized(cw, ch), old(shown), s, textures, old(texDirty), cw, ch)
      ensures old(View()).Resized(cw, ch) || (old(View().Exact()) && FrameFaithful(old(View()), Frame(s, width, height)))
              ==> View().Exact()
    {
      ghost var before := View();
      ghost var realloc := Reallocates(Max(width, 1), Max(height, 1));
      dirty := PlanDamage(s, width, height);
      OnScreen(f, realloc, before.shown, s, textures, before.patches, cw, ch);
      Paint(dirty, s);
      FrameExact(before, Frame(s, width, height), View());
    }
  }
}
