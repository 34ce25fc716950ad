/** Patching an atlas, and the record of what was patched. */
module RasterPatches {
  import opened Common
  import opened RasterShade
  import opened RasterBand
  import opened RasterFrames
  import opened RasterDamage

  /** A texel of an atlas after a patch of pw by ph pixels at (ox, oy). */
  function PatchedTexel(t: Atlas, ox: nat, oy: nat, pw: nat, ph: nat, px: seq<Pixel>, x: int, y: int): Pixel
    requires |t.px| == t.w * t.h && |px| >= pw * ph && 0 <= x < t.w && 0 <= y < t.h
  {
    TexelIndex(t.w, t.h, x, y);
    if ox <= x < ox + pw && oy <= y < oy + ph then
      TexelIndex(pw, ph, x - ox, y - oy);
      px[(y - oy) * pw + (x - ox)]
    else t.px[y * t.w + x]
  }

  /** Texel (x, y) after `row` whole rows and `col` texels of the next have been copied. */
  ghost predicate TexelCopied(t: Atlas, ox: nat, oy: nat, pw: nat, ph: nat, px: seq<Pixel>, buf: seq<Pixel>, row: nat, col: nat, x: int, y: int)
    requires |t.px| == t.w * t.h && |px| >= pw * ph && |buf| == |t.px| && 0 <= x < t.w && 0 <= y < t.h
  {
    TexelIndex(t.w, t.h, x, y);
    buf[y * t.w + x] == if y < oy + row || (y == oy + row && x < ox + col) then PatchedTexel(t, ox, oy, pw, ph, px, x, y)
                        else t.px[y * t.w + x]
  }

  ghost predicate Copied(t: Atlas, ox: nat, oy: nat, pw: nat, ph: nat, px: seq<Pixel>, buf: seq<Pixel>, row: nat, col: nat)
    requires |t.px| == t.w * t.h && |px| >= pw * ph
  {
    |buf| == |t.px| && forall x, y | 0 <= x < t.w && 0 <= y < t.h :: TexelCopied(t, ox, oy, pw, ph, px, buf, row, col, x, y)
  }

  lemma CopyStarts(t: Atlas, ox: nat, oy: nat, pw: nat, ph: nat, px: seq<Pixel>)
    requires |t.px| == t.w * t.h && |px| >= pw * ph
    ensures Copied(t, ox, oy, pw, ph, px, t.px, 0, 0)
  {
    forall x, y | 0 <= x < t.w && 0 <= y < t.h
      ensures TexelCopied(t, ox, oy, pw, ph, px, t.px, 0, 0, x, y)
    {
    }
  }

  lemma CopyNext(t: Atlas, ox: nat, oy: nat, pw: nat, ph: nat, px: seq<Pixel>, was: seq<Pixel>, buf: seq<Pixel>, row: nat, col: nat)
    requires t.Valid() && |px| >= pw * ph && ox + pw <= t.w && oy + ph <= t.h && row < ph && col < pw
    requires Copied(t, ox, oy, pw, ph, px, was, row, col)
    requires 0 <= (oy + row) * t.w + (ox + col) < |was| && 0 <= row * pw + col < |px|
    requires buf == was[(oy + row) * t.w + (ox + col) := px[row * pw + col]]
    ensures Copied(t, ox, oy, pw, ph, px, buf, row, col + 1)
  {
    var next := col + 1;
    forall x, y | 0 <= x < t.w && 0 <= y < t.h
      ensures TexelCopied(t, ox, oy, pw, ph, px, buf, row, next, x, y)
    {
      assert TexelCopied(t, ox, oy, pw, ph, px, was, row, col, x, y);
      TexelIndex(t.w, t.h, x, y);
      if y * t.w + x == (oy + row) * t.w + (ox + col) {
        FlatInjective(t.w, x, y, ox + col, oy + row);
      }
    }
  }

  lemma RowCopied(t: Atlas, ox: nat, oy: nat, pw: nat, ph: nat, px: seq<Pixel>, buf: seq<Pixel>, row: nat)
    requires |t.px| == t.w * t.h && |px| >= pw * ph && Copied(t, ox, oy, pw, ph, px, buf, row, pw)
    ensures Copied(t, ox, oy, pw, ph, px, buf, row + 1, 0)
  {
    var next := row + 1;
    forall x, y | 0 <= x < t.w && 0 <= y < t.h
      ensures TexelCopied(t, ox, oy, pw, ph, px, buf, next, 0, x, y)
    {
      assert TexelCopied(t, ox, oy, pw, ph, px, buf, row, pw, x, y);
    }
  }

  /** r is t with the patch copied in, and nothing else changed. */
  ghost predicate IsPatched(t: Atlas, ox: nat, oy: nat, pw: nat, ph: nat, px: seq<Pixel>, r: Atlas)
    requires |t.px| == t.w * t.h && |px| >= pw * ph
  {
    r.w == t.w && r.h == t.h && Copied(t, ox, oy, pw, ph, px, r.px, ph, 0)
  }

  /** The copy loop of set_texture. */
  method CopyPatch(t: Atlas, ox: nat, oy: nat, pw: nat, ph: nat, px: seq<Pixel>) returns (r: Atlas)
    requires t.Valid() && |px| >= pw * ph && ox + pw <= t.w && oy + ph <= t.h
    ensures r.Valid() && IsPatched(t, ox, oy, pw, ph, px, r)
  {
    var buf := t.px;
    CopyStarts(t, ox, oy, pw, ph, px);
    var row := 0;
    while row < ph
      invariant row <= ph && Copied(t, ox, oy, pw, ph, px, buf, row, 0)
    {
      var col := 0;
      while col < pw
        invariant col <= pw && Copied(t, ox, oy, pw, ph, px, buf, row, col)
      {
        TexelIndex(t.w, t.h, ox + col, oy + row);
        TexelIndex(pw, ph, col, row);
        ghost var was := buf;
        buf := buf[(oy + row) * t.w + (ox + col) := px[row * pw + col]];
        CopyNext(t, ox, oy, pw, ph, px, was, buf, row, col);
        col := col + 1;
      }
      RowCopied(t, ox, oy, pw, ph, px, buf, row);
      row := row + 1;
    }
    r := Atlas(t.w, t.h, buf);
  }

  /** Outside the patch nothing changed; inside it, the texel is the patch's. */
  lemma PatchedAt(t: Atlas, ox: nat, oy: nat, pw: nat, ph: nat, px: seq<Pixel>, r: Atlas, x: int, y: int)
    requires t.Valid() && r.Valid() && |px| >= pw * ph && ox + pw <= t.w && oy + ph <= t.h && IsPatched(t, ox, oy, pw, ph, px, r)
    requires 0 <= x < t.w && 0 <= y < t.h
    ensures 0 <= y * t.w + x < |r.px| && r.px[y * t.w + x] == PatchedTexel(t, ox, oy, pw, ph, px, x, y)
    ensures !Rect(ox, oy, ox + pw, oy + ph).Contains(x, y) ==> TexelSame(t, r, x, y)
  {
    TexelIndex(t.w, t.h, x, y);
    assert TexelCopied(t, ox, oy, pw, ph, px, r.px, ph, 0, x, y);
  }

  /** Patching a whole atlas is replacing it. */
  lemma WholePatch(t: Atlas, px: seq<Pixel>, r: Atlas)
    requires t.Valid() && |px| >= t.w * t.h && IsPatched(t, 0, 0, t.w, t.h, px, r)
    ensures r == Atlas(t.w, t.h, px[..t.w * t.h])
  {
    assert |r.px| == t.w * t.h;
    forall i | 0 <= i < |r.px|
      ensures r.px[i] == px[i]
    {
      var x, y := i % t.w, i / t.w;
      RowAndColumn(i, t.w, t.h);
      PatchedAt(t, 0, 0, t.w, t.h, px, r, x, y);
    }
  }

  lemma RowAndColumn(i: nat, w: nat, h: nat)
    requires w >= 1 && i < w * h
    ensures i / w < h && i == i / w * w + i % w
  {
    if i / w >= h { RowsFill(i / w, h, w); }
  }

  lemma RowsFill(q: nat, h: nat, w: nat)
    requires q >= h
    ensures q * w >= h * w
  {
    assert q * w == h * w + (q - h) * w;
  }

  // ----- textures stay on record --------------------------------------------------------------

  lemma TrackedWhenSame(textures: Textures)
    requires ValidTextures(textures)
    ensures Tracked(textures, textures, [])
  {
    forall id: nat
      ensures TrackedAt(textures, textures, [], id)
    {
    }
  }

  lemma InMore(patches: seq<Patch>, p: Patch, id: nat, x: int, y: int)
    ensures InPatch(patches + [p], id, x, y) <==> InPatch(patches, id, x, y) || (p.id == id && p.area.Contains(x, y))
  {
    var more := patches + [p];
    assert more[|patches|] == p;
    assert forall q :: q in more <==> q in patches || q == p;
  }

  /** A whole atlas set or replaced. */
  lemma TrackedReplaced(shown: Textures, textures: Textures, patches: seq<Patch>, id: nat, t: Atlas)
    requires ValidTextures(shown) && ValidTextures(textures) && Tracked(shown, textures, patches) && t.Valid()
    ensures ValidTextures(textures[id := t]) && Tracked(shown, textures[id := t], patches + [Patch(id, Rect(0, 0, t.w, t.h))])
  {
    var p := Patch(id, Rect(0, 0, t.w, t.h));
    var more, now := patches + [p], textures[id := t];
    assert more[|patches|] == p;
    forall other: nat
      ensures TrackedAt(shown, now, more, other)
    {
      assert TrackedAt(shown, textures, patches, other);
      if other != id { KeepsTracked(shown, textures, patches, p, other, now); }
    }
  }

  /** One more patch on record does no harm. */
  lemma KeepsTracked(shown: Textures, textures: Textures, patches: seq<Patch>, p: Patch, id: nat, now: Textures)
    requires ValidTextures(shown) && ValidTextures(textures) && ValidTextures(now) && TrackedAt(shown, textures, patches, id)
    requires (id in now <==> id in textures) && (id in now ==> now[id] == textures[id])
    ensures TrackedAt(shown, now, patches + [p], id)
  {
    if id in textures {
      var whole := Patch(id, Rect(0, 0, now[id].w, now[id].h));
      if whole in patches {
        assert whole in patches + [p];
      } else {
        forall x, y | 0 <= x < now[id].w && 0 <= y < now[id].h
          ensures TexelSame(shown[id], now[id], x, y) || InPatch(patches + [p], id, x, y)
        {
          InMore(patches, p, id, x, y);
        }
      }
    }
  }

  /** Part of an atlas patched. */
  lemma TrackedPatched(shown: Textures, textures: Textures, patches: seq<Patch>, id: nat, t: Atlas, area: Rect)
    requires ValidTextures(shown) && ValidTextures(textures) && Tracked(shown, textures, patches) && t.Valid()
    requires id in textures && t.w == textures[id].w && t.h == textures[id].h
    requires forall x, y | 0 <= x < t.w && 0 <= y < t.h && !area.Contains(x, y) :: TexelSame(textures[id], t, x, y)
    ensures ValidTextures(textures[id := t]) && Tracked(shown, textures[id := t], patches + [Patch(id, area)])
  {
    var p := Patch(id, area);
    var more, now := patches + [p], textures[id := t];
    forall other: nat
      ensures TrackedAt(shown, now, more, other)
    {
      assert TrackedAt(shown, textures, patches, other);
      if other != id {
        KeepsTracked(shown, textures, patches, p, other, now);
      } else {
        PatchTracked(shown, textures, patches, id, t, area);
      }
    }
  }

  lemma PatchTracked(shown: Textures, textures: Textures, patches: seq<Patch>, id: nat, t: Atlas, area: Rect)
    requires ValidTextures(shown) && ValidTextures(textures) && TrackedAt(shown, textures, patches, id) && t.Valid()
    requires id in textures && t.w == textures[id].w && t.h == textures[id].h && ValidTextures(textures[id := t])
    requires forall x, y | 0 <= x < t.w && 0 <= y < t.h && !area.Contains(x, y) :: TexelSame(textures[id], t, x, y)
    ensures TrackedAt(shown, textures[id := t], patches + [Patch(id, area)], id)
  {
    var p, whole := Patch(id, area), Patch(id, Rect(0, 0, t.w, t.h));
    if whole in patches {
      assert whole in patches + [p];
    } else {
      forall x, y | 0 <= x < t.w && 0 <= y < t.h
        ensures TexelSame(shown[id], t, x, y) || InPatch(patches + [p], id, x, y)
      {
        InMore(patches, p, id, x, y);
        assert TexelSame(shown[id], textures[id], x, y) || InPatch(patches, id, x, y);
      }
    }
  }

  /** set_texture: sets or replaces an atlas (no position), or patches part of one; malformed calls do
      nothing. */
  ghost predicate Retextured(textures: Textures, patches: seq<Patch>, id: nat, pos: Option<(nat, nat)>, w: nat, h: nat, px: seq<Pixel>,
                             textures': Textures, patches': seq<Patch>)
    requires ValidTextures(textures)
  {
    if w == 0 || h == 0 || |px| < w * h then textures' == textures && patches' == patches
    else if pos.None? then
      textures' == textures[id := Atlas(w, h, px[..w * h])] && patches' == patches + [Patch(id, Rect(0, 0, w, h))]
    else
      var (ox, oy) := pos.value;
      if id in textures && ox + w <= textures[id].w && oy + h <= textures[id].h then
        && id in textures' && textures' == textures[id := textures'[id]]
        && IsPatched(textures[id], ox, oy, w, h, px, textures'[id])
        && patches' == patches + [Patch(id, Rect(ox, oy, ox + w, oy + h))]
      else textures' == textures && patches' == patches
  }

  lemma PatchOnly(t: Atlas, ox: nat, oy: nat, pw: nat, ph: nat, px: seq<Pixel>, r: Atlas)
    requires t.Valid() && |px| >= pw * ph && ox + pw <= t.w && oy + ph <= t.h && IsPatched(t, ox, oy, pw, ph, px, r)
    ensures r.Valid()
    ensures forall x, y | 0 <= x < t.w && 0 <= y < t.h && !Rect(ox, oy, ox + pw, oy + ph).Contains(x, y) :: TexelSame(t, r, x, y)
  {
    forall x, y | 0 <= x < t.w && 0 <= y < t.h && !Rect(ox, oy, ox + pw, oy + ph).Contains(x, y)
      ensures TexelSame(t, r, x, y)
    {
      PatchedAt(t, ox, oy, pw, ph, px, r, x, y);
    }
  }

  /** Whatever the call, every texel that changed since the last frame is on record. */
  lemma RetexturedTracked(shown: Textures, textures: Textures, patches: seq<Patch>, id: nat, pos: Option<(nat, nat)>, w: nat, h: nat, px: seq<Pixel>,
                          textures': Textures, patches': seq<Patch>)
    requires ValidTextures(shown) && ValidTextures(textures) && Tracked(shown, textures, patches)
    requires Retextured(textures, patches, id, pos, w, h, px, textures', patches')
    ensures ValidTextures(textures') && Tracked(shown, textures', patches')
  {
    if w > 0 && h > 0 && |px| >= w * h {
      if pos.None? {
        TrackedReplaced(shown, textures, patches, id, Atlas(w, h, px[..w * h]));
      } else {
        var (ox, oy) := pos.value;
        if id in textures && ox + w <= textures[id].w && oy + h <= textures[id].h {
          PatchOnly(textures[id], ox, oy, w, h, px, textures'[id]);
          TrackedPatched(shown, textures, patches, id, textures'[id], Rect(ox, oy, ox + w, oy + h));
        }
      }
    }
  }
}
