/** A frame drawn band by band is the frame drawn at once. */
module RasterBands {
  import opened RasterShade
  import opened RasterBand

  /** A band's rows, from y0 up to y1. */
  datatype Band = Band(y0: int, y1: int)

  /** The canvas after the first k bands: each call repaints its rows over what the others left. */
  ghost function Assembled(textures: Textures, clear: Pixel, s: Scene, damage: Rect, bands: seq<Band>, k: nat, before: Picture): Picture
    requires ValidTextures(textures) && k <= |bands|
  {
    if k == 0 then before
    else
      var rect := Rows(damage, bands[k - 1].y0, bands[k - 1].y1);
      BandPicture(textures, clear, s, |s.prims|, rect, Assembled(textures, clear, s, damage, bands, k - 1, before))
  }

  ghost predicate InBand(bands: seq<Band>, k: nat, y: int)
    requires k <= |bands|
  {
    exists i :: 0 <= i < k && bands[i].y0 <= y < bands[i].y1
  }

  lemma {:induction false} AssembledAt(textures: Textures, clear: Pixel, s: Scene, damage: Rect, bands: seq<Band>, k: nat, before: Picture, x: int, y: int)
    requires ValidTextures(textures) && k <= |bands|
    ensures Assembled(textures, clear, s, damage, bands, k, before)(x, y)
            == if damage.Contains(x, y) && InBand(bands, k, y) then SceneAt(textures, clear, s, |s.prims|, x, y) else before(x, y)
  {
    if k > 0 {
      AssembledAt(textures, clear, s, damage, bands, k - 1, before, x, y);
      var b := bands[k - 1];
      assert Rows(damage, b.y0, b.y1).Contains(x, y) <==> damage.Contains(x, y) && b.y0 <= y < b.y1;
      assert InBand(bands, k, y) <==> InBand(bands, k - 1, y) || b.y0 <= y < b.y1;
    }
  }

  /** Any bands that cover the damaged rows, drawn in any order, assemble the canvas that one call
      over the full height draws. */
  lemma BandsAssembleFrame(textures: Textures, clear: Pixel, s: Scene, damage: Rect, bands: seq<Band>, height: nat, before: Picture, x: int, y: int)
    requires ValidTextures(textures) && 0 <= damage.y0 && damage.y1 <= height
    requires forall r | damage.y0 <= r < damage.y1 :: InBand(bands, |bands|, r)
    ensures Assembled(textures, clear, s, damage, bands, |bands|, before)(x, y)
            == BandPicture(textures, clear, s, |s.prims|, Rows(damage, 0, height), before)(x, y)
  {
    AssembledAt(textures, clear, s, damage, bands, |bands|, before, x, y);
  }
}
