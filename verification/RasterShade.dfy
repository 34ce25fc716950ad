/** Shading one pixel: interpolation, bilinear sampling, premultiplied OVER, and the fast paths. */
module RasterShade {
  import opened Common
  import opened RasterGeometry

  type Channel = c: int | 0 <= c <= 255
  datatype Pixel = Pixel(r: Channel, g: Channel, b: Channel, a: Channel)

  /** Four channels before rounding. */
  datatype Color = Color(r: real, g: real, b: real, a: real)
  {
    predicate InRange() { 0.0 <= r <= 255.0 && 0.0 <= g <= 255.0 && 0.0 <= b <= 255.0 && 0.0 <= a <= 255.0 }
  }

  datatype Vertex = Vertex(x: real, y: real, u: real, v: real, color: Pixel)
  {
    function At(): Point { Point(x, y) }
  }

  /** RGBA, premultiplied, row-major.  set_texture admits no empty atlas. */
  datatype Atlas = Atlas(w: nat, h: nat, px: seq<Pixel>)
  {
    predicate Valid() { w >= 1 && h >= 1 && |px| == w * h }
  }

  function Wide(p: Pixel): (c: Color)
    ensures c.InRange()
  {
    Color(p.r as real, p.g as real, p.b as real, p.a as real)
  }

  const WHITE: Color := Color(255.0, 255.0, 255.0, 255.0)

  // ----- sampling -----------------------------------------------------------------------------

  function Clamp(i: int, lo: int, hi: int): (r: int)
    requires lo <= hi
    ensures lo <= r <= hi
  {
    if i < lo then lo else if i > hi then hi else i
  }

  lemma TexelIndex(w: nat, h: nat, x: int, y: int)
    requires 0 <= x < w && 0 <= y < h
    ensures 0 <= y * w + x < w * h
  {
    assert y * w <= (h - 1) * w;
    assert (h - 1) * w + w == h * w;
  }

  function Texel(t: Atlas, x: int, y: int): (c: Color)
    requires t.Valid() && 0 <= x < t.w && 0 <= y < t.h
    ensures c.InRange()
  {
    TexelIndex(t.w, t.h, x, y);
    Wide(t.px[y * t.w + x])
  }

  function Lerp(a: real, b: real, t: real): real
  {
    a + (b - a) * t
  }

  function Mix(a: Color, b: Color, t: real): Color
  {
    Color(Lerp(a.r, b.r, t), Lerp(a.g, b.g, t), Lerp(a.b, b.b, t), Lerp(a.a, b.a, t))
  }

  lemma LerpInRange(a: real, b: real, t: real)
    requires 0.0 <= a <= 255.0 && 0.0 <= b <= 255.0 && 0.0 <= t <= 1.0
    ensures 0.0 <= Lerp(a, b, t) <= 255.0
  {
    ProductNonNegative(a, 1.0 - t);
    ProductNonNegative(b, t);
    ProductNonNegative(255.0 - a, 1.0 - t);
    ProductNonNegative(255.0 - b, t);
    assert Lerp(a, b, t) == a * (1.0 - t) + b * t;
    assert 255.0 - Lerp(a, b, t) == (255.0 - a) * (1.0 - t) + (255.0 - b) * t;
  }

  lemma MixInRange(a: Color, b: Color, t: real)
    requires a.InRange() && b.InRange() && 0.0 <= t <= 1.0
    ensures Mix(a, b, t).InRange()
  {
    LerpInRange(a.r, b.r, t);
    LerpInRange(a.g, b.g, t);
    LerpInRange(a.b, b.b, t);
    LerpInRange(a.a, b.a, t);
  }

  /** First of the two taps on an axis of n texels, and how far towards the second. */
  function Tap(u: real, n: nat): int { (u * n as real - 0.5).Floor }
  function Part(u: real, n: nat): (r: real)
    ensures 0.0 <= r < 1.0
  {
    var f := u * n as real - 0.5;
    f - f.Floor as real
  }

  function Bilinear(c00: Color, c10: Color, c01: Color, c11: Color, dx: real, dy: real): (c: Color)
    requires c00.InRange() && c10.InRange() && c01.InRange() && c11.InRange()
    requires 0.0 <= dx <= 1.0 && 0.0 <= dy <= 1.0
    ensures c.InRange()
  {
    var top, bottom := Mix(c00, c10, dx), Mix(c01, c11, dx);
    MixInRange(c00, c10, dx);
    MixInRange(c01, c11, dx);
    MixInRange(top, bottom, dy);
    Mix(top, bottom, dy)
  }

  function Sample(t: Atlas, u: real, v: real): (c: Color)
    requires t.Valid()
    ensures c.InRange()
  {
    var x0, y0 := Tap(u, t.w), Tap(v, t.h);
    var ix0, iy0 := Clamp(x0, 0, t.w - 1), Clamp(y0, 0, t.h - 1);
    var ix1, iy1 := Clamp(x0 + 1, 0, t.w - 1), Clamp(y0 + 1, 0, t.h - 1);
    Bilinear(Texel(t, ix0, iy0), Texel(t, ix1, iy0), Texel(t, ix0, iy1), Texel(t, ix1, iy1), Part(u, t.w), Part(v, t.h))
  }

  lemma CenterTap(x: int, n: nat)
    requires 0 <= x < n
    ensures Tap((x as real + 0.5) / n as real, n) == x && Part((x as real + 0.5) / n as real, n) == 0.0
  {
    assert (x as real + 0.5) / n as real * n as real == x as real + 0.5;
  }

  /** At the centre of a texel the sample is that texel. */
  lemma SampleAtCenter(t: Atlas, x: int, y: int)
    requires t.Valid() && 0 <= x < t.w && 0 <= y < t.h
    ensures Sample(t, (x as real + 0.5) / t.w as real, (y as real + 0.5) / t.h as real) == Texel(t, x, y)
  {
    CenterTap(x, t.w);
    CenterTap(y, t.h);
  }

  lemma TapBetween(u: real, n: nat, x: int, s: real)
    requires u * n as real == x as real + 0.5 + s && 0.0 <= s < 1.0
    ensures Tap(u, n) == x && Part(u, n) == s
  {
  }

  /** The mean of four values, s of the way to the right and r of the way down. */
  function Weighted(a: real, b: real, c: real, d: real, s: real, r: real): real
  {
    (a * (1.0 - s) + b * s) * (1.0 - r) + (c * (1.0 - s) + d * s) * r
  }

  lemma LerpWeights(a: real, b: real, c: real, d: real, s: real, r: real)
    ensures Lerp(Lerp(a, b, s), Lerp(c, d, s), r) == Weighted(a, b, c, d, s, r)
  {
    var p, q := Lerp(a, b, s), Lerp(c, d, s);
    assert p == a * (1.0 - s) + b * s && q == c * (1.0 - s) + d * s;
    assert Lerp(p, q, r) == p * (1.0 - r) + q * r;
  }

  lemma BilinearIsWeighted(a: Color, b: Color, c: Color, d: Color, s: real, r: real)
    requires a.InRange() && b.InRange() && c.InRange() && d.InRange() && 0.0 <= s <= 1.0 && 0.0 <= r <= 1.0
    ensures Bilinear(a, b, c, d, s, r)
            == Color(Weighted(a.r, b.r, c.r, d.r, s, r), Weighted(a.g, b.g, c.g, d.g, s, r),
                     Weighted(a.b, b.b, c.b, d.b, s, r), Weighted(a.a, b.a, c.a, d.a, s, r))
  {
    LerpWeights(a.r, b.r, c.r, d.r, s, r);
    LerpWeights(a.g, b.g, c.g, d.g, s, r);
    LerpWeights(a.b, b.b, c.b, d.b, s, r);
    LerpWeights(a.a, b.a, c.a, d.a, s, r);
  }

  /** Between the centres of neighbouring texels the sample is their weighted mean. */
  lemma SampleBetween(t: Atlas, x: int, y: int, s: real, r: real, u: real, v: real)
    requires t.Valid() && 0 <= x < t.w - 1 && 0 <= y < t.h - 1 && 0.0 <= s < 1.0 && 0.0 <= r < 1.0
    requires u * t.w as real == x as real + 0.5 + s && v * t.h as real == y as real + 0.5 + r
    ensures var a, b, c, d := Texel(t, x, y), Texel(t, x + 1, y), Texel(t, x, y + 1), Texel(t, x + 1, y + 1);
            Sample(t, u, v)
            == Color(Weighted(a.r, b.r, c.r, d.r, s, r), Weighted(a.g, b.g, c.g, d.g, s, r),
                     Weighted(a.b, b.b, c.b, d.b, s, r), Weighted(a.a, b.a, c.a, d.a, s, r))
  {
    TapBetween(u, t.w, x, s);
    TapBetween(v, t.h, y, r);
    BilinearIsWeighted(Texel(t, x, y), Texel(t, x + 1, y), Texel(t, x, y + 1), Texel(t, x + 1, y + 1), s, r);
  }

  // ----- blending -----------------------------------------------------------------------------

  /** Rounding of a non-negative value. */
  function Round(x: real): int
  {
    (x + 0.5).Floor
  }

  /** Vertex colour times texel. */
  function Frag(c: Color, t: Color): Color
  {
    Color(c.r * t.r / 255.0, c.g * t.g / 255.0, c.b * t.b / 255.0, c.a * t.a / 255.0)
  }

  lemma ProductInRange(x: real, y: real)
    requires 0.0 <= x <= 255.0 && 0.0 <= y <= 255.0
    ensures 0.0 <= x * y / 255.0 <= 255.0
  {
    ProductNonNegative(x, y);
    ProductNonNegative(x, 255.0 - y);
    assert x * y + x * (255.0 - y) == 255.0 * x;
  }

  lemma FragInRange(c: Color, t: Color)
    requires c.InRange() && t.InRange()
    ensures Frag(c, t).InRange()
  {
    ProductInRange(c.r, t.r);
    ProductInRange(c.g, t.g);
    ProductInRange(c.b, t.b);
    ProductInRange(c.a, t.a);
  }

  /** White changes nothing, on either side. */
  lemma FragNeutral(c: Color)
    ensures Frag(c, WHITE) == c && Frag(WHITE, c) == c
  {
  }

  /** A colour channel after rounding, held to the new alpha. */
  function Held(c: int, alpha: int): (r: Channel)
    requires alpha >= 0
    ensures r <= alpha
  {
    var m := Clamp(c, 0, alpha);
    if m > 255 then 255 else m
  }

  /** A fragment channel over a channel of the destination. */
  function Channeled(f: real, d: Channel, inv: real): int
  {
    Round(f + d as real * inv)
  }

  function Inverse(alpha: real): real
  {
    1.0 - alpha / 255.0
  }

  lemma AlphaInRange(fa: real, d: Channel)
    requires 0.0 <= fa <= 255.0
    ensures 0 <= Channeled(fa, d, Inverse(fa)) <= 255
  {
    var inv := Inverse(fa);
    ProductNonNegative(d as real, inv);
    ProductNonNegative(255.0 - d as real, inv);
    assert d as real * inv + (255.0 - d as real) * inv == 255.0 * inv == 255.0 - fa;
  }

  /** Rounded channels, with the colours held to alpha. */
  function Packed(r: int, g: int, b: int, a: int): (p: Pixel)
    requires a >= 0
    ensures p.r <= a && p.g <= a && p.b <= a && (a <= 255 ==> p.a == a)
  {
    Pixel(Held(r, a), Held(g, a), Held(b, a), Clamp(a, 0, 255))
  }

  /** Premultiplied OVER; the result stays premultiplied. */
  function Over(f: Color, dst: Pixel): (p: Pixel)
    requires f.InRange()
    ensures p.r <= p.a && p.g <= p.a && p.b <= p.a
  {
    AlphaInRange(f.a, dst.a);
    var inv := Inverse(f.a);
    Packed(Channeled(f.r, dst.r, inv), Channeled(f.g, dst.g, inv), Channeled(f.b, dst.b, inv), Channeled(f.a, dst.a, inv))
  }

  lemma RoundMonotone(x: real, y: real)
    requires x <= y
    ensures Round(x) <= Round(y)
  {
  }

  lemma RoundNear(x: real)
    ensures x - 0.5 <= Round(x) as real <= x + 0.5
  {
  }

  /** For premultiplied input the clamp never bites: every channel is frag + dst * (1 - alpha),
      rounded to the nearest integer. */
  lemma OverIsRoundedSum(f: Color, dst: Pixel)
    requires f.InRange() && f.r <= f.a && f.g <= f.a && f.b <= f.a
    requires dst.r <= dst.a && dst.g <= dst.a && dst.b <= dst.a
    ensures var p, keep := Over(f, dst), 1.0 - f.a / 255.0;
            && Near(p.r, f.r + dst.r as real * keep) && Near(p.g, f.g + dst.g as real * keep)
            && Near(p.b, f.b + dst.b as real * keep) && Near(p.a, f.a + dst.a as real * keep)
  {
    AlphaInRange(f.a, dst.a);
    RoundNear(f.a + dst.a as real * Inverse(f.a));
    ChannelHeld(f.r, dst.r, f.a, dst.a);
    ChannelHeld(f.g, dst.g, f.a, dst.a);
    ChannelHeld(f.b, dst.b, f.a, dst.a);
  }

  predicate Near(n: int, x: real)
  {
    x - 0.5 <= n as real <= x + 0.5
  }

  lemma ChannelHeld(fc: real, dc: Channel, fa: real, da: Channel)
    requires 0.0 <= fc <= fa <= 255.0 && dc <= da
    ensures var a := Channeled(fa, da, Inverse(fa));
            a >= 0 && Held(Channeled(fc, dc, Inverse(fa)), a) == Channeled(fc, dc, Inverse(fa))
    ensures Near(Channeled(fc, dc, Inverse(fa)), fc + dc as real * Inverse(fa))
  {
    var keep := Inverse(fa);
    ProductNonNegative(dc as real, keep);
    ProductNonNegative(da as real - dc as real, keep);
    assert da as real * keep - dc as real * keep == (da as real - dc as real) * keep;
    RoundMonotone(fc + dc as real * keep, fa + da as real * keep);
    AlphaInRange(fa, da);
    RoundNear(fc + dc as real * keep);
  }

  /** Vertex colour times texel stays premultiplied. */
  lemma FragPremultiplied(c: Color, t: Color)
    requires c.InRange() && t.InRange() && c.r <= c.a && c.g <= c.a && c.b <= c.a && t.r <= t.a && t.g <= t.a && t.b <= t.a
    ensures var f := Frag(c, t); f.r <= f.a && f.g <= f.a && f.b <= f.a
  {
    ProductOrdered(c.r, c.a, t.r, t.a);
    ProductOrdered(c.g, c.a, t.g, t.a);
    ProductOrdered(c.b, c.a, t.b, t.a);
  }

  lemma ProductOrdered(x: real, y: real, u: real, v: real)
    requires 0.0 <= x <= y && 0.0 <= u <= v
    ensures x * u <= y * v
  {
    ProductNonNegative(y - x, u);
    ProductNonNegative(y, v - u);
    assert y * v - x * u == (y - x) * u + y * (v - u);
  }

  // ----- one pixel of a triangle --------------------------------------------------------------

  /** Barycentric weights of a covered point. */
  datatype Weights = Weights(w0: real, w1: real, w2: real)
  {
    predicate Valid() { w0 >= 0.0 && w1 >= 0.0 && w2 >= 0.0 && w0 + w1 + w2 == 1.0 }
    function Of(a: real, b: real, c: real): real { w0 * a + w1 * b + w2 * c }
  }

  lemma MeanInRange(w: Weights, a: real, b: real, c: real, lo: real, hi: real)
    requires w.Valid() && lo <= a <= hi && lo <= b <= hi && lo <= c <= hi
    ensures lo <= w.Of(a, b, c) <= hi
  {
    MeanBetween(w.w0, w.w1, w.w2, a, b, c, w.Of(a, b, c), lo, hi);
  }

  lemma MeanOfSame(w: Weights, a: real)
    requires w.Valid()
    ensures w.Of(a, a, a) == a
  {
    assert w.Of(a, a, a) == (w.w0 + w.w1 + w.w2) * a;
  }

  /** Three vertices in the order raster_tri draws them. */
  datatype Triple = Triple(v0: Vertex, v1: Vertex, v2: Vertex)

  function Interpolated(t: Triple, w: Weights): (c: Color)
    requires w.Valid()
    ensures c.InRange()
  {
    var a, b, c := Wide(t.v0.color), Wide(t.v1.color), Wide(t.v2.color);
    MeanInRange(w, a.r, b.r, c.r, 0.0, 255.0);
    MeanInRange(w, a.g, b.g, c.g, 0.0, 255.0);
    MeanInRange(w, a.b, b.b, c.b, 0.0, 255.0);
    MeanInRange(w, a.a, b.a, c.a, 0.0, 255.0);
    Color(w.Of(a.r, b.r, c.r), w.Of(a.g, b.g, c.g), w.Of(a.b, b.b, c.b), w.Of(a.a, b.a, c.a))
  }

  function SampledAt(t: Triple, w: Weights, tex: Option<Atlas>): (c: Color)
    requires tex.Some? ==> tex.value.Valid()
    ensures c.InRange()
  {
    if tex.None? then WHITE
    else Sample(tex.value, w.Of(t.v0.u, t.v1.u, t.v2.u), w.Of(t.v0.v, t.v1.v, t.v2.v))
  }

  /** Composing a fragment: a fully transparent one leaves the pixel alone. */
  function Compose(f: Color, dst: Pixel): Pixel
    requires f.InRange()
  {
    if f.a <= 0.0 then dst else Over(f, dst)
  }

  /** The general path: interpolate colour and uv, sample, multiply, compose. */
  function Shade(t: Triple, w: Weights, tex: Option<Atlas>, dst: Pixel): Pixel
    requires w.Valid() && (tex.Some? ==> tex.value.Valid())
  {
    var c, s := Interpolated(t, w), SampledAt(t, w, tex);
    FragInRange(c, s);
    Compose(Frag(c, s), dst)
  }

  // ----- the fast paths -----------------------------------------------------------------------

  /** What raster_tri works out once per triangle. */
  datatype Fill =
    | Nothing                              // fully transparent: the triangle is skipped
    | Constant(p: Pixel)                   // flat and opaque
    | Translucent(f: Color, inv: real)     // flat, blended
    | PerPixel(texel: Option<Color>)       // interpolated; the texel too unless uv is constant

  function SameUv(t: Triple): bool
  {
    t.v0.u == t.v1.u && t.v0.u == t.v2.u && t.v0.v == t.v1.v && t.v0.v == t.v2.v
  }

  function ConstantTexel(t: Triple, tex: Option<Atlas>): (r: Option<Color>)
    requires tex.Some? ==> tex.value.Valid()
    ensures r.Some? ==> r.value.InRange()
  {
    if tex.Some? && SameUv(t) then Some(Sample(tex.value, t.v0.u, t.v0.v)) else None
  }

  function PlanFill(t: Triple, tex: Option<Atlas>): (r: Fill)
    requires tex.Some? ==> tex.value.Valid()
    ensures r.Translucent? ==> r.f.InRange() && r.inv == Inverse(r.f.a)
    ensures r.PerPixel? && r.texel.Some? ==> r.texel.value.InRange()
  {
    var constant := ConstantTexel(t, tex);
    var texel := if tex.None? then Some(WHITE) else constant;
    if t.v0.color == t.v1.color && t.v0.color == t.v2.color && texel.Some? then
      var f := Frag(Wide(t.v0.color), texel.value);
      FragInRange(Wide(t.v0.color), texel.value);
      if f.a <= 0.0 then Nothing
      else if Inverse(f.a) == 0.0 then Constant(Packed(Round(f.r), Round(f.g), Round(f.b), Round(f.a)))
      else Translucent(f, Inverse(f.a))
    else PerPixel(constant)
  }

  /** The pixel the loop of raster_tri writes. */
  function Filled(fill: Fill, t: Triple, w: Weights, tex: Option<Atlas>, dst: Pixel): Pixel
    requires w.Valid() && (tex.Some? ==> tex.value.Valid()) && fill == PlanFill(t, tex)
  {
    match fill
    case Nothing => dst
    case Constant(p) => p
    case Translucent(f, inv) =>
      AlphaInRange(f.a, dst.a);
      Packed(Channeled(f.r, dst.r, inv), Channeled(f.g, dst.g, inv), Channeled(f.b, dst.b, inv), Channeled(f.a, dst.a, inv))
    case PerPixel(texel) =>
      var c := Interpolated(t, w);
      var s := if tex.None? then WHITE else if texel.Some? then texel.value else SampledAt(t, w, tex);
      FragInRange(c, s);
      Compose(Frag(c, s), dst)
  }

  /** Where uv is the same at all vertices, so is the texel everywhere in the triangle. */
  lemma ConstantTexelIsSampled(t: Triple, w: Weights, tex: Option<Atlas>)
    requires w.Valid() && (tex.Some? ==> tex.value.Valid())
    ensures ConstantTexel(t, tex).Some? ==> SampledAt(t, w, tex) == ConstantTexel(t, tex).value
  {
    MeanOfSame(w, t.v0.u);
    MeanOfSame(w, t.v0.v);
  }

  /** Where the colour is the same at all vertices, interpolation returns it. */
  lemma FlatIsInterpolated(t: Triple, w: Weights)
    requires w.Valid() && t.v0.color == t.v1.color == t.v2.color
    ensures Interpolated(t, w) == Wide(t.v0.color)
  {
    var c := Wide(t.v0.color);
    MeanOfSame(w, c.r);
    MeanOfSame(w, c.g);
    MeanOfSame(w, c.b);
    MeanOfSame(w, c.a);
  }

  /** An opaque fragment hides the destination. */
  lemma OpaqueHides(f: Color, dst: Pixel)
    requires f.InRange() && Inverse(f.a) == 0.0
    ensures Round(f.a) >= 0 && Over(f, dst) == Packed(Round(f.r), Round(f.g), Round(f.b), Round(f.a))
  {
    assert dst.r as real * 0.0 == 0.0 && dst.g as real * 0.0 == 0.0 && dst.b as real * 0.0 == 0.0 && dst.a as real * 0.0 == 0.0;
  }

  /** Every fast path writes the pixel the general path would. */
  lemma FastPathsAgree(t: Triple, w: Weights, tex: Option<Atlas>, dst: Pixel)
    requires w.Valid() && (tex.Some? ==> tex.value.Valid())
    ensures Filled(PlanFill(t, tex), t, w, tex, dst) == Shade(t, w, tex, dst)
  {
    ConstantTexelIsSampled(t, w, tex);
    var fill := PlanFill(t, tex);
    if !fill.PerPixel? {
      FlatIsInterpolated(t, w);
      var f := Frag(Interpolated(t, w), SampledAt(t, w, tex));
      FragInRange(Interpolated(t, w), SampledAt(t, w, tex));
      if fill.Constant? { OpaqueHides(f, dst); }
    }
  }
}
