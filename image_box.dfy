/** The size `compressImage` draws an uploaded photo at before re-encoding
    it: the image is scaled down, keeping its proportions, so that a
    landscape image is at most `MaxWidth` wide and any other image at most
    `MaxHeight` tall. Sizes are exact reals; the canvas's own rounding of
    the result is not part of this model. */
module ImageBox {

  const MaxWidth: real := 1000.0
  const MaxHeight: real := 1200.0

  /** The scale factor applied to both sides: a landscape image wider than
      `MaxWidth` is brought to that width; any other image taller than
      `MaxHeight` is brought to that height; everything else is kept. */
  function Factor(w: real, h: real): (f: real)
    requires w >= 0.0 && h >= 0.0
    ensures 0.0 < f <= 1.0
  {
    if w > h && w > MaxWidth then MaxWidth / w
    else if w <= h && h > MaxHeight then MaxHeight / h
    else 1.0
  }

  /** The drawn size the code computes, as the input scaled by `Factor`. */
  function Scaled(w: real, h: real): (real, real)
    requires w >= 0.0 && h >= 0.0
  {
    (w * Factor(w, h), h * Factor(w, h))
  }

  /** `compressImage`'s size computation, updating `width` and `height` in
      place. The result is the input scaled by `Factor`; it is never larger
      than the input, keeps the aspect ratio, never exceeds `MaxHeight`,
      stays within `MaxWidth` for landscape input, and is the input itself
      when that already fits both caps. */
  method FitImage(w: real, h: real) returns (width: real, height: real)
    requires w >= 0.0 && h >= 0.0
    ensures (width, height) == Scaled(w, h)
    ensures width <= w && height <= h
    ensures width * h == height * w
    ensures height <= MaxHeight
    ensures w > h ==> width <= MaxWidth
    ensures w <= MaxWidth && h <= MaxHeight ==> width == w && height == h
  {
    width, height := w, h;
    if width > height {
      if width > MaxWidth {
        height := height * (MaxWidth / width);
        width := MaxWidth;
        assert Factor(w, h) == MaxWidth / w;
        Cancel(w, MaxWidth);
      } else {
        assert Factor(w, h) == 1.0;
      }
    } else {
      if height > MaxHeight {
        width := width * (MaxHeight / height);
        height := MaxHeight;
        assert Factor(w, h) == MaxHeight / h;
        Cancel(h, MaxHeight);
      } else {
        assert Factor(w, h) == 1.0;
      }
    }
    assert width == w * Factor(w, h);
    assert height == h * Factor(w, h);
    ScaledFacts(w, h);
  }

  lemma Cancel(x: real, c: real)
    requires x > 0.0
    ensures x * (c / x) == c
  {
  }

  /** What `Scaled` promises about every input. */
  lemma ScaledFacts(w: real, h: real)
    requires w >= 0.0 && h >= 0.0
    ensures Scaled(w, h).0 <= w && Scaled(w, h).1 <= h
    ensures Scaled(w, h).0 * h == Scaled(w, h).1 * w
    ensures Scaled(w, h).1 <= MaxHeight
    ensures w > h ==> Scaled(w, h).0 <= MaxWidth
    ensures w <= MaxWidth && h <= MaxHeight ==> Scaled(w, h) == (w, h)
  {
    var f := Factor(w, h);
    assert w * f <= w && h * f <= h by {
      MultiplyByAtMostOne(w, f);
      MultiplyByAtMostOne(h, f);
    }
    if w > h && w > MaxWidth {
      assert h * f < MaxWidth by { ScaledBelow(h, w, MaxWidth); }
    }
  }

  lemma MultiplyByAtMostOne(x: real, f: real)
    requires x >= 0.0 && 0.0 < f <= 1.0
    ensures x * f <= x
  {
    MultiplyMonotone(x, f, 1.0);
  }

  /** A side shorter than `w`, scaled by `cap / w`, stays below `cap`. */
  lemma ScaledBelow(h: real, w: real, cap: real)
    requires 0.0 <= h < w && cap > 0.0
    ensures h * (cap / w) < cap
  {
    assert h * (cap / w) == (h / w) * cap;
    assert h / w < 1.0;
  }

  /** A portrait or square image wider than `MaxWidth` but no taller than
      `MaxHeight` is kept as it is, so its width exceeds `MaxWidth`. */
  lemma PortraitWidthExceedsCap()
    ensures Scaled(1100.0, 1150.0) == (1100.0, 1150.0)
    ensures Scaled(1100.0, 1150.0).0 > MaxWidth
  {
  }

  /** The box that also caps the width of portrait images: the largest
      factor of at most 1 that fits both caps. */
  function BoundedFactor(w: real, h: real): (f: real)
    requires w >= 0.0 && h >= 0.0
    ensures 0.0 < f <= 1.0
    ensures w * f <= MaxWidth && h * f <= MaxHeight
    ensures f == 1.0 || w * f == MaxWidth || h * f == MaxHeight
  {
    var fw := if w > MaxWidth then MaxWidth / w else 1.0;
    var fh := if h > MaxHeight then MaxHeight / h else 1.0;
    if fw <= fh then
      assert h * fw <= MaxHeight by { CapByFactor(h, fw, fh, MaxHeight); }
      fw
    else
      assert w * fh <= MaxWidth by { CapByFactor(w, fh, fw, MaxWidth); }
      fh
  }

  /** Scaling by a smaller factor than one that fits a cap still fits it. */
  lemma CapByFactor(x: real, f: real, g: real, cap: real)
    requires x >= 0.0 && 0.0 < f <= g && g <= 1.0 && cap > 0.0
    requires g == 1.0 ==> x <= cap
    requires g < 1.0 ==> x * g == cap
    ensures x * f <= cap
  {
    MultiplyMonotone(x, f, g);
    if g == 1.0 {
      assert x * g == x;
    }
    Chain(x * f, x * g, cap);
  }

  lemma Chain(a: real, b: real, c: real)
    requires a <= b && b <= c
    ensures a <= c
  {
  }

  lemma MultiplyMonotone(x: real, f: real, g: real)
    requires x >= 0.0 && f <= g
    ensures x * f <= x * g
  {
    assert x * g - x * f == x * (g - f);
    assert x * (g - f) >= 0.0;
  }

  /** The corrected box: within both caps, proportional, never larger. */
  function BoundedSize(w: real, h: real): (r: (real, real))
    requires w >= 0.0 && h >= 0.0
    ensures r.0 <= MaxWidth && r.1 <= MaxHeight
    ensures r.0 <= w && r.1 <= h
    ensures r.0 * h == r.1 * w
    ensures w <= MaxWidth && h <= MaxHeight ==> r == (w, h)
  {
    MultiplyByAtMostOne(w, BoundedFactor(w, h));
    MultiplyByAtMostOne(h, BoundedFactor(w, h));
    (w * BoundedFactor(w, h), h * BoundedFactor(w, h))
  }

  /** Wherever the code's result already fits both caps and the corrected
      box keeps both sides at most as large, the two agree: the correction
      only changes images the code leaves too wide. */
  lemma BoundedAgreesWhenScaledFits(w: real, h: real)
    requires w >= 0.0 && h >= 0.0
    requires Scaled(w, h).0 <= MaxWidth
    ensures BoundedSize(w, h) == Scaled(w, h)
  {
    SameFactor(w, h);
    SizesFromFactors(w, h);
  }

  lemma SizesFromFactors(w: real, h: real)
    requires w >= 0.0 && h >= 0.0
    requires Factor(w, h) == BoundedFactor(w, h)
    ensures BoundedSize(w, h) == Scaled(w, h)
  {
    var f := Factor(w, h);
    assert BoundedSize(w, h).0 == w * f;
    assert BoundedSize(w, h).1 == h * f;
    assert Scaled(w, h).0 == w * f;
    assert Scaled(w, h).1 == h * f;
  }

  lemma SameFactor(w: real, h: real)
    requires w >= 0.0 && h >= 0.0
    requires Scaled(w, h).0 <= MaxWidth
    ensures Factor(w, h) == BoundedFactor(w, h)
  {
  }
}
