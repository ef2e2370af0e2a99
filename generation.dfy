/** The search radius `#generate` derives before it runs the SDF shader
    (js/sdfMaker.js): the user's radius, given in output pixels, expressed
    in source pixels along whichever axis is scaled down the most. */
module Generation {
  import opened Settings

  /** `max(ceil(radius * (iw / ow)), ceil(radius * (ih / oh)))` in exact
      rational arithmetic: the least radius whose window, measured in
      source pixels, spans `radius` output pixels along both axes. */
  function KernelRadius(radius: int, iw: int, ih: int, ow: int, oh: int): (k: int)
    requires ow >= 1 && oh >= 1
    ensures k * ow >= radius * iw && k * oh >= radius * ih
  {
    var kx := Ceil(radius as real * (iw as real / ow as real));
    var ky := Ceil(radius as real * (ih as real / oh as real));
    CeilCovers(radius, iw, ow);
    CeilCovers(radius, ih, oh);
    Max(kx, ky)
  }

  /** `ceil(r * (i / o))` is the least integer `c` with `c * o >= r * i`. */
  lemma CeilCovers(r: int, i: int, o: int)
    requires o >= 1
    ensures Ceil(r as real * (i as real / o as real)) * o >= r * i
    ensures (Ceil(r as real * (i as real / o as real)) - 1) * o < r * i
  {
    var x := r as real * (i as real / o as real);
    var c := Ceil(x);
    ProductOfQuotient(r, i, o);
    ScaledLower(x, o as real, (r * i) as real, c as real);
    ScaledUpper(x, o as real, (r * i) as real, c as real);
    RealProduct(c, o);
    assert (c - 1) * o == c * o - o;
  }

  /** `r * (i / o)` scaled back by `o` is the integer `r * i`. */
  lemma ProductOfQuotient(r: int, i: int, o: int)
    requires o >= 1
    ensures r as real * (i as real / o as real) * o as real == (r * i) as real
  {
    var q := i as real / o as real;
    assert q * o as real == i as real;
    RealProduct(r, i);
  }

  /** The conversion to `real` commutes with multiplication. */
  lemma RealProduct(a: int, b: int)
    ensures (a * b) as real == a as real * b as real
  {
  }

  /** A value at or above `x` stays at or above `x * s == t` when scaled. */
  lemma ScaledLower(x: real, s: real, t: real, c: real)
    requires s > 0.0 && x * s == t && x <= c
    ensures t <= c * s
  {
    MulLe(x, c, s);
  }

  /** A value below `x + 1` stays below `t + s` when scaled by `s`. */
  lemma ScaledUpper(x: real, s: real, t: real, c: real)
    requires s > 0.0 && x * s == t && c < x + 1.0
    ensures c * s < t + s
  {
    var y := x + 1.0;
    MulLt(c, y, s);
    assert y * s == x * s + s;
  }

  /** Multiplying by a positive factor keeps a non-strict order. */
  lemma MulLe(a: real, b: real, s: real)
    requires s > 0.0 && a <= b
    ensures a * s <= b * s
  {
  }

  /** Multiplying by a positive factor keeps a strict order. */
  lemma MulLt(a: real, b: real, s: real)
    requires s > 0.0 && a < b
    ensures a * s < b * s
  {
  }

  /** No smaller radius covers both axes: the kernel radius is the least
      `k` with `k * ow >= radius * iw` and `k * oh >= radius * ih`. */
  lemma KernelRadiusIsLeast(radius: int, iw: int, ih: int, ow: int, oh: int, k: int)
    requires ow >= 1 && oh >= 1
    requires k * ow >= radius * iw && k * oh >= radius * ih
    ensures KernelRadius(radius, iw, ih, ow, oh) <= k
  {
    CeilCovers(radius, iw, ow);
    CeilCovers(radius, ih, oh);
    var kx := Ceil(radius as real * (iw as real / ow as real));
    var ky := Ceil(radius as real * (ih as real / oh as real));
    LeastMultiple(kx, k, ow, radius * iw);
    LeastMultiple(ky, k, oh, radius * ih);
  }

  /** If `c - 1` falls short of `t` when scaled by `o` and `k` does not,
      then `c <= k`. */
  lemma LeastMultiple(c: int, k: int, o: int, t: int)
    requires o >= 1
    requires (c - 1) * o < t <= k * o
    ensures c <= k
  {
  }

  /** With a positive radius and positive sizes the kernel radius is at
      least 1, so it never equals the initial sentinel `-1`. */
  lemma KernelRadiusPositive(radius: int, iw: int, ih: int, ow: int, oh: int)
    requires radius >= 1 && iw >= 1 && ih >= 1 && ow >= 1 && oh >= 1
    ensures KernelRadius(radius, iw, ih, ow, oh) >= 1
  {
    var k := KernelRadius(radius, iw, ih, ow, oh);
    assert radius * iw >= 1;
  }

  /** When the output is no wider than the input, the kernel radius is at
      least the user's radius (downsampling never shrinks the window). */
  lemma KernelRadiusCoversRadius(radius: int, iw: int, ih: int, ow: int, oh: int)
    requires radius >= 0 && ow >= 1 && oh >= 1
    requires ow <= iw
    ensures KernelRadius(radius, iw, ih, ow, oh) >= radius
  {
    var k := KernelRadius(radius, iw, ih, ow, oh);
    assert radius * iw >= radius * ow;
  }

  /** The radius of 2 output pixels on a 64x64 image rendered at 16x16 is
      8 source pixels. */
  lemma KernelRadiusExample()
    ensures KernelRadius(2, 64, 64, 16, 16) == 8
  {
    CeilCovers(2, 64, 16);
  }
}
