/** The three number fields of the SDF maker (width, height, radius) and
    the arithmetic their `oninput` handlers perform: reading an integer
    from the field, clamping it to the field's `min`/`max`, and keeping
    width and height in the source image's aspect ratio. */
module Settings {

  /** What a number field holds when its handler runs: either text that
      `isNaN` or `parseFloat` rejects (including the empty field), or the
      exact number the text denotes. */
  datatype FieldInput = NotNumeric | Numeric(value: real)

  /** The `min` and `max` attributes of a number field. */
  datatype Bounds = Bounds(min: int, max: int)

  /** `Number.isInteger(parseFloat(text))` for a text that `isNaN` accepts. */
  predicate IsInteger(input: FieldInput) {
    input.Numeric? && input.value.Floor as real == input.value
  }

  function Min(a: int, b: int): int { if a <= b then a else b }

  function Max(a: int, b: int): int { if a <= b then b else a }

  /** `Math.min(max, Math.max(min, v))`: the value nearest to `v` inside
      the bounds; with crossed bounds the result is `max`. */
  function Clamp(v: int, b: Bounds): (r: int)
    ensures r <= b.max
    ensures b.min <= b.max ==> b.min <= r
    ensures b.min <= v <= b.max ==> r == v
    ensures v <= b.min <= b.max ==> r == b.min
    ensures b.max <= v ==> r == b.max
  {
    Min(b.max, Max(b.min, v))
  }

  /** A handler's reading of its field: 1 for text that is not an integer
      (not clamped to `min`), otherwise the integer clamped to the bounds. */
  function ReadField(input: FieldInput, b: Bounds): (r: int)
    ensures !IsInteger(input) ==> r == 1
    ensures IsInteger(input) && b.min <= b.max ==> b.min <= r <= b.max
    ensures IsInteger(input) && b.min as real <= input.value <= b.max as real ==> r as real == input.value
    ensures IsInteger(input) && input.value <= b.min as real <= b.max as real ==> r == b.min
    ensures IsInteger(input) && b.max as real <= input.value ==> r == b.max
  {
    if !IsInteger(input) then 1 else Clamp(input.value.Floor, b)
  }

  /** JavaScript's `Math.round`: the nearest integer, halves rounded up. */
  function RoundHalfUp(x: real): (r: int)
    ensures r as real - 0.5 <= x < r as real + 0.5
  {
    (x + 0.5).Floor
  }

  /** JavaScript's `Math.ceil`: the least integer not below `x`. */
  function Ceil(x: real): (r: int)
    ensures x <= r as real < x + 1.0
  {
    -((-x).Floor)
  }

  /** The height the width handler derives from a width:
      `Math.round(width / aspect)` clamped to the height field's bounds. */
  function HeightForWidth(width: int, aspect: real, hb: Bounds): (h: int)
    requires aspect > 0.0
    ensures hb.min <= hb.max ==> hb.min <= h <= hb.max
    ensures h == hb.min || h == hb.max
         || (h as real - 0.5) * aspect <= width as real < (h as real + 0.5) * aspect
    ensures hb.min <= hb.max && hb.min == h < hb.max ==> width as real < (hb.min as real + 0.5) * aspect
    ensures hb.min <= hb.max && hb.min < h == hb.max ==> (hb.max as real - 0.5) * aspect <= width as real
  {
    var n := RoundHalfUp(width as real / aspect);
    RoundedQuotientBracket(width as real, aspect, n, hb);
    Clamp(n, hb)
  }

  /** The width the height handler derives from a height:
      `Math.round(height * aspect)` clamped to the width field's bounds. */
  function WidthForHeight(height: int, aspect: real, wb: Bounds): (w: int)
    ensures wb.min <= wb.max ==> wb.min <= w <= wb.max
    ensures w == wb.min || w == wb.max
         || w as real - 0.5 <= height as real * aspect < w as real + 0.5
    ensures wb.min <= wb.max && wb.min == w < wb.max ==> height as real * aspect < wb.min as real + 0.5
    ensures wb.min <= wb.max && wb.min < w == wb.max ==> wb.max as real - 0.5 <= height as real * aspect
  {
    Clamp(RoundHalfUp(height as real * aspect), wb)
  }

  /** A bracket on the quotient `w / s` is a bracket on `w` scaled by `s`. */
  lemma QuotientBracket(w: real, s: real, lo: real, hi: real)
    requires s > 0.0
    requires lo <= w / s < hi
    ensures lo * s <= w < hi * s
  {
    var q := w / s;
    assert q * s == w;
    assert lo * s <= q * s;
  }

  /** The bracket of a rounded quotient `n` of `w / s`, scaled by `s`,
      and what it gives when `n` is clamped to a bound. */
  lemma RoundedQuotientBracket(w: real, s: real, n: int, b: Bounds)
    requires s > 0.0
    requires n as real - 0.5 <= w / s < n as real + 0.5
    ensures (n as real - 0.5) * s <= w < (n as real + 0.5) * s
    ensures n <= b.min ==> w < (b.min as real + 0.5) * s
    ensures b.max <= n ==> (b.max as real - 0.5) * s <= w
  {
    QuotientBracket(w, s, n as real - 0.5, n as real + 0.5);
    if n <= b.min {
      QuotientBracket(w, s, n as real - 0.5, b.min as real + 0.5);
    }
    if b.max <= n {
      QuotientBracket(w, s, b.max as real - 0.5, n as real + 0.5);
    }
  }

  /** `RoundHalfUp` is determined by its bracket. */
  lemma RoundHalfUpUnique(x: real, n: int)
    requires n as real - 0.5 <= x < n as real + 0.5
    ensures RoundHalfUp(x) == n
  {
  }

  /** Re-reading a value the handler wrote back to its field gives the same
      value, unless the handler reset a non-integer to 1 and 1 lies outside
      the bounds. */
  lemma ReadFieldWriteBack(input: FieldInput, b: Bounds)
    requires b.min <= b.max
    requires IsInteger(input) || b.min <= 1 <= b.max
    ensures ReadField(Numeric(ReadField(input, b) as real), b) == ReadField(input, b)
  {
  }

  /** With the bounds above 1, re-reading the 1 that a non-integer text was
      reset to clamps it to `min`: the write-back is not stable. */
  lemma ReadFieldResetNotStable(b: Bounds)
    requires 1 < b.min <= b.max
    ensures ReadField(Numeric(ReadField(NotNumeric, b) as real), b) == b.min
  {
  }

  /** For a portrait or square aspect (`aspect <= 1`), deriving the height
      from a width and then the width from that height gives the width back,
      when neither is clamped. */
  lemma {:induction false} WidthHeightWidth(width: int, aspect: real, wb: Bounds, hb: Bounds)
    requires 0.0 < aspect <= 1.0
    requires wb.min <= width <= wb.max
    requires hb.min <= RoundHalfUp(width as real / aspect) <= hb.max
    ensures WidthForHeight(HeightForWidth(width, aspect, hb), aspect, wb) == width
  {
    var h := RoundHalfUp(width as real / aspect);
    assert HeightForWidth(width, aspect, hb) == h;
    var w := width as real;
    QuotientBracket(w, aspect, h as real - 0.5, h as real + 0.5);
    assert (h as real - 0.5) * aspect <= w < (h as real + 0.5) * aspect;
    if aspect == 1.0 {
      assert w / aspect == w;
      RoundHalfUpUnique(w, width);
      assert h == width;
    } else {
      assert h as real * aspect - 0.5 * aspect <= w;
      assert w < h as real * aspect + 0.5 * aspect;
      assert 0.5 * aspect < 0.5;
      RoundHalfUpUnique(h as real * aspect, width);
    }
  }

  /** For a landscape or square aspect (`aspect >= 1`), deriving the width
      from a height and then the height from that width gives the height
      back, when neither is clamped. */
  lemma {:induction false} HeightWidthHeight(height: int, aspect: real, wb: Bounds, hb: Bounds)
    requires aspect >= 1.0
    requires hb.min <= height <= hb.max
    requires wb.min <= RoundHalfUp(height as real * aspect) <= wb.max
    ensures HeightForWidth(WidthForHeight(height, aspect, wb), aspect, hb) == height
  {
    var w := RoundHalfUp(height as real * aspect);
    assert WidthForHeight(height, aspect, wb) == w;
    var h, wr := height as real, w as real;
    assert wr - 0.5 <= h * aspect < wr + 0.5;
    var q := wr / aspect;
    assert q * aspect == wr;
    if aspect == 1.0 {
      RoundHalfUpUnique(wr, height);
      assert q == wr;
    } else {
      // |q - h| * aspect = |w - h * aspect| <= 1/2, and aspect > 1.
      var d := q - h;
      assert d * aspect == wr - h * aspect;
      BracketDivide(d, aspect);
      RoundHalfUpUnique(q, height);
    }
  }

  /** `-1/2 <= d * s <= 1/2` with `s > 1` brackets `d` strictly inside. */
  lemma BracketDivide(d: real, s: real)
    requires s > 1.0
    requires -0.5 < d * s <= 0.5
    ensures -0.5 <= d < 0.5
  {
  }

  /** The aspect of a loaded image is `width / height`; deriving the height
      from the unchanged width gives the image's height back when it lies
      within the bounds, and symmetrically for the width. */
  lemma {:induction false} LoadedSizeConsistent(width: int, height: int, wb: Bounds, hb: Bounds)
    requires width >= 1 && height >= 1
    requires hb.min <= height <= hb.max
    requires wb.min <= width <= wb.max
    ensures HeightForWidth(width, width as real / height as real, hb) == height
    ensures WidthForHeight(height, width as real / height as real, wb) == width
  {
    var aspect := width as real / height as real;
    assert width as real / aspect == height as real;
    RoundHalfUpUnique(height as real, height);
    assert height as real * aspect == width as real;
    RoundHalfUpUnique(width as real, width);
  }
}
