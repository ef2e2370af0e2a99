/** The fill-mode resolve pass of the SDF shader (js/gl/shaderSDF.js):
    for each output pixel, read one cell of the converged jump-flood atlas,
    unpack its two candidate coordinates, and colour the pixel with the
    source colour at the first coordinate when the source pixel at the
    cell's own coordinate is foreground, at the second otherwise. The
    pass runs on the GPU, every pixel independently; here it is a
    function applied to each cell of the output grid. */
module ShaderSdf {

  /** Channel values are integers from 0 to `ChannelMax`; `ChannelMax`
      stands for the shader's 1.0. */
  const ChannelMax: nat := 255

  /** An RGBA texel of the source image (`texelFetch(source, ...)`) or of
      the output (`color`). */
  datatype Texel = Texel(r: int, g: int, b: int, a: int)

  /** An unsigned 32-bit word of the atlas texture. */
  type Word = n: nat | n < 0x1_0000_0000

  /** The `.rg` of an atlas texel: the packed coordinates of the nearest
      foreground pixel (red) and of the nearest background pixel (green). */
  datatype AtlasTexel = AtlasTexel(red: Word, green: Word)

  /** A texel coordinate (`ivec2`). */
  datatype Coord = Coord(x: int, y: int)

  /** A texture: rows indexed by `y`, each row indexed by `x`. */
  type Grid<T> = seq<seq<T>>

  /** Every row of `g` has `width` texels and there are `height` rows. */
  ghost predicate IsRect<T>(g: Grid<T>, width: nat, height: nat) {
    |g| == height && forall y :: 0 <= y < height ==> |g[y]| == width
  }

  predicate InBounds<T>(g: Grid<T>, c: Coord) {
    0 <= c.y < |g| && 0 <= c.x < |g[c.y]|
  }

  /** `texelFetch(g, c, 0)`. */
  function Fetch<T>(g: Grid<T>, c: Coord): T
    requires InBounds(g, c)
  {
    g[c.y][c.x]
  }

  /** The class test of the shader: alpha strictly above one half, that is
      128 or more of 255. */
  predicate IsForeground(t: Texel) {
    2 * t.a > ChannelMax
  }

  /** Two texels agree on red, green and blue. */
  predicate SameColor(s: Texel, t: Texel) {
    s.r == t.r && s.g == t.g && s.b == t.b
  }

  /** The atlas and source can be read at `c` and at both coordinates the
      atlas cell at `c` unpacks to. `unpack` stands for `jfaUnpack`, which
      is defined with the jump-flood shader and is not part of this model. */
  predicate Readable(atlas: Grid<AtlasTexel>, source: Grid<Texel>, unpack: Word -> Coord, c: Coord) {
    InBounds(atlas, c) && InBounds(source, c)
    && InBounds(source, unpack(Fetch(atlas, c).red))
    && InBounds(source, unpack(Fetch(atlas, c).green))
  }

  /** The body of the shader's `main` once `atlasCoordinate` is known:
      an opaque texel whose colour is the source's at the red coordinate
      for a foreground pixel and at the green coordinate otherwise
      (alpha 127 or below counts as background). */
  function ResolvePixel(atlas: Grid<AtlasTexel>, source: Grid<Texel>, unpack: Word -> Coord, c: Coord): (out: Texel)
    requires Readable(atlas, source, unpack, c)
    ensures out.a == ChannelMax
    ensures IsForeground(Fetch(source, c)) ==> SameColor(out, Fetch(source, unpack(Fetch(atlas, c).red)))
    ensures !IsForeground(Fetch(source, c)) ==> SameColor(out, Fetch(source, unpack(Fetch(atlas, c).green)))
  {
    var cell := Fetch(atlas, c);
    var p := unpack(cell.red);
    var q := unpack(cell.green);
    var picked := if IsForeground(Fetch(source, c)) then Fetch(source, p) else Fetch(source, q);
    Texel(picked.r, picked.g, picked.b, ChannelMax)
  }

  /** Cell `c` of an atlas of `size` cells contains the centre
      `(i + 1/2) / outSize` of output pixel `i`:
      `c / size <= (i + 1/2) / outSize < (c + 1) / size`. */
  predicate CoversCentre(c: nat, i: nat, outSize: nat, size: nat) {
    c * (2 * outSize) <= (2 * i + 1) * size < (c + 1) * (2 * outSize)
  }

  /** The atlas cell an output pixel reads along one axis: the cell of an
      atlas of `size` cells that covers the centre `(i + 1/2) / outSize` of
      output pixel `i`, that is `floor(vUv * size)`. */
  function AtlasCoordinate(i: nat, outSize: nat, size: nat): nat
    requires i < outSize
  {
    ((2 * i + 1) * size) / (2 * outSize)
  }

  /** The cell `AtlasCoordinate` picks contains the pixel centre, lies
      inside an atlas of at least one cell, and is the pixel itself when
      the output has the atlas's size. */
  lemma AtlasCoordinateCell(i: nat, outSize: nat, size: nat)
    requires i < outSize
    ensures CoversCentre(AtlasCoordinate(i, outSize, size), i, outSize, size)
    ensures size >= 1 ==> AtlasCoordinate(i, outSize, size) < size
    ensures outSize == size ==> AtlasCoordinate(i, outSize, size) == i
  {
    AtlasCoordinateFacts(i, outSize, size, AtlasCoordinate(i, outSize, size));
  }

  /** At most one cell contains a given centre, so `AtlasCoordinate` is
      the cell `floor(vUv * size)`. */
  lemma CoversCentreUnique(c: nat, d: nat, i: nat, outSize: nat, size: nat)
    requires CoversCentre(c, i, outSize, size) && CoversCentre(d, i, outSize, size)
    ensures c == d
  {
    var m := 2 * outSize;
    if c < d {
      MulMonotoneNat(c + 1, d, m);
    } else if d < c {
      MulMonotoneNat(d + 1, c, m);
    }
  }

  /** Multiplying by a natural number keeps a weak order. */
  lemma MulMonotoneNat(a: nat, b: nat, s: nat)
    requires a <= b
    ensures a * s <= b * s
  {
  }

  /** The facts `AtlasCoordinateCell` states, proved on the formula. */
  lemma AtlasCoordinateFacts(i: nat, outSize: nat, size: nat, c: nat)
    requires i < outSize
    requires c == ((2 * i + 1) * size) / (2 * outSize)
    ensures CoversCentre(c, i, outSize, size)
    ensures size >= 1 ==> c < size
    ensures outSize == size ==> c == i
  {
    var n, d := (2 * i + 1) * size, 2 * outSize;
    FloorBracket(n, d);
    if size >= 1 {
      MulStrict(2 * i + 1, d, size);
      DivBelow(n, d, size);
    }
    if outSize == size {
      assert n == i * d + size;
      DivExact(i, d, size);
    }
  }

  /** `n / d` is the largest multiple count of `d` not above `n`. */
  lemma FloorBracket(n: nat, d: nat)
    requires d >= 1
    ensures (n / d) * d <= n < (n / d + 1) * d
  {
    var q, r := n / d, n % d;
    assert n == d * q + r;
    assert (q + 1) * d == q * d + d;
  }

  /** Multiplying by a positive factor keeps a strict order. */
  lemma MulStrict(a: nat, b: nat, s: nat)
    requires a < b && s >= 1
    ensures a * s < b * s
  {
  }

  /** `n < d * m` gives `n / d < m`. */
  lemma DivBelow(n: nat, d: nat, m: nat)
    requires d >= 1 && n < d * m
    ensures n / d < m
  {
  }

  /** `(q * d + r) / d == q` for `0 <= r < d`. */
  lemma DivExact(q: nat, d: nat, r: nat)
    requires r < d
    ensures (q * d + r) / d == q
  {
    var n := q * d + r;
    var k, m := n / d, n % d;
    assert n == d * k + m;
    assert d * (k - q) == r - m;
    ZeroFactor(d, k - q);
  }

  /** The only multiple of `d` strictly between `-d` and `d` is 0. */
  lemma ZeroFactor(d: int, e: int)
    requires d >= 1 && -d < d * e < d
    ensures e == 0
  {
  }

  /** `c <= (i + 1/2) / outSize * size + 1/2 < c + 1`: `c` is the pixel
      centre scaled to the atlas, plus one half, truncated. */
  predicate RoundsCentre(c: nat, i: nat, outSize: nat, size: nat) {
    c * (2 * outSize) <= (2 * i + 1) * size + outSize < (c + 1) * (2 * outSize)
  }

  /** The cell `ivec2(vUv * size + .5)` as the shader computes it, for
      output pixel `i` whose centre is `vUv = (i + 1/2) / outSize`. */
  function AtlasCoordinateAsWritten(i: nat, outSize: nat, size: nat): (c: nat)
    requires i < outSize
    ensures RoundsCentre(c, i, outSize, size)
  {
    var n, d := (2 * i + 1) * size + outSize, 2 * outSize;
    FloorBracket(n, d);
    n / d
  }

  /** When the output has at least as many pixels as the atlas along an
      axis, the shader's cell for the last output pixel is `size`, one past
      the last cell of the atlas. */
  lemma {:induction false} AsWrittenLeavesAtlas(outSize: nat, size: nat)
    requires 1 <= size <= outSize
    ensures AtlasCoordinateAsWritten(outSize - 1, outSize, size) == size
  {
    var n := (2 * (outSize - 1) + 1) * size + outSize;
    assert n == size * (2 * outSize) + (outSize - size);
    DivExact(size, 2 * outSize, outSize - size);
  }

  /** At equal sizes the shader reads, for every output pixel, the atlas
      cell one to the right (or above): the result is shifted by a pixel. */
  lemma {:induction false} AsWrittenShiftsByOne(i: nat, size: nat)
    requires i < size
    ensures AtlasCoordinateAsWritten(i, size, size) == i + 1
  {
    var n := (2 * i + 1) * size + size;
    assert n == (i + 1) * (2 * size);
    DivExact(i + 1, 2 * size, 0);
  }

  /** Every atlas cell unpacks to two coordinates inside the source: what
      the jump-flood passes leave in the atlas. */
  ghost predicate WellFormedAtlas(atlas: Grid<AtlasTexel>, source: Grid<Texel>, unpack: Word -> Coord) {
    forall y, x :: 0 <= y < |atlas| && 0 <= x < |atlas[y]| ==>
      InBounds(source, unpack(atlas[y][x].red)) && InBounds(source, unpack(atlas[y][x].green))
  }

  /** The output pixel `(i, j)` reads atlas and source at this cell. */
  function CellOf(i: nat, j: nat, outWidth: nat, outHeight: nat, width: nat, height: nat): (c: Coord)
    requires i < outWidth && j < outHeight
    ensures width >= 1 && height >= 1 ==> 0 <= c.x < width && 0 <= c.y < height
  {
    AtlasCoordinateCell(i, outWidth, width);
    AtlasCoordinateCell(j, outHeight, height);
    Coord(AtlasCoordinate(i, outWidth, width), AtlasCoordinate(j, outHeight, height))
  }

  /** The whole pass over an `outWidth` by `outHeight` target, with the
      `size` uniform set to the `width` by `height` of the source. */
  function Resolve(atlas: Grid<AtlasTexel>, source: Grid<Texel>, unpack: Word -> Coord,
                   width: nat, height: nat, outWidth: nat, outHeight: nat): (out: Grid<Texel>)
    requires width >= 1 && height >= 1
    requires IsRect(atlas, width, height) && IsRect(source, width, height)
    requires WellFormedAtlas(atlas, source, unpack)
    ensures IsRect(out, outWidth, outHeight)
  {
    seq(outHeight, j requires 0 <= j < outHeight =>
      seq(outWidth, i requires 0 <= i < outWidth =>
        ResolvePixel(atlas, source, unpack, CellOf(i, j, outWidth, outHeight, width, height))))
  }

  /** Every output pixel is opaque. */
  lemma ResolveOpaque(atlas: Grid<AtlasTexel>, source: Grid<Texel>, unpack: Word -> Coord,
                      width: nat, height: nat, outWidth: nat, outHeight: nat, i: nat, j: nat)
    requires width >= 1 && height >= 1
    requires IsRect(atlas, width, height) && IsRect(source, width, height)
    requires WellFormedAtlas(atlas, source, unpack)
    requires i < outWidth && j < outHeight
    ensures Resolve(atlas, source, unpack, width, height, outWidth, outHeight)[j][i].a == ChannelMax
  {
  }

  /** Each output pixel takes the colour the atlas names for the class of
      the source pixel at its own cell: the class test and the atlas lookup
      use the same cell. */
  lemma ResolveSelects(atlas: Grid<AtlasTexel>, source: Grid<Texel>, unpack: Word -> Coord,
                       width: nat, height: nat, outWidth: nat, outHeight: nat, i: nat, j: nat)
    requires width >= 1 && height >= 1
    requires IsRect(atlas, width, height) && IsRect(source, width, height)
    requires WellFormedAtlas(atlas, source, unpack)
    requires i < outWidth && j < outHeight
    ensures var c := CellOf(i, j, outWidth, outHeight, width, height);
            var out := Resolve(atlas, source, unpack, width, height, outWidth, outHeight)[j][i];
            (IsForeground(source[c.y][c.x]) ==> SameColor(out, Fetch(source, unpack(atlas[c.y][c.x].red))))
            && (!IsForeground(source[c.y][c.x]) ==> SameColor(out, Fetch(source, unpack(atlas[c.y][c.x].green))))
  {
  }

  /** A pixel depends on nothing but its own atlas cell, the source at
      that cell and the source at the two coordinates the cell unpacks to:
      inputs that agree there give the same pixel. */
  lemma ResolvePixelLocal(atlas: Grid<AtlasTexel>, source: Grid<Texel>,
                          atlas': Grid<AtlasTexel>, source': Grid<Texel>, unpack: Word -> Coord, c: Coord)
    requires Readable(atlas, source, unpack, c) && Readable(atlas', source', unpack, c)
    requires Fetch(atlas, c) == Fetch(atlas', c)
    requires Fetch(source, c) == Fetch(source', c)
    requires Fetch(source, unpack(Fetch(atlas, c).red)) == Fetch(source', unpack(Fetch(atlas, c).red))
    requires Fetch(source, unpack(Fetch(atlas, c).green)) == Fetch(source', unpack(Fetch(atlas, c).green))
    ensures ResolvePixel(atlas, source, unpack, c) == ResolvePixel(atlas', source', unpack, c)
  {
  }
}
