# SDFMaker controller and fill resolve, in Dafny

SDFMaker turns a PNG into a texture for resolution-independent rendering.
This project models two pieces of it:

- **The controller** `SDFMaker` (js/sdfMaker.js) as the class
  `Maker.SdfMaker`. It holds the width, height and radius settings, the
  size of the loaded image, its aspect ratio, and the GPU objects of the
  last generation. Its methods are the three field handlers, image
  loading, the PNG gate of a drop, and `#generate`. `#generate` derives a
  kernel radius in source pixels. It rebuilds the shader only when that
  radius changed, and resizes the render target only when its size
  differs from the requested output size.
- **The fill-mode resolve** in the fragment shader of js/gl/shaderSDF.js
  as the function `ShaderSdf.Resolve`. Each output pixel reads one atlas
  cell and unpacks two coordinates from it. If the source pixel at that
  cell is foreground (alpha above one half), the pixel takes the source
  colour at the first coordinate; otherwise it takes the colour at the
  second. Alpha is always 1.

The arithmetic of the field handlers and of the kernel radius lives in
`Settings` and `Generation`, as functions. The JavaScript does this
arithmetic on floating-point numbers; here it is exact rational
arithmetic on `real`. `Math.round` is `floor(x + 1/2)` and `Math.ceil` is
the least integer not below `x`.

GPU state is abstract:

- a `Program` value records the radius a shader was built for and its
  `size` uniform;
- ghost counters record how many programs were built and freed;
- a ghost log records every pass drawn;
- `Target` records its size and a ghost count of allocations.

`jfaUnpack` belongs to the jump-flood shader, which is not part of this
model. It appears as a function parameter `unpack`, and the atlas is
required to unpack to coordinates inside the source.

Behaviour of the code that is easy to misread:

- Non-integer field input resets the value to 1, not to the field's
  minimum (js/sdfMaker.js:50-51).
- A drop whose item list is empty reads `undefined` as its first item and
  throws a TypeError when it asks for that item's `kind`
  (js/sdfMaker.js:138). It changes nothing (outcome `Faulted`).
- A drop whose first item is not a file, or whose PNG fails to decode,
  is ignored silently.

## Model

| member | source | states |
|---|---|---|
| `Settings.Clamp` | js/sdfMaker.js:53-55 | `Math.min(max, Math.max(min, v))` lies within the bounds when `min <= max`. It is `v` when `v` is inside, `min` when `v` is below, and `max` when `v` is at or above `max` |
| `Settings.ReadField` | js/sdfMaker.js:50-55 | Text that is not an integer gives exactly 1, without clamping to `min`. An integer gives a value within `[min, max]`: the integer itself when it lies inside, `min` when it is at or below `min`, and `max` when it is at or above `max` |
| `Settings.RoundHalfUp` | js/sdfMaker.js:59 | `Math.round(x)` is the integer `n` with `n - 1/2 <= x < n + 1/2` |
| `Settings.Ceil` | js/sdfMaker.js:168-169 | `Math.ceil(x)` is the integer `n` with `x <= n < x + 1` |
| `Settings.HeightForWidth` | js/sdfMaker.js:57-59 | The derived height lies within the height bounds. It is either a bound or the nearest integer to `width / aspect`: `(h - 1/2)·aspect <= width < (h + 1/2)·aspect`. It is `min` (below `max`) only when `width < (min + 1/2)·aspect`, and `max` (above `min`) only when `(max - 1/2)·aspect <= width`, so the result is the rounded quotient clamped to the bounds |
| `Settings.WidthForHeight` | js/sdfMaker.js:73-75 | The derived width lies within the width bounds. It is either a bound or the nearest integer to `height · aspect`. It is `min` (below `max`) only when `height · aspect < min + 1/2`, and `max` (above `min`) only when `max - 1/2 <= height · aspect`, so the result is the rounded product clamped to the bounds |
| `Settings.ReadFieldWriteBack` | js/sdfMaker.js:50-62 | Re-reading the value a handler wrote back gives the same value, when the input was an integer or 1 lies within the bounds |
| `Settings.ReadFieldResetNotStable` | js/sdfMaker.js:50-51 | When `min > 1`, the 1 that non-integer text is reset to reads back as `min` |
| `Settings.WidthHeightWidth` | js/sdfMaker.js:57-59 | For `aspect <= 1` and no clamping, deriving the height from a width and then the width from that height gives the original width |
| `Settings.HeightWidthHeight` | js/sdfMaker.js:73-75 | For `aspect >= 1` and no clamping, deriving the width from a height and then the height from that width gives the original height |
| `Settings.LoadedSizeConsistent` | js/sdfMaker.js:108-112 | With the aspect `width/height` of a loaded image, the image's own width derives its own height, and its height derives its width, when both lie within the bounds |
| `Generation.KernelRadius` | js/sdfMaker.js:167-169 | `k = max(ceil(r·iw/ow), ceil(r·ih/oh))` satisfies `k·ow >= r·iw` and `k·oh >= r·ih` |
| `Generation.CeilCovers` | js/sdfMaker.js:168 | `ceil(r·(i/o))` is the least integer `c` with `c·o >= r·i` |
| `Generation.KernelRadiusIsLeast` | js/sdfMaker.js:167-169 | Every `k` that covers both axes is at least the kernel radius, so the kernel radius is the least covering radius |
| `Generation.KernelRadiusPositive` | js/sdfMaker.js:167-171 | When the radius and all sizes are positive, the kernel radius is at least 1. So it never equals the initial sentinel -1 |
| `Generation.KernelRadiusCoversRadius` | js/sdfMaker.js:167-169 | When the output is no wider than the input, the kernel radius is at least the user's radius |
| `Generation.KernelRadiusExample` | js/sdfMaker.js:167-169 | A 64x64 source at 16x16 output with radius 2 gives kernel radius 8 |
| `Maker.KernelRadiusExampleUnit` | js/sdfMaker.js:14-18 | The initial 1x1 state with radius 1 gives kernel radius 1 |
| `Maker.Target.SetSize` | js/sdfMaker.js:180 | The target takes the new size, and its allocation count goes up by one |
| `Maker.SdfMaker.constructor` | js/sdfMaker.js:13-21 | Starts with aspect 1, radius 1 (also shown in the radius field), 1x1 input and output, no shader, shader radius -1, and a target that was never allocated |
| `Maker.SdfMaker.OnWidthInput` | js/sdfMaker.js:49-63 | The width becomes the field reading and the height is derived from it. Both fields show the stored values. Radius, aspect, input size and GPU state are unchanged, and the invariant holds |
| `Maker.SdfMaker.OnHeightInput` | js/sdfMaker.js:65-79 | The height becomes the field reading and the width is derived from it. Both fields show the stored values. Nothing else changes |
| `Maker.SdfMaker.OnRadiusInput` | js/sdfMaker.js:81-90 | The radius becomes the field reading and the radius field shows it. No size, dimension field or GPU state changes |
| `Maker.SdfMaker.LoadImage` | js/sdfMaker.js:108-112 | Input and output size become the image's size, the aspect becomes `width/height`, and the two fields show that size. Radius and GPU state are unchanged |
| `Maker.SdfMaker.OnDrop` | js/sdfMaker.js:132-159 | A drop loads (outcome `Loaded`) exactly when its first item is a PNG file that decodes, and then the state is the loaded image's. It is `Rejected` exactly when the first item is a file of another type. It is `Faulted` exactly when the item list is empty. Every outcome other than `Loaded` leaves sizes, aspect and fields unchanged |
| `Maker.SdfMaker.UpdateShader` | js/sdfMaker.js:161-164 | Builds one new program for `shaderRadius`, and frees the old program when there was one |
| `Maker.SdfMaker.Generate` | js/sdfMaker.js:166-185 | Afterwards `shaderRadius` equals the kernel radius. The shader is rebuilt, and the old one freed, exactly when the two differed. Its `size` uniform is the input size. The target has the output size and was reallocated exactly when its size differed. One pass is appended, and the settings are unchanged |
| `Maker.GenerateTwice` | js/sdfMaker.js:171-180 | Two `generate` calls in a row build and allocate exactly as much as the first one alone, and they draw the same pass twice |
| `Maker.FirstGenerate` | js/sdfMaker.js:171-175 | The first `generate` after construction always builds a shader, because the initial sentinel -1 (js/sdfMaker.js line 20) is never a kernel radius |
| `ShaderSdf.ResolvePixel` | js/gl/shaderSDF.js:19-30 | The output alpha is exactly 1. A foreground source texel at the cell (alpha > 1/2) gives the source RGB at the red-channel coordinate. Any other texel (alpha 127 or below) gives the RGB at the green-channel coordinate |
| `ShaderSdf.AtlasCoordinateAsWritten` | js/gl/shaderSDF.js:18 | `ivec2(vUv·size + .5)` for the pixel centre `vUv = (i+1/2)/outSize`: the cell is the scaled centre plus one half, truncated (`c <= vUv·size + 1/2 < c + 1`) |
| `ShaderSdf.AtlasCoordinateCell` | js/gl/shaderSDF.js:18 | Corrected cell mapping `floor(vUv·size)` (`ShaderSdf.AtlasCoordinate`). The cell contains the pixel centre, lies inside the atlas, and is the pixel itself when the sizes are equal |
| `ShaderSdf.CoversCentreUnique` | js/gl/shaderSDF.js:18 | Only one cell contains a pixel centre, so `AtlasCoordinate` is determined by that property |
| `ShaderSdf.AsWrittenLeavesAtlas` | js/gl/shaderSDF.js:18 | As written, `ivec2(vUv·size + .5)` maps the last output pixel to cell `size`, one past the atlas, whenever the output is at least as large as the atlas along that axis |
| `ShaderSdf.AsWrittenShiftsByOne` | js/gl/shaderSDF.js:18 | As written, at equal sizes every output pixel `i` reads cell `i + 1` |
| `ShaderSdf.CellOf` | js/gl/shaderSDF.js:18 | The cell an output pixel reads is inside the source |
| `ShaderSdf.Resolve` | js/gl/shaderSDF.js:16-31 | The pass yields an `outWidth` by `outHeight` grid |
| `ShaderSdf.ResolveOpaque` | js/gl/shaderSDF.js:28-30 | Every output pixel has alpha exactly 1 |
| `ShaderSdf.ResolveSelects` | js/gl/shaderSDF.js:18-30 | Each output pixel takes the colour that its own cell's atlas entry names for the class of the source at that same cell |
| `ShaderSdf.ResolvePixelLocal` | js/gl/shaderSDF.js:16-31 | A pixel depends only on its atlas cell, the source at that cell, and the source at the two unpacked coordinates |

## Findings

| source | as written | input that shows it | evidently intended | confidence | as-written member | corrected member |
|---|---|---|---|---|---|---|
| js/gl/shaderSDF.js:18 | `atlasCoordinate = ivec2(vUv * vec2(size) + .5)` rounds the scaled pixel centre instead of truncating it | output width equal to the source width (the default right after loading an image), pixel `i`: centre `vUv = (i + .5)/w` gives cell `i + 1`, and the last pixel reads cell `w`, outside the atlas and the source | `ivec2(vUv * vec2(size))`, the cell that contains the pixel centre | medium, not executed; it assumes the vertex shader in js/gl/shader.js, which is not part of this model, passes `vUv` running from 0 to 1 across the quad | `ShaderSdf.AsWrittenLeavesAtlas` | `ShaderSdf.AtlasCoordinateCell` |

`ShaderSdf.Resolve` uses the corrected mapping. `ShaderSdf.AsWrittenShiftsByOne`
shows the one-pixel shift at equal sizes.

## Left out

- DOM wiring: the drag-over hover class, the `disabled` flags, the info text and the drop handler's `preventDefault` (js/sdfMaker.js:30-47, 102-106). They are UI only.
- The `FileReader` and `Image` callbacks (js/sdfMaker.js:142-154). They are asynchronous I/O. The source defers the load to `reader.onload` and then `image.onload` (js/sdfMaker.js:144-151), so a field edit, a `generate` click or a second drop can run before it, and two quick drops can load in either order. `OnDrop` takes the decoded image as part of the drop and loads it at once; those interleavings are not captured.
- The `alert` text. It is the `Rejected` outcome.
- The preview canvas scaling and drawing in `#loadImage` (js/sdfMaker.js:114-129). This is floating-point drawing.
- All WebGL calls: compiling, `free`, `uniform1i`/`uniform2ui`, `Target.bind` and `gl.drawArrays` (js/sdfMaker.js:177-184, js/gl/shaderSDF.js:36-49). They appear only as `Program` values, counters and the pass log. js/gl/shader.js, js/gl/target.js and js/gl/gl.js are not part of this model.
- The target's initial size. `Target`'s constructor leaves it unspecified.
- `jfaUnpack`, `SHADER_PACK`, the jump-flood passes, the distance mode and any brute-force kernel. js/gl/shaderJFA.js is not part of this model.
- The `ShaderSDF` constructor ignores its `radius` argument (js/gl/shaderSDF.js:36-37), so the program is the same for every radius. `Program.radius` records the argument only to state when a rebuild happens.
- Floating point. Aspect, `Math.round` and `Math.ceil` on float quotients, and the `vUv * size + .5` mapping are exact rational arithmetic here. The float results can differ at ties and near integers. For example, with radius 7, input size 29 and output size 7, double-precision `Math.ceil(7 * (29 / 7))` is 30, while the exact value, and `KernelRadius`, is 29. On such inputs `KernelRadiusIsLeast` describes the model, not the program.
- Field text on which `parseFloat` and `parseInt` disagree, such as exponent or hexadecimal forms (`"1e3"`, `"0x10"`). `FieldInput` carries one number for both.
- `Maker.SdfMaker.constructor` requires `1 <= min <= max` on all three fields. The page that sets these bounds is not part of this model. With a minimum of 0, the source could divide by a zero output size. A radius of -1 with equal input and output sizes gives a kernel radius of exactly -1, the initial sentinel, so the shader is never built and `this.#shader.setSize` on `null` (js/sdfMaker.js:177) throws a TypeError.
- Texel channels are integers from 0 to 255. The output format of the render target is not known, so opaque alpha is written as 255.
- GPU parallelism. `Resolve` applies `ResolvePixel` to each cell independently.
