/** The controller of the page (js/sdfMaker.js): it holds the settings
    read from the width, height and radius fields, the size of the loaded
    image, and the GPU objects of the last generation, and it decides when
    the shader must be rebuilt and when the render target must be resized. */
module Maker {
  import opened Settings
  import opened Generation

  datatype Option<T> = None | Some(value: T)

  /** A positive pixel count: a decoded PNG is never empty. */
  type Dimension = n: int | n >= 1 witness 1

  /** The browser's decoded `Image`: only its size is used here. */
  datatype Image = Image(width: Dimension, height: Dimension)

  /** A dropped file: its MIME type and the image the browser decodes it
      to once it has been read (`None` when decoding fails, so that the
      image's `onload` never fires). */
  datatype DroppedFile = DroppedFile(mimeType: string, decoded: Option<Image>)

  /** An entry of `dataTransfer.items`: a file, or data of another kind. */
  datatype DropItem = FileItem(file: DroppedFile) | OtherItem

  /** A drop event: its `dataTransfer.items`, absent in browsers without it. */
  datatype Drop = Drop(items: Option<seq<DropItem>>)

  /** What a drop did: nothing, a rejection alert, a load, or a TypeError
      from reading the first entry of an empty item list. */
  datatype DropOutcome = Ignored | Rejected | Loaded | Faulted

  /** The image a drop loads: the decoded first item when it is a PNG file. */
  function AcceptedImage(drop: Drop): Option<Image> {
    if drop.items.Some? && |drop.items.value| > 0 && drop.items.value[0].FileItem?
       && drop.items.value[0].file.mimeType == "image/png"
    then drop.items.value[0].file.decoded
    else None
  }

  /** The first item is a file of any type other than PNG. */
  predicate RejectedType(drop: Drop) {
    drop.items.Some? && |drop.items.value| > 0 && drop.items.value[0].FileItem?
    && drop.items.value[0].file.mimeType != "image/png"
  }

  /** A compiled `ShaderSDF`: the radius it was built for and the value of
      its `size` uniform. */
  datatype Program = Program(radius: int, sizeWidth: int, sizeHeight: int)

  /** One draw of the full-screen quad: the program used and the size of
      the target it filled. */
  datatype Pass = Pass(program: Program, width: int, height: int)

  /** The render target (js/gl/target.js is not part of this model): its
      size and, as a ghost counter, how often its storage was allocated. */
  class Target {
    var width: int
    var height: int
    ghost var allocations: nat

    /** A new target has not been allocated; its initial size is left open. */
    constructor ()
      ensures allocations == 0
    {
      allocations := 0;
    }

    /** `setSize`: reallocates the storage at the new size. */
    method SetSize(w: int, h: int)
      modifies this
      ensures width == w && height == h
      ensures allocations == old(allocations) + 1
    {
      width, height := w, h;
      allocations := allocations + 1;
    }
  }

  class SdfMaker {
    /** The `min`/`max` attributes of the three fields. */
    const widthBounds: Bounds
    const heightBounds: Bounds
    const radiusBounds: Bounds

    /** The values the three fields show. */
    var widthValue: FieldInput
    var heightValue: FieldInput
    var radiusValue: FieldInput

    var aspect: real
    var radius: int
    var inputWidth: int
    var inputHeight: int
    var outputWidth: int
    var outputHeight: int
    var shader: Option<Program>
    var shaderRadius: int
    const target: Target

    /** How many programs were built and how many freed. */
    ghost var shaderBuilds: nat
    ghost var shaderFrees: nat
    /** Every draw so far, oldest first. */
    ghost var passes: seq<Pass>

    ghost predicate Valid()
      reads this
    {
      && 1 <= widthBounds.min <= widthBounds.max
      && 1 <= heightBounds.min <= heightBounds.max
      && 1 <= radiusBounds.min <= radiusBounds.max
      && inputWidth >= 1 && inputHeight >= 1
      && aspect == inputWidth as real / inputHeight as real
      && outputWidth >= 1 && outputHeight >= 1
      && radius >= 1
      // `shaderRadius` is the sentinel -1 exactly until the first build,
      // and afterwards the radius the live program was built for
      && (shader.None? <==> shaderRadius == -1)
      && (shader.Some? ==> shader.value.radius == shaderRadius)
      // every program but the live one has been freed
      && shaderBuilds == shaderFrees + (if shader.Some? then 1 else 0)
    }

    /** The state before any image is loaded: a 1x1 source, radius 1, no
      shader and the radius sentinel -1. The page's fields are assumed to
      have `1 <= min <= max`. */
    constructor (widthBounds: Bounds, heightBounds: Bounds, radiusBounds: Bounds)
      requires 1 <= widthBounds.min <= widthBounds.max
      requires 1 <= heightBounds.min <= heightBounds.max
      requires 1 <= radiusBounds.min <= radiusBounds.max
      ensures Valid() && fresh(target)
      ensures this.widthBounds == widthBounds && this.heightBounds == heightBounds
      ensures this.radiusBounds == radiusBounds
      ensures aspect == 1.0 && radius == 1 && radiusValue == Numeric(1.0)
      ensures inputWidth == 1 && inputHeight == 1 && outputWidth == 1 && outputHeight == 1
      ensures shader == None && shaderRadius == -1
      ensures shaderBuilds == 0 && passes == [] && target.allocations == 0
    {
      this.widthBounds, this.heightBounds, this.radiusBounds := widthBounds, heightBounds, radiusBounds;
      aspect, radius := 1.0, 1;
      inputWidth, inputHeight, outputWidth, outputHeight := 1, 1, 1, 1;
      shader, shaderRadius := None, -1;
      target := new Target();
      radiusValue := Numeric(1.0);
      shaderBuilds, shaderFrees, passes := 0, 0, [];
    }

    /** The width field's `oninput`: read the width, derive the height from
      the aspect ratio, and write both back to the fields. */
    method OnWidthInput(typed: FieldInput)
      requires Valid()
      modifies this
      ensures Valid()
      ensures outputWidth == ReadField(typed, widthBounds)
      ensures outputHeight == HeightForWidth(outputWidth, aspect, heightBounds)
      ensures widthValue == Numeric(outputWidth as real) && heightValue == Numeric(outputHeight as real)
      ensures radius == old(radius) && radiusValue == old(radiusValue) && aspect == old(aspect)
      ensures inputWidth == old(inputWidth) && inputHeight == old(inputHeight)
      ensures shader == old(shader) && shaderRadius == old(shaderRadius)
      ensures shaderBuilds == old(shaderBuilds) && shaderFrees == old(shaderFrees) && passes == old(passes)
    {
      outputWidth := ReadField(typed, widthBounds);
      outputHeight := HeightForWidth(outputWidth, aspect, heightBounds);
      widthValue := Numeric(outputWidth as real);
      heightValue := Numeric(outputHeight as real);
    }

    /** The height field's `oninput`: read the height, derive the width
      from the aspect ratio, and write both back to the fields. */
    method OnHeightInput(typed: FieldInput)
      requires Valid()
      modifies this
      ensures Valid()
      ensures outputHeight == ReadField(typed, heightBounds)
      ensures outputWidth == WidthForHeight(outputHeight, aspect, widthBounds)
      ensures widthValue == Numeric(outputWidth as real) && heightValue == Numeric(outputHeight as real)
      ensures radius == old(radius) && radiusValue == old(radiusValue) && aspect == old(aspect)
      ensures inputWidth == old(inputWidth) && inputHeight == old(inputHeight)
      ensures shader == old(shader) && shaderRadius == old(shaderRadius)
      ensures shaderBuilds == old(shaderBuilds) && shaderFrees == old(shaderFrees) && passes == old(passes)
    {
      outputHeight := ReadField(typed, heightBounds);
      outputWidth := WidthForHeight(outputHeight, aspect, widthBounds);
      widthValue := Numeric(outputWidth as real);
      heightValue := Numeric(outputHeight as real);
    }

    /** The radius field's `oninput`: read the radius and write it back;
      no size changes. */
    method OnRadiusInput(typed: FieldInput)
      requires Valid()
      modifies this
      ensures Valid()
      ensures radius == ReadField(typed, radiusBounds)
      ensures radiusValue == Numeric(radius as real)
      ensures widthValue == old(widthValue) && heightValue == old(heightValue) && aspect == old(aspect)
      ensures inputWidth == old(inputWidth) && inputHeight == old(inputHeight)
      ensures outputWidth == old(outputWidth) && outputHeight == old(outputHeight)
      ensures shader == old(shader) && shaderRadius == old(shaderRadius)
      ensures shaderBuilds == old(shaderBuilds) && shaderFrees == old(shaderFrees) && passes == old(passes)
    {
      radius := ReadField(typed, radiusBounds);
      radiusValue := Numeric(radius as real);
    }

    /** `#loadImage`: the fields show the image's size, and the input and
      output sizes and the aspect ratio are reset to it. */
    method LoadImage(image: Image)
      requires Valid()
      modifies this
      ensures Valid()
      ensures widthValue == Numeric(image.width as real) && heightValue == Numeric(image.height as real)
      ensures aspect == image.width as real / image.height as real
      ensures inputWidth == outputWidth == image.width
      ensures inputHeight == outputHeight == image.height
      ensures radius == old(radius) && radiusValue == old(radiusValue)
      ensures shader == old(shader) && shaderRadius == old(shaderRadius)
      ensures shaderBuilds == old(shaderBuilds) && shaderFrees == old(shaderFrees) && passes == old(passes)
    {
      widthValue := Numeric(image.width as real);
      heightValue := Numeric(image.height as real);
      aspect := image.width as real / image.height as real;
      inputWidth, outputWidth := image.width, image.width;
      inputHeight, outputHeight := image.height, image.height;
    }

    /** `#onDrop`: only a PNG file is loaded; any other file raises the
      rejection alert; nothing else changes the state. Reading and decoding
      the file happen in between, here as the drop's decoded image. */
    method OnDrop(drop: Drop) returns (outcome: DropOutcome)
      requires Valid()
      modifies this
      ensures Valid()
      ensures outcome == Loaded <==> AcceptedImage(drop).Some?
      ensures outcome == Rejected <==> RejectedType(drop)
      ensures outcome == Faulted <==> drop.items == Some([])
      ensures outcome == Loaded ==>
        && inputWidth == outputWidth == AcceptedImage(drop).value.width
        && inputHeight == outputHeight == AcceptedImage(drop).value.height
        && aspect == inputWidth as real / inputHeight as real
        && widthValue == Numeric(inputWidth as real) && heightValue == Numeric(inputHeight as real)
      ensures outcome != Loaded ==>
        && widthValue == old(widthValue) && heightValue == old(heightValue) && aspect == old(aspect)
        && inputWidth == old(inputWidth) && inputHeight == old(inputHeight)
        && outputWidth == old(outputWidth) && outputHeight == old(outputHeight)
      ensures radius == old(radius) && radiusValue == old(radiusValue)
      ensures shader == old(shader) && shaderRadius == old(shaderRadius)
      ensures shaderBuilds == old(shaderBuilds) && shaderFrees == old(shaderFrees) && passes == old(passes)
    {
      if drop.items.None? {
        return Ignored;
      }
      var items := drop.items.value;
      if |items| == 0 {
        return Faulted;
      }
      var item := items[0];
      if item.FileItem? {
        if item.file.mimeType == "image/png" {
          if item.file.decoded.Some? {
            LoadImage(item.file.decoded.value);
            return Loaded;
          }
          return Ignored;
        } else {
          return Rejected;
        }
      }
      return Ignored;
    }

    /** `#updateShader`: free the old program, if any, and build a new one
      for `shaderRadius`; a new program's uniforms start at zero. */
    method UpdateShader()
      modifies this
      ensures shader == Some(Program(shaderRadius, 0, 0))
      ensures shaderBuilds == old(shaderBuilds) + 1
      ensures shaderFrees == old(shaderFrees) + (if old(shader).Some? then 1 else 0)
      ensures shaderRadius == old(shaderRadius) && passes == old(passes)
      ensures widthValue == old(widthValue) && heightValue == old(heightValue) && radiusValue == old(radiusValue)
      ensures aspect == old(aspect) && radius == old(radius)
      ensures inputWidth == old(inputWidth) && inputHeight == old(inputHeight)
      ensures outputWidth == old(outputWidth) && outputHeight == old(outputHeight)
    {
      if shader.Some? {
        shaderFrees := shaderFrees + 1;
      }
      shader := Some(Program(shaderRadius, 0, 0));
      shaderBuilds := shaderBuilds + 1;
    }

    /** `#generate`: derive the kernel radius, rebuild the shader only when
      that radius changed, set its `size` uniform to the source size,
      resize the target only when its size differs from the output size,
      and draw one pass. */
    method Generate()
      requires Valid()
      modifies this, target
      ensures Valid()
      ensures shaderRadius == KernelRadius(radius, inputWidth, inputHeight, outputWidth, outputHeight)
      ensures shader == Some(Program(shaderRadius, inputWidth, inputHeight))
      ensures shaderBuilds == old(shaderBuilds) + (if old(shaderRadius) == shaderRadius then 0 else 1)
      ensures shaderFrees == old(shaderFrees) + (if old(shaderRadius) == shaderRadius || old(shader).None? then 0 else 1)
      ensures target.width == outputWidth && target.height == outputHeight
      ensures target.allocations == old(target.allocations)
        + (if old(target.width) == outputWidth && old(target.height) == outputHeight then 0 else 1)
      ensures passes == old(passes) + [Pass(shader.value, outputWidth, outputHeight)]
      ensures widthValue == old(widthValue) && heightValue == old(heightValue) && radiusValue == old(radiusValue)
      ensures aspect == old(aspect) && radius == old(radius)
      ensures inputWidth == old(inputWidth) && inputHeight == old(inputHeight)
      ensures outputWidth == old(outputWidth) && outputHeight == old(outputHeight)
    {
      var kernelRadius := KernelRadius(radius, inputWidth, inputHeight, outputWidth, outputHeight);
      KernelRadiusPositive(radius, inputWidth, inputHeight, outputWidth, outputHeight);

      if shaderRadius != kernelRadius {
        shaderRadius := kernelRadius;
        UpdateShader();
      }

      shader := Some(shader.value.(sizeWidth := inputWidth, sizeHeight := inputHeight));

      if outputWidth != target.width || outputHeight != target.height {
        target.SetSize(outputWidth, outputHeight);
      }

      passes := passes + [Pass(shader.value, target.width, target.height)];
    }
  }

  /** A second `generate` with unchanged settings rebuilds nothing and
    reallocates nothing: two calls cost what one does, and draw the same
    pass twice. */
  method GenerateTwice(m: SdfMaker)
    requires m.Valid()
    modifies m, m.target
    ensures m.Valid()
    ensures m.shaderBuilds == old(m.shaderBuilds) + (if old(m.shaderRadius) == m.shaderRadius then 0 else 1)
    ensures m.target.allocations == old(m.target.allocations)
      + (if old(m.target.width) == m.outputWidth && old(m.target.height) == m.outputHeight then 0 else 1)
    ensures |m.passes| == |old(m.passes)| + 2 && m.passes[|m.passes| - 1] == m.passes[|m.passes| - 2]
  {
    m.Generate();
    m.Generate();
  }

  /** The first `generate` after construction always builds the shader,
    because the sentinel -1 is never a kernel radius. */
  method FirstGenerate(widthBounds: Bounds, heightBounds: Bounds, radiusBounds: Bounds) returns (m: SdfMaker)
    requires 1 <= widthBounds.min <= widthBounds.max
    requires 1 <= heightBounds.min <= heightBounds.max
    requires 1 <= radiusBounds.min <= radiusBounds.max
    ensures m.Valid()
    ensures m.shaderBuilds == 1 && m.shaderFrees == 0 && m.shaderRadius == 1
    ensures m.target.width == 1 && m.target.height == 1
    ensures |m.passes| == 1 && m.passes[0] == Pass(Program(1, 1, 1), 1, 1)
  {
    m := new SdfMaker(widthBounds, heightBounds, radiusBounds);
    m.Generate();
    KernelRadiusExampleUnit();
  }

  /** At the initial 1x1 state with radius 1 the kernel radius is 1. */
  lemma KernelRadiusExampleUnit()
    ensures KernelRadius(1, 1, 1, 1, 1) == 1
  {
    CeilCovers(1, 1, 1);
  }
}
