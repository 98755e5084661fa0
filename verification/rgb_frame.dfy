/**
 RgbFrame: loading a frame and filling camera buffers from it. Coordinates are mapped
 over the reals.
 */
module RgbFrames {
  import opened Bytes
  import opened FrameFormat
  import opened FrameStores
  import opened YuvLayouts

  datatype Transform = Transform(rotation: int, scale: real, centerX: real, centerY: real)

  const DEFAULT := Transform(0, 1.0, 0.5, 0.5)

  datatype Point = Nowhere | At(x: nat, y: nat)

  datatype Yuv = Yuv(y: byte, cb: byte, cr: byte)

  function Max(a: real, b: real): real { if a > b then a else b }
  function Min(a: real, b: real): real { if a < b then a else b }

  // ---------------------------------------------------------------------------
  // Mapping a target pixel to a source pixel
  // ---------------------------------------------------------------------------

  /** The target rotated: its dimensions and the coordinates in it. */
  datatype Logical = Logical(width: nat, height: nat, x: nat, y: nat)

  function Rotated(width: nat, height: nat, x: nat, y: nat, rotation: int): Logical
    requires x < width && y < height
  {
    if rotation == -90 || rotation == 270 then Logical(height, width, height - 1 - y, x)
    else if rotation == 90 || rotation == -270 then Logical(height, width, y, width - 1 - x)
    else if rotation == 180 || rotation == -180 then Logical(width, height, width - 1 - x, height - 1 - y)
    else Logical(width, height, x, y)
  }

  /** Rotating a target and rotating it back: the same pixel of the same target. */
  lemma RotationsUndo(width: nat, height: nat, x: nat, y: nat, rotation: int)
    requires x < width && y < height
    ensures var l := Rotated(width, height, x, y, rotation);
            && l.x < l.width && l.y < l.height
            && Rotated(l.width, l.height, l.x, l.y, -rotation) == Logical(width, height, x, y)
  {
  }

  /** The crop along one axis: where it starts in the source. */
  function CropStart(center: real, size: nat, crop: real): real {
    var start := Max(0.0, Min(1.0, center)) * size as real - crop / 2.0;
    if crop <= size as real then Max(0.0, Min(start, size as real - crop)) else start
  }

  /** The cropped width and height before scaling: the target's shape inside the source. */
  function Crop(width: nat, height: nat, l: Logical): (real, real)
    requires l.width > 0 && l.height > 0
  {
    if width * l.height > l.width * height
    then (Max(1.0, height as real * l.width as real / l.height as real), height as real)
    else (width as real, Max(1.0, width as real * l.height as real / l.width as real))
  }

  /** The sampled coordinate along one axis. */
  function Sampled(center: real, size: nat, crop: real, at: nat, target: nat): real
    requires target > 0
  {
    CropStart(center, size, crop) + at as real * crop / target as real
  }

  function Scaled(crop: real, scale: real): real {
    Max(1.0, crop / Max(0.1, Min(8.0, scale)))
  }

  /** The pixel a sampled point lies in, if it lies in the source. */
  function Place(x: real, y: real, width: nat, height: nat): Point {
    if x < 0.0 || y < 0.0 || x >= width as real || y >= height as real then Nowhere else At(x.Floor, y.Floor)
  }

  /** mapCoordinate. */
  function Mapped(width: nat, height: nat, targetWidth: nat, targetHeight: nat, x: nat, y: nat, t: Transform): Point
    requires x < targetWidth && y < targetHeight
  {
    var l := Rotated(targetWidth, targetHeight, x, y, t.rotation);
    var crop := Crop(width, height, l);
    Place(Sampled(t.centerX, width, Scaled(crop.0, t.scale), l.x, l.width),
          Sampled(t.centerY, height, Scaled(crop.1, t.scale), l.y, l.height), width, height)
  }

  /** Whatever the transform, a mapped pixel lies in the source. */
  lemma MappedIsInside(width: nat, height: nat, targetWidth: nat, targetHeight: nat, x: nat, y: nat, t: Transform)
    requires x < targetWidth && y < targetHeight
    ensures var p := Mapped(width, height, targetWidth, targetHeight, x, y, t); p.At? ==> p.x < width && p.y < height
  {
  }

  lemma ProductSign(a: real, b: real)
    requires b > 0.0
    ensures (a * b > 0.0 <==> a > 0.0) && (a * b == 0.0 <==> a == 0.0)
  {
  }

  lemma QuotientBelow(a: real, b: real, c: real)
    requires b > 0.0
    ensures (a / b <= c <==> a <= c * b) && (a / b < c <==> a < c * b)
  {
    ProductSign(a / b - c, b);
    assert (a / b - c) * b == a - c * b;
  }

  lemma CropStartIsInside(center: real, size: nat, crop: real)
    requires crop <= size as real
    ensures 0.0 <= CropStart(center, size, crop) <= size as real - crop
  {
  }

  /** The share of a crop before the pixel. */
  lemma ShareIsInside(crop: real, at: nat, target: nat)
    requires at < target && crop > 0.0
    ensures 0.0 <= at as real * crop / target as real < crop
  {
    var a, n := at as real, target as real;
    ProductSign(a, crop);
    ProductSign(n - a, crop);
    QuotientBelow(a * crop, n, crop);
    QuotientBelow(a * crop, n, 0.0);
  }

  /** A crop no larger than the source, along one axis, is sampled inside the source. */
  lemma AxisIsInside(center: real, size: nat, crop: real, at: nat, target: nat)
    requires at < target && 0.0 < crop <= size as real
    ensures 0.0 <= Sampled(center, size, crop, at, target) < size as real
  {
    CropStartIsInside(center, size, crop);
    ShareIsInside(crop, at, target);
  }

  lemma CropFits(width: nat, height: nat, l: Logical)
    requires width > 0 && height > 0 && l.width > 0 && l.height > 0
    ensures 0.0 < Crop(width, height, l).0 <= width as real && 0.0 < Crop(width, height, l).1 <= height as real
  {
    var w, h, lw, lh := width as real, height as real, l.width as real, l.height as real;
    assert (width * l.height) as real == w * lh && (l.width * height) as real == lw * h;
    if width * l.height > l.width * height {
      QuotientBelow(h * lw, lh, w);
    } else {
      QuotientBelow(w * lh, lw, h);
    }
  }

  lemma ScaledFits(crop: real, scale: real, size: nat)
    requires scale >= 1.0 && 0.0 < crop <= size as real && size > 0
    ensures 0.0 < Scaled(crop, scale) <= size as real
  {
    var s := Max(0.1, Min(8.0, scale));
    ProductSign(s - 1.0, crop);
    QuotientBelow(crop, s, crop);
  }

  /** Without zooming out, every target pixel shows some source pixel, whatever the rotation and centre. */
  lemma ZoomedInIsCovered(width: nat, height: nat, targetWidth: nat, targetHeight: nat, x: nat, y: nat, t: Transform)
    requires width > 0 && height > 0 && x < targetWidth && y < targetHeight && t.scale >= 1.0
    ensures Mapped(width, height, targetWidth, targetHeight, x, y, t).At?
  {
    var l := Rotated(targetWidth, targetHeight, x, y, t.rotation);
    var crop := Crop(width, height, l);
    CropFits(width, height, l);
    ScaledFits(crop.0, t.scale, width);
    ScaledFits(crop.1, t.scale, height);
    AxisIsInside(t.centerX, width, Scaled(crop.0, t.scale), l.x, l.width);
    AxisIsInside(t.centerY, height, Scaled(crop.1, t.scale), l.y, l.height);
  }

  lemma DivideBack(a: real, b: real)
    requires b != 0.0
    ensures a * b / b == a
  {
  }

  lemma CropIsWhole(width: nat, height: nat, x: nat, y: nat)
    requires width > 0 && height > 0
    ensures Crop(width, height, Logical(width, height, x, y)) == (width as real, height as real)
  {
    var w, h := width as real, height as real;
    assert w * h == h * w;
    DivideBack(h, w);
  }

  lemma SampledIsSelf(size: nat, at: nat)
    requires at < size
    ensures Scaled(size as real, 1.0) == size as real
    ensures Sampled(0.5, size, size as real, at, size) == at as real
  {
    DivideBack(at as real, size as real);
    assert CropStart(0.5, size, size as real) == 0.0;
  }

  lemma PlaceIsExact(x: nat, y: nat, width: nat, height: nat)
    requires x < width && y < height
    ensures Place(x as real, y as real, width, height) == At(x, y)
  {
  }

  /** The default transform at the source's own size is the identity. */
  lemma DefaultIsIdentity(width: nat, height: nat, x: nat, y: nat)
    requires x < width && y < height
    ensures Mapped(width, height, width, height, x, y, DEFAULT) == At(x, y)
  {
    CropIsWhole(width, height, x, y);
    SampledIsSelf(width, x);
    SampledIsSelf(height, y);
    PlaceIsExact(x, y, width, height);
  }

  // ---------------------------------------------------------------------------
  // Sampling
  // ---------------------------------------------------------------------------

  /** A frame with pixels, as loading leaves it. */
  predicate ValidFrame(f: Frame) {
    && !f.format.NoFormat? && ValidDimensions(f.width, f.height)
    && |f.pixels| == ExpectedPayload(f.format, f.width, f.height) && f.pixels != []
  }

  lemma ShownIsValid(bytes: seq<byte>)
    requires Shown(bytes)
    ensures ValidFrame(Loaded(bytes))
  {
  }

  /** A coordinate inside gives an index inside. */
  lemma {:induction false} IndexIsInside(width: nat, height: nat, x: nat, y: nat)
    requires x < width && y < height
    ensures y * width + x < width * height
  {
    MultiplyStep(y, height, width);
    assert height * width == width * height;
  }

  /** The chroma planes of an even-sized picture are a quarter of its size each. */
  lemma ChromaSize(width: nat, height: nat)
    requires width % 2 == 0 && height % 2 == 0
    ensures (width / 2) * (height / 2) == width * height / 4
    ensures width * height + width * height / 2 == width * height + 2 * ((width / 2) * (height / 2))
  {
    var a, b := width / 2, height / 2;
    assert width * height == 4 * (a * b) by {
      assert width == 2 * a && height == 2 * b;
      assert (2 * a) * (2 * b) == 4 * (a * b);
    }
  }

  /** Offsets of the three reads of a pixel in an I420 payload. */
  function LumaOffset(f: Frame, x: nat, y: nat): nat { y * f.width + x }
  function ChromaOffset(f: Frame, x: nat, y: nat): nat { (y / 2) * (f.width / 2) + x / 2 }
  function LumaSize(f: Frame): nat { f.width * f.height }

  /** Every I420 read of sampleYuv is in bounds. */
  lemma PlanarReadsInside(f: Frame, x: nat, y: nat)
    requires ValidFrame(f) && f.format == I420 && x < f.width && y < f.height
    ensures LumaOffset(f, x, y) < |f.pixels|
    ensures LumaSize(f) + ChromaOffset(f, x, y) < |f.pixels|
    ensures LumaSize(f) + LumaSize(f) / 4 + ChromaOffset(f, x, y) < |f.pixels|
  {
    if f.width % 2 == 0 && f.height % 2 == 0 {
      IndexIsInside(f.width, f.height, x, y);
      IndexIsInside(f.width / 2, f.height / 2, x / 2, y / 2);
      ChromaSize(f.width, f.height);
    }
  }

  lemma PackedReadsInside(f: Frame, x: nat, y: nat)
    requires ValidFrame(f) && f.format == Rgb888 && x < f.width && y < f.height
    ensures 3 * (y * f.width + x) + 2 < |f.pixels|
  {
    IndexIsInside(f.width, f.height, x, y);
  }

  function Clamp(v: int): byte {
    if v < 0 then 0 else if v > 255 then 255 else v
  }

  function FromRgb(r: byte, g: byte, b: byte): Yuv {
    Yuv(Clamp(16 + (66 * r + 129 * g + 25 * b + 128) / 256),
        Clamp(128 + (-38 * r - 74 * g + 112 * b + 128) / 256),
        Clamp(128 + (112 * r - 94 * g - 18 * b + 128) / 256))
  }

  /** Grey stays grey: neutral chroma, and luma in the video range, growing with brightness. */
  lemma GreyStaysGrey(v: byte, brighter: byte)
    requires v <= brighter
    ensures FromRgb(v, v, v).cb == 128 && FromRgb(v, v, v).cr == 128
    ensures 16 <= FromRgb(v, v, v).y <= FromRgb(brighter, brighter, brighter).y <= 235
  {
  }

  function Planar(f: Frame, x: nat, y: nat): Yuv
    requires ValidFrame(f) && f.format == I420 && x < f.width && y < f.height
  {
    PlanarReadsInside(f, x, y);
    Yuv(f.pixels[LumaOffset(f, x, y)],
        f.pixels[LumaSize(f) + ChromaOffset(f, x, y)],
        f.pixels[LumaSize(f) + LumaSize(f) / 4 + ChromaOffset(f, x, y)])
  }

  function Packed(f: Frame, x: nat, y: nat): Yuv
    requires ValidFrame(f) && f.format == Rgb888 && x < f.width && y < f.height
  {
    PackedReadsInside(f, x, y);
    var pixel := 3 * (y * f.width + x);
    FromRgb(f.pixels[pixel], f.pixels[pixel + 1], f.pixels[pixel + 2])
  }

  /** The colour of one source pixel. */
  function PixelAt(f: Frame, x: nat, y: nat): Yuv
    requires ValidFrame(f) && x < f.width && y < f.height
  {
    if f.format == I420 then Planar(f, x, y) else Packed(f, x, y)
  }

  /** sampleYuv. */
  function SampleYuv(f: Frame, width: nat, height: nat, x: nat, y: nat, t: Transform): Yuv
    requires ValidFrame(f) && x < width && y < height
  {
    match Mapped(f.width, f.height, width, height, x, y, t)
    case Nowhere => Yuv(0, 128, 128)
    case At(sx, sy) =>
      MappedIsInside(f.width, f.height, width, height, x, y, t);
      PixelAt(f, sx, sy)
  }

  /** A rotation only turns the picture: the fill with it, turned back, is the fill without it. */
  lemma RotationTurnsTheFill(f: Frame, width: nat, height: nat, x: nat, y: nat, t: Transform)
    requires ValidFrame(f) && x < width && y < height
    ensures var turned := Rotated(width, height, x, y, -t.rotation);
            && turned.x < turned.width && turned.y < turned.height
            && SampleYuv(f, turned.width, turned.height, turned.x, turned.y, t)
               == SampleYuv(f, width, height, x, y, t.(rotation := 0))
  {
    RotationsUndo(width, height, x, y, -t.rotation);
  }

  predicate IsGrey(pixels: seq<byte>, i: nat) {
    3 * i + 2 < |pixels| ==> pixels[3 * i] == pixels[3 * i + 1] == pixels[3 * i + 2]
  }

  /** A grey picture fills any buffer with neutral chroma, whatever the transform. */
  lemma GreyFrameIsNeutral(f: Frame, width: nat, height: nat, x: nat, y: nat, t: Transform)
    requires ValidFrame(f) && f.format == Rgb888 && x < width && y < height
    requires forall i: nat :: IsGrey(f.pixels, i)
    ensures SampleYuv(f, width, height, x, y, t).cb == 128 && SampleYuv(f, width, height, x, y, t).cr == 128
  {
    var p := Mapped(f.width, f.height, width, height, x, y, t);
    if p.At? {
      MappedIsInside(f.width, f.height, width, height, x, y, t);
      GreyPixel(f, p.x, p.y);
    }
  }

  lemma GreyPixel(f: Frame, x: nat, y: nat)
    requires ValidFrame(f) && f.format == Rgb888 && x < f.width && y < f.height
    requires forall i: nat :: IsGrey(f.pixels, i)
    ensures Packed(f, x, y).cb == 128 && Packed(f, x, y).cr == 128
  {
    PackedReadsInside(f, x, y);
    var i := y * f.width + x;
    assert IsGrey(f.pixels, i);
    GreyStaysGrey(f.pixels[3 * i], f.pixels[3 * i]);
  }

  // ---------------------------------------------------------------------------
  // The frame object
  // ---------------------------------------------------------------------------

  class RgbFrame {
    var frame: Frame

    /** Whatever has been loaded, pixels mean a complete frame. */
    ghost predicate Consistent()
      reads this
    {
      frame.pixels != [] ==> ValidFrame(frame)
    }

    constructor ()
      ensures Consistent() && frame == NO_FRAME
    {
      frame := NO_FRAME;
    }

    predicate Valid()
      reads this
    {
      frame.pixels != []
    }

    /** load: a rejected file leaves the frame as it was. */
    method Load(bytes: seq<byte>) returns (ok: bool)
      requires Consistent()
      modifies this
      ensures Consistent() && ok == Loadable(bytes)
      ensures frame == if ok then Loaded(bytes) else old(frame)
    {
      if |bytes| < HEADER_SIZE {
        return false;
      }
      var format := FormatOf(bytes);
      var width, height, payload, sequence := Field(bytes, 8), Field(bytes, 12), Field(bytes, 16), Field(bytes, 20);
      if format.NoFormat? || width == 0 || height == 0 || width > MAX_DIMENSION || height > MAX_DIMENSION ||
         width * height > MAX_PIXELS {
        return false;
      }
      var expected := ExpectedPayload(format, width, height);
      if expected > MAX_UINT32 || payload != expected || |bytes| != HEADER_SIZE + expected {
        return false;
      }
      frame := Frame(format, width, height, sequence, bytes[HEADER_SIZE..]);
      ok := true;
    }

    /** The luma rows of fillYuv420. */
    method FillLuma(width: nat, height: nat, memory: array<byte>, l: Layout, t: Transform)
      requires ValidFrame(frame) && Accepted(l, width) && Fits(l, width, height, memory.Length)
      modifies memory
      ensures forall r: nat, c: nat | r < height && c < width ::
                memory[LumaAt(l, r, c)] == SampleYuv(frame, width, height, c, r, t).y
      ensures forall p | 0 <= p < memory.Length && !IsLuma(l, width, height, p) :: memory[p] == old(memory[p])
    {
      LongRowsAreApart(l.y.offset, l.yStride, l.yStep, width, height);
      var r := 0;
      while r < height
        invariant 0 <= r <= height
        invariant forall i: nat, k: nat | i < r && k < width ::
                    memory[LumaAt(l, i, k)] == SampleYuv(frame, width, height, k, i, t).y
        invariant forall p | 0 <= p < memory.Length && !IsLuma(l, width, height, p) :: memory[p] == old(memory[p])
      {
        var row := l.y.offset + r * l.yStride;
        var c := 0;
        while c < width
          invariant 0 <= c <= width
          invariant forall i: nat, k: nat | i < r && k < width ::
                      memory[LumaAt(l, i, k)] == SampleYuv(frame, width, height, k, i, t).y
          invariant forall k: nat | k < c :: memory[LumaAt(l, r, k)] == SampleYuv(frame, width, height, k, r, t).y
          invariant forall p | 0 <= p < memory.Length && !IsLuma(l, width, height, p) :: memory[p] == old(memory[p])
        {
          assert row + c * l.yStep == LumaAt(l, r, c);
          memory[row + c * l.yStep] := SampleYuv(frame, width, height, c, r, t).y;
          c := c + 1;
        }
        r := r + 1;
      }
    }

    /** One chroma row of fillYuv420: every second pixel. */
    method FillChromaRow(width: nat, height: nat, memory: array<byte>, l: Layout, t: Transform, r: nat)
      requires ValidFrame(frame) && Accepted(l, width) && Fits(l, width, height, memory.Length) && r < height / 2
      modifies memory
      ensures ChromaApart(l, width, height) ==>
                forall c: nat | c < width / 2 ::
                  && memory[CbAt(l, r, c)] == SampleYuv(frame, width, height, 2 * c, 2 * r, t).cb
                  && memory[CrAt(l, r, c)] == SampleYuv(frame, width, height, 2 * c, 2 * r, t).cr
      ensures forall p | 0 <= p < memory.Length && !IsChromaOf(l, width, r, p) :: memory[p] == old(memory[p])
    {
      var cbRow, crRow := l.cb.offset + r * l.cStride, l.cr.offset + r * l.cStride;
      var c := 0;
      while c < width / 2
        invariant 0 <= c <= width / 2
        invariant ChromaApart(l, width, height) ==>
                    forall k: nat | k < c ::
                      && memory[CbAt(l, r, k)] == SampleYuv(frame, width, height, 2 * k, 2 * r, t).cb
                      && memory[CrAt(l, r, k)] == SampleYuv(frame, width, height, 2 * k, 2 * r, t).cr
        invariant forall p | 0 <= p < memory.Length && !IsChromaOf(l, width, r, p) :: memory[p] == old(memory[p])
      {
        var yuv := SampleYuv(frame, width, height, 2 * c, 2 * r, t);
        assert cbRow + c * l.chromaStep == CbAt(l, r, c) && crRow + c * l.chromaStep == CrAt(l, r, c);
        memory[cbRow + c * l.chromaStep] := yuv.cb;
        memory[crRow + c * l.chromaStep] := yuv.cr;
        c := c + 1;
      }
    }

    /** The chroma rows of fillYuv420: every second row. */
    method FillChroma(width: nat, height: nat, memory: array<byte>, l: Layout, t: Transform)
      requires ValidFrame(frame) && Accepted(l, width) && Fits(l, width, height, memory.Length)
      modifies memory
      ensures ChromaApart(l, width, height) ==>
                forall r: nat, c: nat | r < height / 2 && c < width / 2 ::
                  && memory[CbAt(l, r, c)] == SampleYuv(frame, width, height, 2 * c, 2 * r, t).cb
                  && memory[CrAt(l, r, c)] == SampleYuv(frame, width, height, 2 * c, 2 * r, t).cr
      ensures forall p | 0 <= p < memory.Length && !IsChroma(l, width, height, p) :: memory[p] == old(memory[p])
    {
      var r := 0;
      while r < height / 2
        invariant 0 <= r <= height / 2
        invariant ChromaApart(l, width, height) ==>
                    forall i: nat, k: nat | i < r && k < width / 2 ::
                      && memory[CbAt(l, i, k)] == SampleYuv(frame, width, height, 2 * k, 2 * i, t).cb
                      && memory[CrAt(l, i, k)] == SampleYuv(frame, width, height, 2 * k, 2 * i, t).cr
        invariant forall p | 0 <= p < memory.Length && !IsChroma(l, width, height, p) :: memory[p] == old(memory[p])
      {
        FillChromaRow(width, height, memory, l, t, r);
        r := r + 1;
      }
    }

    /** fillYuv420. */
    method FillYuv420(width: nat, height: nat, memory: array<byte>, l: Layout, t: Transform) returns (ok: bool)
      requires Consistent() && (width != 0 && Accepted(l, width) ==> Fits(l, width, height, memory.Length))
      modifies memory
      ensures ok == (Valid() && width != 0 && height != 0 && Accepted(l, width))
      ensures !ok ==> memory[..] == old(memory[..])
      ensures ok ==> ValidFrame(frame)
      ensures ok && Separate(l, width, height) ==>
                && (forall r: nat, c: nat | r < height && c < width ::
                      memory[LumaAt(l, r, c)] == SampleYuv(frame, width, height, c, r, t).y)
                && (forall r: nat, c: nat | r < height / 2 && c < width / 2 ::
                      && memory[CbAt(l, r, c)] == SampleYuv(frame, width, height, 2 * c, 2 * r, t).cb
                      && memory[CrAt(l, r, c)] == SampleYuv(frame, width, height, 2 * c, 2 * r, t).cr)
      ensures ok ==>
                forall p | 0 <= p < memory.Length && !IsLuma(l, width, height, p) && !IsChroma(l, width, height, p) ::
                  memory[p] == old(memory[p])
    {
      if !Valid() || width == 0 || height == 0 || !Accepted(l, width) {
        return false;
      }
      FillLuma(width, height, memory, l, t);
      FillChroma(width, height, memory, l, t);
      ok := true;
    }
  }

  // ---------------------------------------------------------------------------
  // From publish_frame to fillYuv420
  // ---------------------------------------------------------------------------

  lemma {:induction false} FlatAt(rows: seq<seq<byte>>, width: nat, r: nat, c: nat)
    requires Plane(rows, width, |rows|) && r < |rows| && c < width
    ensures |Flat(rows)| == |rows| * width && r * width + c < |Flat(rows)|
    ensures Flat(rows)[r * width + c] == rows[r][c]
    decreases |rows|
  {
    var before := rows[..|rows| - 1];
    FlatSize(before, width);
    FlatSize(rows, width);
    IndexIsInside(width, |rows|, c, r);
    if r < |before| {
      FlatAt(before, width, r, c);
    }
  }

  lemma {:induction false} FlatSize(rows: seq<seq<byte>>, width: nat)
    requires Plane(rows, width, |rows|)
    ensures |Flat(rows)| == |rows| * width
    decreases |rows|
  {
    if rows != [] {
      FlatSize(rows[..|rows| - 1], width);
      assert |rows| * width == (|rows| - 1) * width + width;
    }
  }

  /** The sizes the provider may publish and the HAL then shows. */
  predicate Showable(p: Picture) {
    ValidDimensions(p.width, p.height) && p.width % 2 == 0 && p.height % 2 == 0
  }

  lemma HeaderReads(p: Picture, sequence: nat)
    requires WellFormed(p) && Payload(p) <= MAX_UINT32 && sequence <= MAX_UINT32
    ensures var h := Header(p, sequence);
            && FormatOf(h) == I420 && Field(h, 8) == p.width && Field(h, 12) == p.height
            && Field(h, 16) == Payload(p) && Field(h, 20) == sequence
  {
    var h := Header(p, sequence);
    assert h[..8] == YUV_MAGIC && YUV_MAGIC[4] != RGB_MAGIC[4];
    assert h[8..12] == LittleEndian(p.width, 4);
    assert h[12..16] == LittleEndian(p.height, 4);
    assert h[16..20] == LittleEndian(Payload(p), 4);
    assert h[20..24] == LittleEndian(sequence, 4);
    WordReads(p.width);
    WordReads(p.height);
    WordReads(Payload(p));
    WordReads(sequence);
  }

  lemma PixelsSize(p: Picture)
    requires WellFormed(p)
    ensures |Pixels(p)| == p.width * p.height + 2 * ((p.width / 2) * (p.height / 2))
  {
    FlatSize(p.y, p.width);
    FlatSize(p.cb, p.width / 2);
    FlatSize(p.cr, p.width / 2);
  }

  /** Exactly the even-sized pictures within the limits are shown once published. */
  lemma ProvidedIsShown(p: Picture, sequence: nat)
    requires WellFormed(p) && Payload(p) <= MAX_UINT32 && sequence <= MAX_UINT32
    ensures Shown(FrameBytes(p, sequence)) <==> Showable(p)
  {
    HeaderReads(p, sequence);
    PixelsSize(p);
    PublishedIsShown(Header(p, sequence), Pixels(p));
    if Showable(p) {
      ChromaSize(p.width, p.height);
    }
  }

  /** The loaded frame is the picture. */
  lemma LoadedPicture(p: Picture, sequence: nat)
    requires WellFormed(p) && Payload(p) <= MAX_UINT32 && sequence <= MAX_UINT32 && Showable(p)
    ensures Loadable(FrameBytes(p, sequence))
    ensures Loaded(FrameBytes(p, sequence)) == Frame(I420, p.width, p.height, sequence, Pixels(p))
  {
    ProvidedIsShown(p, sequence);
    HeaderReads(p, sequence);
    FieldOfHeader(Header(p, sequence), Pixels(p), 8);
    FieldOfHeader(Header(p, sequence), Pixels(p), 12);
    FieldOfHeader(Header(p, sequence), Pixels(p), 20);
  }

  lemma ThreePlanes(a: seq<byte>, b: seq<byte>, c: seq<byte>, i: nat, j: nat)
    requires i < |a| && j < |b| && j < |c|
    ensures (a + b + c)[i] == a[i] && (a + b + c)[|a| + j] == b[j] && (a + b + c)[|a| + |b| + j] == c[j]
  {
  }

  lemma PictureAt(p: Picture, f: Frame, x: nat, y: nat)
    requires WellFormed(p) && Showable(p) && ValidFrame(f) && x < p.width && y < p.height
    requires f.format == I420 && f.width == p.width && f.height == p.height && f.pixels == Pixels(p)
    ensures Planar(f, x, y) == Yuv(p.y[y][x], p.cb[y / 2][x / 2], p.cr[y / 2][x / 2])
  {
    ChromaSize(p.width, p.height);
    FlatAt(p.y, p.width, y, x);
    FlatAt(p.cb, p.width / 2, y / 2, x / 2);
    FlatAt(p.cr, p.width / 2, y / 2, x / 2);
    assert |Flat(p.y)| == LumaSize(f) by {
      assert p.height * p.width == p.width * p.height;
    }
    assert |Flat(p.cb)| == LumaSize(f) / 4 by {
      assert (p.height / 2) * (p.width / 2) == (p.width / 2) * (p.height / 2);
    }
    ThreePlanes(Flat(p.y), Flat(p.cb), Flat(p.cr), LumaOffset(f, x, y), ChromaOffset(f, x, y));
  }

  /** Sampling a loaded picture at its own size. */
  lemma SampleIsPixel(p: Picture, f: Frame, x: nat, y: nat)
    requires WellFormed(p) && Showable(p) && ValidFrame(f) && x < p.width && y < p.height
    requires f.format == I420 && f.width == p.width && f.height == p.height && f.pixels == Pixels(p)
    ensures SampleYuv(f, p.width, p.height, x, y, DEFAULT) == Yuv(p.y[y][x], p.cb[y / 2][x / 2], p.cr[y / 2][x / 2])
  {
    DefaultIsIdentity(p.width, p.height, x, y);
    PictureAt(p, f, x, y);
  }

  lemma LumaIsPlane(p: Picture, f: Frame)
    requires WellFormed(p) && Showable(p) && ValidFrame(f)
    requires f.format == I420 && f.width == p.width && f.height == p.height && f.pixels == Pixels(p)
    ensures forall r: nat, c: nat | r < p.height && c < p.width ::
              SampleYuv(f, p.width, p.height, c, r, DEFAULT).y == p.y[r][c]
  {
    forall r: nat, c: nat | r < p.height && c < p.width
      ensures SampleYuv(f, p.width, p.height, c, r, DEFAULT).y == p.y[r][c]
    {
      SampleIsPixel(p, f, c, r);
    }
  }

  lemma ChromaIsPlanes(p: Picture, f: Frame)
    requires WellFormed(p) && Showable(p) && ValidFrame(f)
    requires f.format == I420 && f.width == p.width && f.height == p.height && f.pixels == Pixels(p)
    ensures forall r: nat, c: nat | r < p.height / 2 && c < p.width / 2 ::
              && SampleYuv(f, p.width, p.height, 2 * c, 2 * r, DEFAULT).cb == p.cb[r][c]
              && SampleYuv(f, p.width, p.height, 2 * c, 2 * r, DEFAULT).cr == p.cr[r][c]
  {
    forall r: nat, c: nat | r < p.height / 2 && c < p.width / 2
      ensures && SampleYuv(f, p.width, p.height, 2 * c, 2 * r, DEFAULT).cb == p.cb[r][c]
              && SampleYuv(f, p.width, p.height, 2 * c, 2 * r, DEFAULT).cr == p.cr[r][c]
    {
      SampleIsPixel(p, f, 2 * c, 2 * r);
    }
  }

  /**
   Main result: sampling a published picture at its own size with the default transform
   returns exactly the planes that were published.
   */
  lemma PublishedPictureIsFilled(p: Picture, sequence: nat, x: nat, y: nat)
    requires WellFormed(p) && Payload(p) <= MAX_UINT32 && sequence <= MAX_UINT32 && Showable(p)
    requires x < p.width && y < p.height
    ensures Loadable(FrameBytes(p, sequence)) && ValidFrame(Loaded(FrameBytes(p, sequence)))
    ensures SampleYuv(Loaded(FrameBytes(p, sequence)), p.width, p.height, x, y, DEFAULT)
            == Yuv(p.y[y][x], p.cb[y / 2][x / 2], p.cr[y / 2][x / 2])
  {
    ProvidedIsShown(p, sequence);
    ShownIsValid(FrameBytes(p, sequence));
    LoadedPicture(p, sequence);
    SampleIsPixel(p, Loaded(FrameBytes(p, sequence)), x, y);
  }

  /**
   From the provider's planes through the file to the camera buffer and back out. It fails
   only if the publication does, and that leaves the published frame alone.
   */
  method PublishLoadFill(store: FrameStore, p: Picture, sequence: nat, memory: array<byte>, l: Layout)
    returns (ok: bool)
    requires WellFormed(p) && Showable(p) && sequence <= MAX_UINT32
    requires Accepted(l, p.width) && Fits(l, p.width, p.height, memory.Length) && Separate(l, p.width, p.height)
    modifies store, memory
    ensures store.published == if ok then File(FrameBytes(p, sequence)) else old(store.published)
    ensures ok ==> forall r: nat, c: nat | r < p.height && c < p.width :: memory[LumaAt(l, r, c)] == p.y[r][c]
    ensures ok ==> forall r: nat, c: nat | r < p.height / 2 && c < p.width / 2 ::
                     memory[CbAt(l, r, c)] == p.cb[r][c] && memory[CrAt(l, r, c)] == p.cr[r][c]
  {
    ok := PublishFrame(store, p, sequence);
    if !ok {
      return;
    }
    assert Payload(p) <= MAX_UINT32;
    var frame := new RgbFrame();
    var loaded := frame.Load(store.published.bytes);
    ProvidedIsShown(p, sequence);
    LoadedPicture(p, sequence);
    LumaIsPlane(p, frame.frame);
    ChromaIsPlanes(p, frame.frame);
    ok := frame.FillYuv420(p.width, p.height, memory, l, DEFAULT);
  }
}
