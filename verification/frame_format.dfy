/**
 The frame file shared by the stream provider, the publisher and the camera HAL: a
 24-byte header and packed RGB or planar I420 pixels.
 */
module FrameFormat {
  import opened Bytes

  const HEADER_SIZE: nat := 24
  const MAX_DIMENSION: nat := 4096
  const MAX_PIXELS: nat := 4096 * 3072
  const MAX_UINT32: nat := 0xffff_ffff

  /** "VCAMRGB1" and "VCAMYUV1" */
  const RGB_MAGIC: seq<byte> := [86, 67, 65, 77, 82, 71, 66, 49]
  const YUV_MAGIC: seq<byte> := [86, 67, 65, 77, 89, 85, 86, 49]

  datatype Format = NoFormat | Rgb888 | I420

  datatype Frame = Frame(format: Format, width: nat, height: nat, sequence: nat, pixels: seq<byte>)

  const NO_FRAME := Frame(NoFormat, 0, 0, 0, [])

  function FormatOf(bytes: seq<byte>): Format
    requires |bytes| >= 8
  {
    if bytes[..8] == RGB_MAGIC then Rgb888 else if bytes[..8] == YUV_MAGIC then I420 else NoFormat
  }

  function Field(bytes: seq<byte>, at: nat): nat
    requires at + 4 <= |bytes|
  {
    Value(bytes[at..at + 4])
  }

  /** The payload a header announces, 0 if the format cannot have these dimensions. */
  function ExpectedPayload(format: Format, width: nat, height: nat): nat {
    var pixels := width * height;
    match format
    case NoFormat => 0
    case Rgb888 => pixels * 3
    case I420 => if width % 2 == 0 && height % 2 == 0 then pixels + pixels / 2 else 0
  }

  predicate ValidDimensions(width: nat, height: nat) {
    0 < width <= MAX_DIMENSION && 0 < height <= MAX_DIMENSION && width * height <= MAX_PIXELS
  }

  // ---------------------------------------------------------------------------
  // What the loader and the publisher accept
  // ---------------------------------------------------------------------------

  predicate Loadable(bytes: seq<byte>) {
    && |bytes| >= HEADER_SIZE
    && var format, width, height := FormatOf(bytes), Field(bytes, 8), Field(bytes, 12);
       && !format.NoFormat? && ValidDimensions(width, height)
       && ExpectedPayload(format, width, height) <= MAX_UINT32
       && Field(bytes, 16) == ExpectedPayload(format, width, height)
       && |bytes| == HEADER_SIZE + ExpectedPayload(format, width, height)
  }

  /** RgbFrame::load. */
  function Loaded(bytes: seq<byte>): Frame
    requires Loadable(bytes)
  {
    Frame(FormatOf(bytes), Field(bytes, 8), Field(bytes, 12), Field(bytes, 20), bytes[HEADER_SIZE..])
  }

  /** The publisher's check of a header. */
  predicate Publishable(header: seq<byte>) {
    && |header| == HEADER_SIZE
    && var format, width, height := FormatOf(header), Field(header, 8), Field(header, 12);
       && !format.NoFormat? && ValidDimensions(width, height)
       && ExpectedPayload(format, width, height) != 0
       && ExpectedPayload(format, width, height) == Field(header, 16)
  }

  /** A frame the HAL shows: the loader takes it and it has pixels. */
  predicate Shown(bytes: seq<byte>) {
    Loadable(bytes) && Loaded(bytes).pixels != []
  }

  lemma FieldOfHeader(header: seq<byte>, payload: seq<byte>, at: nat)
    requires |header| == HEADER_SIZE && at + 4 <= HEADER_SIZE
    ensures Field(header + payload, at) == Field(header, at)
    ensures FormatOf(header + payload) == FormatOf(header)
  {
    assert (header + payload)[at..at + 4] == header[at..at + 4];
    assert (header + payload)[..8] == header[..8];
  }

  lemma PayloadFits(format: Format, width: nat, height: nat)
    requires ValidDimensions(width, height)
    ensures ExpectedPayload(format, width, height) <= MAX_UINT32
  {
  }

  /** The publisher and the loader agree: they take the same complete frames. */
  lemma PublishedIsShown(header: seq<byte>, payload: seq<byte>)
    requires |header| == HEADER_SIZE
    ensures Publishable(header) && |payload| == Field(header, 16) <==> Shown(header + payload)
  {
    var bytes := header + payload;
    FieldOfHeader(header, payload, 8);
    FieldOfHeader(header, payload, 12);
    FieldOfHeader(header, payload, 16);
    if ValidDimensions(Field(header, 8), Field(header, 12)) {
      PayloadFits(FormatOf(header), Field(header, 8), Field(header, 12));
    }
    assert bytes[HEADER_SIZE..] == payload;
  }

  /** The one gap: an odd-sized I420 header with no payload loads, but shows nothing. */
  lemma LoadableButEmpty(bytes: seq<byte>)
    requires Loadable(bytes)
    ensures Loaded(bytes).pixels == [] <==>
              Loaded(bytes).format == I420 && (Loaded(bytes).width % 2 != 0 || Loaded(bytes).height % 2 != 0)
  {
    var w, h := Loaded(bytes).width, Loaded(bytes).height;
    assert w * h > 0;
  }

  lemma WordReads(v: nat)
    requires v <= MAX_UINT32
    ensures Value(LittleEndian(v, 4)) == v
  {
    Powers();
    ValueOfLittleEndian(v, 4);
    RemainderIs(v, Pow2(32), 0, v);
  }

  /** An I420 header of these dimensions that announces no payload. */
  function EmptyFile(width: nat, height: nat, sequence: nat): seq<byte> {
    YUV_MAGIC + LittleEndian(width, 4) + LittleEndian(height, 4) + LittleEndian(0, 4) + LittleEndian(sequence, 4)
  }

  lemma EmptyFileFields(width: nat, height: nat, sequence: nat)
    requires ValidDimensions(width, height)
    ensures var bytes := EmptyFile(width, height, sequence);
            && |bytes| == HEADER_SIZE && FormatOf(bytes) == I420
            && Field(bytes, 8) == width && Field(bytes, 12) == height && Field(bytes, 16) == 0
  {
    var bytes := EmptyFile(width, height, sequence);
    assert bytes[..8] == YUV_MAGIC && bytes[8..12] == LittleEndian(width, 4);
    assert bytes[12..16] == LittleEndian(height, 4) && bytes[16..20] == LittleEndian(0, 4);
    assert YUV_MAGIC[4] != RGB_MAGIC[4];
    WordReads(width);
    WordReads(height);
    WordReads(0);
  }

  /** Such files exist for every odd size, from 1 by 1 on. */
  lemma EmptyFileLoads(width: nat, height: nat, sequence: nat)
    requires ValidDimensions(width, height) && (width % 2 != 0 || height % 2 != 0)
    ensures Loadable(EmptyFile(width, height, sequence)) && !Shown(EmptyFile(width, height, sequence))
    ensures Loadable(EmptyFile(1, 1, sequence)) && !Shown(EmptyFile(1, 1, sequence))
  {
    EmptyFileFields(width, height, sequence);
    EmptyFileFields(1, 1, sequence);
  }
}
