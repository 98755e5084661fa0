/**
 The routed ICameraDeviceUser: finds the camera IDs in capture request parcels and
 builds the parcel with all of them replaced.
 */
module RequestRewriter {
  import opened Bytes
  import opened Parcels
  import opened ParcelLayouts
  import opened Splices
  import opened CameraIds
  import opened CaptureRequests
  import opened RequestRenaming

  const USE_BUFFER_QUEUE: int := 0x62717565
  const MAX_SURFACES: int := 64

  const NAME: Layout := Name(false)
  const BUFFER_QUEUE: Layout := Number(USE_BUFFER_QUEUE, USE_BUFFER_QUEUE)
  const HANDLES: Layout := Then(Handle, Handle)
  const PRODUCER: Layout := Then(BUFFER_QUEUE, HANDLES)
  const SURFACE: Layout := Then(Name(true), Then(ANY, PRODUCER))
  const NAMED_SURFACE: Layout := Then(NAME, SURFACE)
  const STREAM: Layout := Then(ANY, ANY)
  const TAG: Layout := Flagged(NAME)
  const SURFACES: Layout := Counted(MAX_SURFACES, NAMED_SURFACE)
  const STREAMS: Layout := Counted(MAX_SURFACES, STREAM)
  const TARGETS: Layout := Then(ANY, Then(SURFACES, Then(STREAMS, TAG)))

  /** Everything of a request behind its camera ID. */
  const REQUEST_TAIL: Layout := Then(Metadata, TARGETS)

  /**
   `tail` is that layout. The proofs below that only pass it on take it under this name,
   and are spared its definition.
   */
  ghost predicate IsRequestTail(tail: Layout) {
    forall d, p: nat {:trigger REQUEST_TAIL(d, p)} :: tail(d, p) == REQUEST_TAIL(d, p)
  }

  /** Likewise for the reader of one request. */
  ghost predicate IsRequest(one: PartReader, tail: Layout, id: seq<byte>) {
    forall d, p: nat {:trigger RequestOf(tail, id)(d, p)} :: one(d, p) == RequestOf(tail, id)(d, p)
  }

  lemma SurfaceIsProper()
    ensures Proper(NAMED_SURFACE)
  {
    NameIsProper(false);
    NameIsProper(true);
    NumberIsProper(MIN_INT32, MAX_INT32);
    NumberIsProper(USE_BUFFER_QUEUE, USE_BUFFER_QUEUE);
    HandleIsProper();
    ThenIsProper(Handle, Handle);
    ThenIsProper(BUFFER_QUEUE, HANDLES);
    ThenIsProper(ANY, PRODUCER);
    ThenIsProper(Name(true), Then(ANY, PRODUCER));
    ThenIsProper(NAME, SURFACE);
  }

  lemma RequestTailIsProper()
    ensures Proper(REQUEST_TAIL)
  {
    SurfaceIsProper();
    NameIsProper(false);
    NumberIsProper(MIN_INT32, MAX_INT32);
    MetadataIsProper();
    ThenIsProper(ANY, ANY);
    CountedIsProper(MAX_SURFACES, NAMED_SURFACE);
    CountedIsProper(MAX_SURFACES, STREAM);
    FlaggedIsProper(NAME);
    ThenIsProper(STREAMS, TAG);
    ThenIsProper(SURFACES, Then(STREAMS, TAG));
    ThenIsProper(ANY, Then(SURFACES, Then(STREAMS, TAG)));
    ThenIsProper(Metadata, TARGETS);
  }

  lemma TailIsProper(tail: Layout)
    requires IsRequestTail(tail)
    ensures Proper(tail)
  {
    RequestTailIsProper();
    forall a: seq<Item>, i: nat, b: seq<Item>, j: nat ensures Moves(tail, a, i, b, j) {
      assert Moves(REQUEST_TAIL, a, i, b, j);
      assert tail(a, i) == REQUEST_TAIL(a, i) && tail(b, j) == REQUEST_TAIL(b, j);
    }
  }

  // ---------------------------------------------------------------------------
  // Reading
  // ---------------------------------------------------------------------------

  /** The read succeeded exactly if the layout lies at `from`, and ended behind it. */
  ghost predicate Passed(l: Layout, d: seq<Item>, from: nat, ok: bool, to: nat) {
    ok == l(d, from).Some? && (ok ==> l(d, from) == Some(to))
  }

  lemma PassedThen(first: Layout, second: Layout, d: seq<Item>, a: nat, b: nat, ok: bool, c: nat)
    requires Passed(first, d, a, true, b) && Passed(second, d, b, ok, c)
    ensures Passed(Then(first, second), d, a, ok, c)
  {
  }

  lemma PassedOnce(one: Layout, left: nat, d: seq<Item>, p: nat, ok: bool, q: nat)
    requires left > 0 && Passed(one, d, p, ok, q)
    ensures Times(one, left, d, p) == if ok then Times(one, left - 1, d, q) else None
  {
  }

  method ReadNumber(parcel: Parcel, least: int, most: int) returns (ok: bool)
    modifies parcel`position
    ensures Passed(Number(least, most), parcel.data, old(parcel.position), ok, parcel.position)
  {
    var v := parcel.ReadInt32();
    ok := v.Done? && least <= v.value <= most;
  }

  method ReadName(parcel: Parcel, nullable: bool) returns (ok: bool)
    modifies parcel`position
    ensures Passed(Name(nullable), parcel.data, old(parcel.position), ok, parcel.position)
  {
    var name := parcel.ReadOptionalText();
    ok := name.Done? && (name.value.Some? || nullable);
  }

  method ReadHandle(parcel: Parcel) returns (ok: bool)
    modifies parcel`position
    ensures Passed(Handle, parcel.data, old(parcel.position), ok, parcel.position)
  {
    var handle := parcel.ReadBinder();
    ok := handle.Done?;
  }

  /** readBlob. */
  method ReadBlob(parcel: Parcel, size: nat) returns (ok: bool)
    modifies parcel`position
    ensures Passed(Blob(size), parcel.data, old(parcel.position), ok, parcel.position)
  {
    var end := Blob(size)(parcel.data, parcel.position);
    ok := end.Some?;
    if ok {
      parcel.position := end.value;
    }
  }

  /** skipMetadata. */
  method ReadMetadata(parcel: Parcel) returns (ok: bool)
    modifies parcel`position
    ensures Passed(Metadata, parcel.data, old(parcel.position), ok, parcel.position)
  {
    var size := parcel.ReadInt32();
    if size.Fail? || size.value < 0 || size.value > MAX_METADATA {
      return false;
    }
    if size.value == 0 {
      return true;
    }
    if size.value <= METADATA_ALIGNMENT {
      return false;
    }
    ghost var a := parcel.position;
    ok := ReadBlob(parcel, size.value);
    if ok {
      ghost var b := parcel.position;
      ok := ReadNumber(parcel, 0, METADATA_ALIGNMENT - 1);
      PassedThen(Blob(size.value), Number(0, METADATA_ALIGNMENT - 1), parcel.data, a, b, ok, parcel.position);
    }
  }

  /** skipSurface. */
  method ReadSurface(parcel: Parcel) returns (ok: bool)
    modifies parcel`position
    ensures Passed(SURFACE, parcel.data, old(parcel.position), ok, parcel.position)
  {
    ghost var d, p0 := parcel.data, parcel.position;
    ok := ReadName(parcel, true);
    if ok {
      ghost var p1 := parcel.position;
      ok := ReadNumber(parcel, MIN_INT32, MAX_INT32);
      if ok {
        ghost var p2 := parcel.position;
        ok := ReadNumber(parcel, USE_BUFFER_QUEUE, USE_BUFFER_QUEUE);
        if ok {
          ghost var p3 := parcel.position;
          ok := ReadHandle(parcel);
          if ok {
            ghost var p4 := parcel.position;
            ok := ReadHandle(parcel);
            PassedThen(Handle, Handle, d, p3, p4, ok, parcel.position);
          }
          PassedThen(BUFFER_QUEUE, HANDLES, d, p2, p3, ok, parcel.position);
        }
        PassedThen(ANY, PRODUCER, d, p1, p2, ok, parcel.position);
      }
      PassedThen(Name(true), Then(ANY, PRODUCER), d, p0, p1, ok, parcel.position);
    }
  }

  method ReadNamedSurface(parcel: Parcel) returns (ok: bool)
    modifies parcel`position
    ensures Passed(NAMED_SURFACE, parcel.data, old(parcel.position), ok, parcel.position)
  {
    ghost var a := parcel.position;
    ok := ReadName(parcel, false);
    if ok {
      ghost var b := parcel.position;
      ok := ReadSurface(parcel);
      PassedThen(NAME, SURFACE, parcel.data, a, b, ok, parcel.position);
    }
  }

  /** `count` surfaces, each of them `surface`, a named surface. */
  method ReadSurfaceRow(parcel: Parcel, count: nat, ghost surface: Layout) returns (ok: bool)
    requires forall d, p: nat {:trigger NAMED_SURFACE(d, p)} :: surface(d, p) == NAMED_SURFACE(d, p)
    modifies parcel`position
    ensures ok == Times(surface, count, parcel.data, old(parcel.position)).Some?
    ensures ok ==> Times(surface, count, parcel.data, old(parcel.position)) == Some(parcel.position)
  {
    ghost var d, start := parcel.data, parcel.position;
    var index := 0;
    while index < count
      invariant 0 <= index <= count && parcel.data == d
      invariant Times(surface, count, d, start) == Times(surface, count - index, d, parcel.position)
    {
      ghost var p := parcel.position;
      ok := ReadNamedSurface(parcel);
      assert surface(d, p) == NAMED_SURFACE(d, p);
      PassedOnce(surface, count - index, d, p, ok, parcel.position);
      if !ok {
        return;
      }
      index := index + 1;
    }
    ok := true;
  }

  /** The surface list of a request. */
  method ReadSurfaces(parcel: Parcel) returns (ok: bool)
    modifies parcel`position
    ensures Passed(SURFACES, parcel.data, old(parcel.position), ok, parcel.position)
  {
    var count := parcel.ReadInt32();
    if count.Fail? || count.value < 0 || count.value > MAX_SURFACES {
      return false;
    }
    ok := ReadSurfaceRow(parcel, count.value, NAMED_SURFACE);
  }

  method ReadStream(parcel: Parcel) returns (ok: bool)
    modifies parcel`position
    ensures Passed(STREAM, parcel.data, old(parcel.position), ok, parcel.position)
  {
    ghost var a := parcel.position;
    ok := ReadNumber(parcel, MIN_INT32, MAX_INT32);
    if ok {
      ghost var b := parcel.position;
      ok := ReadNumber(parcel, MIN_INT32, MAX_INT32);
      PassedThen(ANY, ANY, parcel.data, a, b, ok, parcel.position);
    }
  }

  /** The stream and surface indices of a request. */
  method ReadStreams(parcel: Parcel) returns (ok: bool)
    modifies parcel`position
    ensures Passed(STREAMS, parcel.data, old(parcel.position), ok, parcel.position)
  {
    var count := parcel.ReadInt32();
    if count.Fail? || count.value < 0 || count.value > MAX_SURFACES {
      return false;
    }
    ghost var d, start := parcel.data, parcel.position;
    var index := 0;
    while index < count.value
      invariant 0 <= index <= count.value && parcel.data == d
      invariant Times(STREAM, count.value, d, start) == Times(STREAM, count.value - index, d, parcel.position)
    {
      ghost var p := parcel.position;
      ok := ReadStream(parcel);
      PassedOnce(STREAM, count.value - index, d, p, ok, parcel.position);
      if !ok {
        return;
      }
      index := index + 1;
    }
    ok := true;
  }

  method ReadTag(parcel: Parcel) returns (ok: bool)
    modifies parcel`position
    ensures Passed(TAG, parcel.data, old(parcel.position), ok, parcel.position)
  {
    var hasTag := parcel.ReadInt32();
    if hasTag.Fail? {
      return false;
    }
    if hasTag.value == 0 {
      return true;
    }
    ok := ReadName(parcel, false);
  }

  /** Everything of a request behind its camera ID. */
  method ReadTail(parcel: Parcel, ghost tail: Layout) returns (ok: bool)
    requires IsRequestTail(tail)
    modifies parcel`position
    ensures Passed(tail, parcel.data, old(parcel.position), ok, parcel.position)
  {
    ghost var d, p0 := parcel.data, parcel.position;
    ok := ReadMetadata(parcel);
    if ok {
      ghost var p1 := parcel.position;
      ok := ReadNumber(parcel, MIN_INT32, MAX_INT32);
      if ok {
        ghost var p2 := parcel.position;
        ok := ReadSurfaces(parcel);
        if ok {
          ghost var p3 := parcel.position;
          ok := ReadStreams(parcel);
          if ok {
            ghost var p4 := parcel.position;
            ok := ReadTag(parcel);
            PassedThen(STREAMS, TAG, d, p3, p4, ok, parcel.position);
          }
          PassedThen(SURFACES, Then(STREAMS, TAG), d, p2, p3, ok, parcel.position);
        }
        PassedThen(ANY, Then(SURFACES, Then(STREAMS, TAG)), d, p1, p2, ok, parcel.position);
      }
      PassedThen(Metadata, TARGETS, d, p0, p1, ok, parcel.position);
    }
    assert Passed(REQUEST_TAIL, d, p0, ok, parcel.position);
  }

  /** readAsciiString16: the identifier and where it lies. */
  method ReadIdentifier(parcel: Parcel) returns (r: Read<seq<byte>>, span: Span)
    modifies parcel`position
    ensures r == Identifier(parcel.data, old(parcel.position))
    ensures r.Done? ==> parcel.position == r.next
    ensures span == Span(old(parcel.position), parcel.position)
  {
    var start := parcel.position;
    var text := parcel.ReadText();
    span := Span(start, parcel.position);
    if text.Fail? || text.value == [] || |text.value| > 255 {
      return Fail, span;
    }
    var value: seq<byte> := [];
    var index := 0;
    while index < |text.value|
      invariant 0 <= index <= |text.value| && |value| == index
      invariant forall i | 0 <= i < index :: text.value[i] <= 0x7f && value[i] == text.value[i]
    {
      if text.value[index] > 0x7f {
        return Fail, span;
      }
      value := value + [text.value[index]];
      index := index + 1;
    }
    assert value == Narrowed(text.value);
    r := Done(value, text.next);
  }

  // ---------------------------------------------------------------------------
  // Observing
  // ---------------------------------------------------------------------------

  /** observeCaptureRequest: reads one request and notes where its ID lies. */
  method ObserveCaptureRequest(parcel: Parcel, id: seq<byte>, ghost tail: Layout, ghost one: PartReader)
    returns (ok: bool, span: Span, ghost part: Part)
    requires IsRequestTail(tail) && IsRequest(one, tail, id)
    modifies parcel`position
    ensures ok == one(parcel.data, old(parcel.position)).Some?
    ensures ok ==>
              && one(parcel.data, old(parcel.position)) == Some(part)
              && span == Span(old(parcel.position) + 2, old(parcel.position) + 2 + |part.id|)
              && parcel.position == old(parcel.position) + |PartItems(part)|
  {
    ghost var start := parcel.position;
    assert one(parcel.data, start) == RequestOf(tail, id)(parcel.data, start);
    ok, span, part := false, Span(0, 0), Part([], []);
    var present := parcel.ReadInt32();
    if present.Fail? || present.value != 1 {
      return;
    }
    var settings := parcel.ReadInt32();
    if settings.Fail? || settings.value != 1 {
      return;
    }
    var found;
    found, span := ReadIdentifier(parcel);
    if found.Fail? || found.value != id {
      return;
    }
    ghost var q := parcel.position;
    ok := ReadTail(parcel, tail);
    TailIsProper(tail);
    part := RequestRead(tail, parcel.data, start, id, q, ok, parcel.position);
  }

  /** A request whose head and ID have been read up to `q`, and whose tail was read or not. */
  lemma RequestRead(tail: Layout, d: seq<Item>, p: nat, id: seq<byte>, q: nat, ok: bool, r: nat) returns (part: Part)
    requires Proper(tail) && Passed(tail, d, q, ok, r)
    requires AllWords(d, p, 2) && d[p].v == 1 && d[p + 1].v == 1 && Identifier(d, p + 2) == Done(id, q)
    ensures ok == RequestOf(tail, id)(d, p).Some?
    ensures ok ==>
              RequestOf(tail, id)(d, p) == Some(part) && q == p + 2 + |part.id| && r == p + |PartItems(part)|
  {
    part := Part(Cut(d, p + 2, q), Cut(d, q, r));
    if ok {
      TextEnds(d, p + 2);
      assert Moves(tail, d, q, d, q);
    }
  }

  /** readAndCheckInterfaceHeader. */
  method ReadHeader(parcel: Parcel, descriptor: seq<char16>) returns (ok: bool)
    requires parcel.position == 0
    modifies parcel`position
    ensures ok == Header(parcel.data, descriptor).Some?
    ensures ok ==> Header(parcel.data, descriptor) == Some(parcel.position)
  {
    ok := false;
    var policy := parcel.ReadInt32();
    if policy.Fail? {
      return;
    }
    var workSource := parcel.ReadInt32();
    if workSource.Fail? {
      return;
    }
    var header := parcel.ReadInt32();
    if header.Fail? || header.value != SYSTEM_HEADER {
      return;
    }
    var text := parcel.ReadText();
    ok := text.Done? && text.value == descriptor;
  }

  function Prepend(done: seq<Part>, r: Option<seq<Part>>): Option<seq<Part>> {
    match r case None => None case Some(parts) => Some(done + parts)
  }

  /** One more request of a batch has been read. */
  lemma PrependStep(one: PartReader, done: seq<Part>, part: Part, left: nat, d: seq<Item>, p: nat)
    requires left > 0 && one(d, p) == Some(part)
    ensures Prepend(done, Requests(one, left, d, p))
            == Prepend(done + [part], Requests(one, left - 1, d, p + |PartItems(part)|))
  {
    var rest := Requests(one, left - 1, d, p + |PartItems(part)|);
    if rest.Some? {
      assert done + ([part] + rest.value) == done + [part] + rest.value;
    }
  }

  lemma {:induction false} SpansLast(parts: seq<Part>, part: Part, base: nat)
    ensures Spans(parts + [part], base)
            == Spans(parts, base) + [Span(base + |Body(parts)| + 2, base + |Body(parts)| + 2 + |part.id|)]
    decreases |parts|
  {
    if parts == [] {
      assert parts + [part] == [part];
    } else {
      var first, rest := parts[0], parts[1..];
      var next := base + |PartItems(first)|;
      assert (parts + [part])[1..] == rest + [part];
      SpansLast(rest, part, next);
      var last := Span(next + |Body(rest)| + 2, next + |Body(rest)| + 2 + |part.id|);
      assert Spans(parts + [part], base) == [Span(base + 2, base + 2 + |first.id|)] + (Spans(rest, next) + [last]);
      assert |Body(parts)| == |PartItems(first)| + |Body(rest)|;
    }
  }

  lemma PrependNothing(r: Option<seq<Part>>)
    ensures Prepend([], r) == r
  {
    if r.Some? {
      assert [] + r.value == r.value;
    }
  }

  /** The requests of a batch, one after the other. */
  method ObserveRequests(parcel: Parcel, id: seq<byte>, count: nat, ghost tail: Layout, ghost one: PartReader)
    returns (ok: bool, spans: seq<Span>)
    requires IsRequestTail(tail) && IsRequest(one, tail, id)
    modifies parcel`position
    ensures var parts := Requests(one, count, parcel.data, old(parcel.position));
            && ok == parts.Some?
            && (ok ==> spans == Spans(parts.value, old(parcel.position))
                       && parcel.position == old(parcel.position) + |Body(parts.value)|)
  {
    ghost var d, base := parcel.data, parcel.position;
    ghost var done: seq<Part> := [];
    spans := [];
    PrependNothing(Requests(one, count, d, base));
    var index := 0;
    while index < count
      invariant 0 <= index <= count && parcel.data == d
      invariant spans == Spans(done, base) && parcel.position == base + |Body(done)|
      invariant Requests(one, count, d, base) == Prepend(done, Requests(one, count - index, d, parcel.position))
    {
      ghost var p := parcel.position;
      var span;
      ghost var part;
      ok, span, part := ObserveCaptureRequest(parcel, id, tail, one);
      if !ok {
        return;
      }
      PrependStep(one, done, part, count - index, d, p);
      SpansLast(done, part, base);
      BodyLast(done, part);
      done := done + [part];
      spans := spans + [span];
      index := index + 1;
    }
    ok := true;
    assert done + [] == done;
  }

  /** The header and, for a list, the number of requests. */
  method ReadPrefix(code: nat, parcel: Parcel, descriptor: seq<char16>) returns (ok: bool, count: nat)
    requires parcel.position == 0
    modifies parcel`position
    ensures ok == Prefix(code, parcel.data, descriptor).Some?
    ensures ok ==> Prefix(code, parcel.data, descriptor) == Some((parcel.position, count))
  {
    count := 1;
    ok := ReadHeader(parcel, descriptor);
    if ok && code == SUBMIT_REQUEST_LIST {
      var listed := parcel.ReadInt32();
      if listed.Fail? || listed.value <= 0 || listed.value > MAX_REQUESTS {
        return false, 0;
      }
      count := listed.value;
    } else if code != SUBMIT_REQUEST {
      ok := false;
    }
  }

  /** The requests and the flag behind them, up to the end of the parcel. */
  method ObserveFrom(parcel: Parcel, id: seq<byte>, count: nat, ghost tail: Layout, ghost one: PartReader)
    returns (ok: bool, spans: seq<Span>)
    requires IsRequestTail(tail) && IsRequest(one, tail, id)
    modifies parcel`position
    ensures var batch := ParseFrom(one, count, parcel.data, old(parcel.position));
            && ok == batch.Some?
            && (ok ==> spans == Spans(batch.value.parts, old(parcel.position)))
  {
    ok, spans := ObserveRequests(parcel, id, count, tail, one);
    if ok {
      var streaming := parcel.ReadInt32();
      ok := streaming.Done? && parcel.position == |parcel.data|;
    }
  }

  /** observeRequestOffsets: where the IDs lie; the cursor is put back. */
  method ObserveRequestOffsets(code: nat, parcel: Parcel, id: seq<byte>, descriptor: seq<char16>, ghost tail: Layout)
    returns (ok: bool, spans: seq<Span>)
    requires IsRequestTail(tail)
    modifies parcel`position
    ensures parcel.position == old(parcel.position)
    ensures var batch := Parse(tail, descriptor, code, parcel.data, id);
            && ok == batch.Some?
            && (ok ==> spans == Spans(batch.value.parts, |batch.value.prefix|))
  {
    var initial := parcel.position;
    parcel.position := 0;
    spans := [];
    var count;
    ok, count := ReadPrefix(code, parcel, descriptor);
    if ok {
      ok, spans := ObserveFrom(parcel, id, count, tail, RequestOf(tail, id));
    }
    parcel.position := initial;
  }

  // ---------------------------------------------------------------------------
  // Rewriting
  // ---------------------------------------------------------------------------

  /** The pass over the spans: what is copied and where the cursor goes. */
  method SpliceIds(input: Parcel, output: Parcel, spans: seq<Span>, text: seq<Item>)
    requires input != output && output.data == [] && output.position == 0
    requires Ordered(spans, 0, |input.data|) && input.position <= |input.data|
    modifies output
    ensures output.data == OnePass(input.data, 0, spans, text)
    ensures output.position == Composed(input.position, spans, |text|) <= |output.data|
  {
    ghost var n, whole := |input.data|, OnePass(input.data, 0, spans, text);
    var original := input.position;
    ghost var target := Mapped(original, 0, spans, n, |text|);
    var source: nat, remapped: nat, mapped := 0, 0, false;
    var index := 0;
    while index < |spans|
      invariant 0 <= index <= |spans| && output.position == |output.data|
      invariant Ordered(spans[index..], source, n)
      invariant whole == output.data + OnePass(input.data, source, spans[index..], text)
      invariant mapped ==> remapped == target
      invariant !mapped ==> source <= original
      invariant !mapped ==> target == |output.data| + Mapped(original, source, spans[index..], n, |text|)
    {
      var span := spans[index];
      ghost var rest := spans[index..];
      assert rest[0] == span && rest[1..] == spans[index + 1..];
      if span.start < source || span.start >= span.end || span.end > |input.data| {
        assert false;
      }
      ghost var before := output.data;
      var start := output.position;
      output.Append(input.data[source..span.start]);
      output.Append(text);
      SpliceStep(whole, before, input.data, source, rest, text);
      if !mapped && original <= span.start {
        remapped, mapped := start + (original - source), true;
      } else if !mapped && original < span.end {
        remapped, mapped := output.position, true;
      }
      source := span.end;
      index := index + 1;
    }
    output.Append(input.data[source..]);
    if !mapped {
      remapped := |output.data| - (|input.data| - original);
    }
    MappedIsComposed(original, 0, spans, n, |text|);
    CursorStaysInside(input.data, spans, text, original);
    if remapped > |output.data| {
      assert false;
    }
    output.position := remapped;
  }

  lemma SpliceStep(whole: seq<Item>, before: seq<Item>, d: seq<Item>, from: nat, spans: seq<Span>, text: seq<Item>)
    requires spans != [] && Ordered(spans, from, |d|) && whole == before + OnePass(d, from, spans, text)
    ensures whole == before + d[from..spans[0].start] + text + OnePass(d, spans[0].end, spans[1..], text)
  {
  }

  /**
   rewriteRequestIds. It succeeds exactly for a writable device ID, a parcel that parses
   under the public ID and a cursor inside it; the output is then the parcel with every
   ID replaced.
   */
  method RewriteRequestIds(code: nat, input: Parcel, publicId: seq<byte>, deviceId: seq<byte>, output: Parcel,
                           descriptor: seq<char16>, ghost tail: Layout)
    returns (ok: bool, count: nat)
    requires input != output && IsRequestTail(tail)
    modifies input`position, output
    ensures input.position == old(input.position)
    ensures ok <==>
              Writable(deviceId) && Parse(tail, descriptor, code, input.data, publicId).Some?
              && input.position <= |input.data|
    ensures ok ==>
              var batch := Parse(tail, descriptor, code, input.data, publicId).value;
              && count == |batch.parts|
              && output.data == Items(RenamedBatch(batch, Encoded(deviceId)))
              && output.position == Composed(input.position, Spans(batch.parts, |batch.prefix|), |Encoded(deviceId)|)
  {
    ok, count := false, 0;
    if |deviceId| == 0 || |deviceId| > 255 {
      return;
    }
    var index := 0;
    while index < |deviceId|
      invariant 0 <= index <= |deviceId| && forall i | 0 <= i < index :: deviceId[i] <= 0x7f
    {
      if deviceId[index] > 0x7f {
        return;
      }
      index := index + 1;
    }
    var spans;
    ok, spans := ObserveRequestOffsets(code, input, publicId, descriptor, tail);
    if !ok {
      return;
    }
    if input.position > |input.data| {
      return false, 0;
    }
    output.position := 0;
    output.data := [];
    TailIsProper(tail);
    ParseIsExact(tail, descriptor, code, input.data, publicId);
    ghost var batch := Parse(tail, descriptor, code, input.data, publicId).value;
    SpliceRenames(input.data, batch, Encoded(deviceId));
    SpliceIds(input, output, spans, Encoded(deviceId));
    SpansCount(batch.parts, |batch.prefix|);
    count := |spans|;
  }

  lemma {:induction false} SpansCount(parts: seq<Part>, base: nat)
    ensures |Spans(parts, base)| == |parts|
    decreases |parts|
  {
    if parts != [] {
      SpansCount(parts[1..], base + |PartItems(parts[0])|);
    }
  }
}
