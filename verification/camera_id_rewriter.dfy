/**
 rewriteAndroid14CameraId: builds a second parcel around an observed camera ID, and what
 observing that parcel finds.
 */
module CameraIdRewriter {
  import opened Bytes
  import opened Parcels
  import opened Splices
  import opened CameraIds
  import opened ParcelObserver

  datatype RewriteStatus =
    | Rewritten
    | NotEligible
    | InvalidOffsets
    | InvalidReplacement
    | WriteFailed

  /** The number of a replacement ID, if it is one and fits a 32-bit integer. */
  function Parsed(s: seq<byte>): Option<int> {
    if s != [] && AllDigits(s) && NumberOf(s) <= MAX_INT32 then Some(NumberOf(s)) else None
  }

  /** parseNonNegativeInteger. */
  method ParseNonNegativeInteger(s: seq<byte>) returns (r: Option<int>)
    ensures r == Parsed(s)
  {
    if s == [] {
      return None;
    }
    var value := 0;
    var index := 0;
    while index < |s|
      invariant 0 <= index <= |s| && AllDigits(s[..index])
      invariant value == NumberOf(s[..index]) <= MAX_INT32
    {
      if s[index] < ZERO || s[index] > ZERO + 9 {
        return None;
      }
      assert s[..index + 1][..index] == s[..index];
      value := value * 10 + (s[index] - ZERO);
      if value > MAX_INT32 {
        if AllDigits(s) {
          PrefixIsNoLarger(s, index + 1);
        }
        return None;
      }
      index := index + 1;
    }
    assert s[..|s|] == s;
    r := Some(value);
  }

  /** The items a replacement is written as, if the shape can carry it. */
  function Replacement(shape: Shape, id: seq<byte>): Option<seq<Item>>
    requires Writable(id)
  {
    if !HasInteger(shape) then Some(Encoded(id))
    else match Parsed(id) case None => None case Some(n) => Some([Word(n)])
  }

  /** The status of a rewrite of `input` as observed. */
  function StatusFor(o: Observation, id: seq<byte>, input: seq<Item>): RewriteStatus {
    if o.status != Observed || !o.cameraScoped || o.cameraId == [] then NotEligible
    else if o.start >= o.end || o.end > |input| then InvalidOffsets
    else if !Writable(id) then InvalidReplacement
    else if !HasCameraId(o.shape) then NotEligible
    else if Replacement(o.shape, id).None? then InvalidReplacement
    else if o.initialPosition > |input| then WriteFailed
    else Rewritten
  }

  method IsAsciiId(id: seq<byte>) returns (ok: bool)
    ensures ok == Writable(id)
  {
    if |id| == 0 || |id| > 255 {
      return false;
    }
    var index := 0;
    while index < |id|
      invariant 0 <= index <= |id| && forall i | 0 <= i < index :: id[i] <= 0x7f
    {
      if id[index] > 0x7f {
        return false;
      }
      index := index + 1;
    }
    ok := true;
  }

  /**
   rewriteAndroid14CameraId. The input is never changed, not even when it is the output too;
   a rewritten output is the input with the observed ID replaced, its cursor moved along.
   */
  method RewriteCameraId(o: Observation, id: seq<byte>, input: Parcel, output: Parcel?) returns (status: RewriteStatus)
    modifies output
    ensures status == if output == null || output == input then NotEligible else StatusFor(o, id, old(input.data))
    ensures input.data == old(input.data) && input.position == old(input.position)
    ensures status == Rewritten ==>
              var text := Replacement(o.shape, id).value;
              && output != null
              && output.data == Splice(input.data, Span(o.start, o.end), text)
              && output.position == Remap(o.initialPosition, o.start, o.end, o.start + |text|) <= |output.data|
  {
    if output == null || output == input || o.status != Observed || !o.cameraScoped || o.cameraId == [] {
      return NotEligible;
    }
    if o.start >= o.end || o.end > |input.data| {
      return InvalidOffsets;
    }
    var ascii := IsAsciiId(id);
    if !ascii {
      return InvalidReplacement;
    }
    if !HasCameraId(o.shape) {
      return NotEligible;
    }
    output.position := 0;
    output.data := [];
    output.Append(input.data[..o.start]);
    if !HasInteger(o.shape) {
      output.Append(Encoded(id));
    } else {
      var number := ParseNonNegativeInteger(id);
      if number.None? {
        return InvalidReplacement;
      }
      output.Append([Word(number.value)]);
    }
    var replacementEnd := output.position;
    output.Append(input.data[o.end..]);
    var remapped := Remap(o.initialPosition, o.start, o.end, replacementEnd);
    if remapped > |output.data| {
      return WriteFailed;
    }
    output.position := remapped;
    status := Rewritten;
  }

  // ---------------------------------------------------------------------------
  // Observing the rewritten parcel
  // ---------------------------------------------------------------------------

  /** The ID a replacement is observed as. */
  function ObservedId(shape: Shape, id: seq<byte>): seq<byte>
    requires Writable(id) && Replacement(shape, id).Some?
  {
    if HasInteger(shape) then Decimal(Parsed(id).value) else WrittenIs(id); id[..|Written(id)|]
  }

  lemma ReplacementReads(shape: Shape, id: seq<byte>, before: seq<Item>, after: seq<Item>)
    requires Writable(id) && HasCameraId(shape) && Replacement(shape, id).Some?
    ensures var text := Replacement(shape, id).value;
            ReadId(shape, before + text + after, |before|) == Done(ObservedId(shape, id), |before| + |text|)
  {
    if HasInteger(shape) {
      assert (before + Replacement(shape, id).value + after)[|before|] == Word(Parsed(id).value);
    } else {
      WrittenIs(id);
      TextRoundTrip(before, Written(id), after);
      assert IsAscii(Written(id));
      assert Narrowed(Written(id)) == id[..|Written(id)|];
    }
  }

  lemma AsciiTextIsLocal(a: seq<Item>, i: nat, b: seq<Item>, j: nat)
    requires AsciiText(a, i).Done? && i <= AsciiText(a, i).next && Same(a, i, b, j, AsciiText(a, i).next - i)
    ensures AsciiText(b, j) == Done(AsciiText(a, i).value, j + AsciiText(a, i).next - i)
  {
    TextIsLocal(a, i, b, j);
  }

  lemma IdEnds(shape: Shape, d: seq<Item>, p: nat)
    requires ReadId(shape, d, p).Done?
    ensures p < ReadId(shape, d, p).next <= |d|
  {
    if !HasInteger(shape) {
      TextEnds(d, p);
    }
  }

  /** What lies before the span stays, and what lies behind it moves. */
  lemma SpliceAgrees(d: seq<Item>, start: nat, end: nat, text: seq<Item>)
    requires start <= end <= |d|
    ensures var out := Splice(d, Span(start, end), text);
            Same(d, 0, out, 0, start) && Same(d, end, out, start + |text|, |d| - end)
  {
    var out := Splice(d, Span(start, end), text);
    assert out[0..start] == d[0..start];
    assert out[start + |text|..start + |text| + (|d| - end)] == d[end..end + (|d| - end)];
  }

  lemma PackageMoves(d: seq<Item>, end: nat, out: seq<Item>, newEnd: nat)
    requires AsciiText(d, end).Done? && end <= |d| && Same(d, end, out, newEnd, |d| - end)
    ensures AsciiText(out, newEnd).Done? && AsciiText(out, newEnd).value == AsciiText(d, end).value
  {
    TextEnds(d, end);
    SameParts(d, end, out, newEnd, AsciiText(d, end).next - end, |d| - end);
    AsciiTextIsLocal(d, end, out, newEnd);
  }

  /** A payload read piece by piece. */
  lemma DecodeFrom(shape: Shape, d: seq<Item>, p: nat, id: seq<byte>, end: nat, package: seq<byte>)
    requires HasCameraId(shape) && (HasBinder(shape) ==> PresentBinder(d, p))
    requires ReadId(shape, d, if HasBinder(shape) then p + 1 else p) == Done(id, end)
    requires if HasBinder(shape) then AsciiText(d, end).Done? && AsciiText(d, end).value == package else package == []
    ensures Decode(shape, d, p) == Some(Payload(id, package, if HasBinder(shape) then p + 1 else p, end))
  {
  }

  /** Decoding where only the ID differs. */
  lemma DecodeMoved(shape: Shape, d: seq<Item>, p: nat, was: Payload, out: seq<Item>, id: seq<byte>, end: nat)
    requires HasCameraId(shape) && Decode(shape, d, p) == Some(was) && was.end <= |d|
    requires ReadId(shape, out, was.start) == Done(id, end)
    requires Same(d, 0, out, 0, was.start) && Same(d, was.end, out, end, |d| - was.end)
    ensures Decode(shape, out, p) == Some(Payload(id, was.package, was.start, end))
  {
    if HasBinder(shape) {
      SameAt(d, 0, out, 0, was.start, p);
      PackageMoves(d, was.end, out, end);
    }
    DecodeFrom(shape, out, p, id, end, was.package);
  }

  /** Decoding after the ID has been replaced. */
  lemma DecodeAfterSplice(shape: Shape, d: seq<Item>, p: nat, id: seq<byte>)
    requires HasCameraId(shape) && Writable(id) && Replacement(shape, id).Some?
    requires Decode(shape, d, p).Some?
    ensures var was, text := Decode(shape, d, p).value, Replacement(shape, id).value;
            && p <= was.start < was.end <= |d|
            && Decode(shape, Splice(d, Span(was.start, was.end), text), p)
               == Some(Payload(ObservedId(shape, id), was.package, was.start, was.start + |text|))
  {
    var was, text := Decode(shape, d, p).value, Replacement(shape, id).value;
    IdEnds(shape, d, was.start);
    var out := Splice(d, Span(was.start, was.end), text);
    SpliceAgrees(d, was.start, was.end, text);
    ReplacementReads(shape, id, d[..was.start], d[was.end..]);
    DecodeMoved(shape, d, p, was, out, ObservedId(shape, id), was.start + |text|);
  }

  /**
   Main result: for every observed parcel with a camera ID and every replacement its
   shape can carry, observing the rewritten parcel finds the replacement, the same package
   name and the same items behind the ID.
   */
  lemma ObserveAfterRewrite(shape: Shape, descriptor: seq<char16>, d: seq<Item>, id: seq<byte>)
    requires HasCameraId(shape) && Writable(id) && Replacement(shape, id).Some?
    requires StatusOf(shape, d, descriptor) == Observed
    ensures var was, text := PayloadOf(shape, d, descriptor), Replacement(shape, id).value;
            && was.start < was.end <= |d|
            && var out := Splice(d, Span(was.start, was.end), text);
            && StatusOf(shape, out, descriptor) == Observed
            && PayloadOf(shape, out, descriptor)
               == Payload(ObservedId(shape, id), was.package, was.start, was.start + |text|)
            && out[was.start + |text|..] == d[was.end..]
  {
    var p := Header(d, descriptor).value;
    DecodeAfterSplice(shape, d, p, id);
    var was, text := PayloadOf(shape, d, descriptor), Replacement(shape, id).value;
    var out := Splice(d, Span(was.start, was.end), text);
    SpliceAgrees(d, was.start, was.end, text);
    SameParts(d, 0, out, 0, p, was.start);
    HeaderIsLocal(d, out, descriptor);
  }

  /** The observed ID is the replacement, up to the spelling of a number and NUL bytes. */
  lemma ObservedIdIs(shape: Shape, id: seq<byte>)
    requires Writable(id) && Replacement(shape, id).Some?
    ensures HasInteger(shape) ==> Parsed(ObservedId(shape, id)) == Parsed(id)
    ensures !HasInteger(shape) ==> (ObservedId(shape, id) == id <==> 0 !in id)
  {
    if HasInteger(shape) {
      DecimalDenotes(Parsed(id).value);
    } else {
      WrittenIs(id);
    }
  }
}
