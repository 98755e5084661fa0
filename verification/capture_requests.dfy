/**
 submitRequest and submitRequestList parcels: which of them parse, into which parts, and
 where the camera IDs lie.
 */
module CaptureRequests {
  import opened Bytes
  import opened Parcels
  import opened ParcelLayouts
  import opened Splices
  import opened CameraIds

  const SUBMIT_REQUEST: nat := 2
  const SUBMIT_REQUEST_LIST: nat := 3
  const MAX_REQUESTS: int := 256

  // ---------------------------------------------------------------------------
  // One request
  // ---------------------------------------------------------------------------

  /** A non-empty ASCII string of at most 255 characters. */
  function Identifier(d: seq<Item>, p: nat): Read<seq<byte>> {
    match Text(d, p)
    case Fail => Fail
    case Done(t, next) => if t == [] || |t| > 255 || !IsAscii(t) then Fail else Done(Narrowed(t), next)
  }

  /** The items of one request: its encoded camera ID, and everything behind it. */
  datatype Part = Part(id: seq<Item>, tail: seq<Item>)

  function PartItems(part: Part): seq<Item> {
    [Word(1), Word(1)] + part.id + part.tail
  }

  function Cut(d: seq<Item>, from: nat, to: nat): seq<Item> {
    if from <= to <= |d| then d[from..to] else []
  }

  type NameReader = (seq<Item>, nat) -> Read<seq<byte>>
  type PartReader = (seq<Item>, nat) -> Option<Part>

  /** One request for camera `id`, whose name and tail are read by the given functions. */
  function Request(name: NameReader, tail: Layout, d: seq<Item>, p: nat, id: seq<byte>): Option<Part> {
    if !AllWords(d, p, 2) || d[p].v != 1 || d[p + 1].v != 1 then None
    else match name(d, p + 2)
         case Fail => None
         case Done(found, q) =>
           if found != id then None
           else match tail(d, q)
                case None => None
                case Some(r) => Some(Part(Cut(d, p + 2, q), Cut(d, q, r)))
  }

  /** A request for `id`, with `layout` behind the ID. */
  function RequestOf(layout: Layout, id: seq<byte>): PartReader {
    (d: seq<Item>, p: nat) => Request(Identifier, layout, d, p, id)
  }

  // ---------------------------------------------------------------------------
  // Whole parcels
  // ---------------------------------------------------------------------------

  /** What a parcel parses to: header and count, the requests, and the streaming flag. */
  datatype Batch = Batch(prefix: seq<Item>, parts: seq<Part>, flag: Item)

  function Body(parts: seq<Part>): seq<Item> {
    if parts == [] then [] else PartItems(parts[0]) + Body(parts[1..])
  }

  function Items(b: Batch): seq<Item> {
    b.prefix + Body(b.parts) + [b.flag]
  }

  /** The header and, for a list, the number of requests: where they end, and the count. */
  function Prefix(code: nat, d: seq<Item>, descriptor: seq<char16>): Option<(nat, nat)> {
    match Header(d, descriptor)
    case None => None
    case Some(p) =>
      if code == SUBMIT_REQUEST then Some((p, 1))
      else if code != SUBMIT_REQUEST_LIST then None
      else match Int(d, p)
           case Fail => None
           case Done(count, q) => if 0 < count <= MAX_REQUESTS then Some((q, count)) else None
  }

  /** `count` requests in a row, each read by `one`. */
  function Requests(one: PartReader, count: nat, d: seq<Item>, p: nat): Option<seq<Part>>
    decreases count
  {
    if count == 0 then Some([])
    else match one(d, p)
         case None => None
         case Some(part) =>
           match Requests(one, count - 1, d, p + |PartItems(part)|)
           case None => None
           case Some(parts) => Some([part] + parts)
  }

  /** `count` requests from `p` on, and one more word. */
  function ParseFrom(one: PartReader, count: nat, d: seq<Item>, p: nat): Option<Batch> {
    match Requests(one, count, d, p)
    case None => None
    case Some(parts) =>
      var end := p + |Body(parts)|;
      if |d| == end + 1 && d[end].Word? then Some(Batch(d[..p], parts, d[end])) else None
  }

  /** The parts of a parcel whose requests are all for camera `id`. */
  function Parse(layout: Layout, descriptor: seq<char16>, code: nat, d: seq<Item>, id: seq<byte>): Option<Batch> {
    match Prefix(code, d, descriptor)
    case None => None
    case Some((p, count)) => ParseFrom(RequestOf(layout, id), count, d, p)
  }

  /** Where the IDs of the requests lie, the first request starting at `base`. */
  function Spans(parts: seq<Part>, base: nat): seq<Span> {
    if parts == [] then []
    else [Span(base + 2, base + 2 + |parts[0].id|)] + Spans(parts[1..], base + |PartItems(parts[0])|)
  }

  // ---------------------------------------------------------------------------
  // A parcel that parses is its parts, with nothing left over
  // ---------------------------------------------------------------------------

  lemma BodyFirst(part: Part, rest: seq<Part>)
    ensures Body([part] + rest) == PartItems(part) + Body(rest)
  {
    assert ([part] + rest)[1..] == rest;
  }

  lemma BodyLast(parts: seq<Part>, part: Part)
    ensures Body(parts + [part]) == Body(parts) + PartItems(part)
  {
    if parts != [] {
      BodyLast(parts[1..], part);
      assert (parts + [part])[1..] == parts[1..] + [part];
    } else {
      assert parts + [part] == [part];
    }
  }

  /** The request lies at `p`, its name and tail where the readers found them. */
  ghost predicate LiesAt(part: Part, d: seq<Item>, p: nat) {
    p + |PartItems(part)| <= |d| && d[p..p + |PartItems(part)|] == PartItems(part)
  }

  /** A name reader that moves forward and stays inside the sequence. */
  ghost predicate Fitting(name: NameReader) {
    forall d, p: nat | name(d, p).Done? :: p < name(d, p).next <= |d|
  }

  lemma IdentifierFits()
    ensures Fitting(Identifier)
  {
    forall d, p: nat | Identifier(d, p).Done? ensures p < Identifier(d, p).next <= |d| {
      TextEnds(d, p);
    }
  }

  lemma RequestLies(name: NameReader, tail: Layout, d: seq<Item>, p: nat, id: seq<byte>)
    requires Fitting(name) && Proper(tail) && Request(name, tail, d, p, id).Some?
    ensures var part := Request(name, tail, d, p, id).value;
            && LiesAt(part, d, p) && part.id != []
            && tail(d, p + 2 + |part.id|) == Some(p + |PartItems(part)|)
  {
    var q := name(d, p + 2).next;
    assert Moves(tail, d, q, d, q);
    var r := tail(d, q).value;
    assert d[p..r] == [d[p], d[p + 1]] + d[p + 2..q] + d[q..r];
  }

  ghost predicate Lying(one: PartReader) {
    forall d, p: nat | one(d, p).Some? :: LiesAt(one(d, p).value, d, p) && one(d, p).value.id != []
  }

  lemma RequestOfLies(layout: Layout, id: seq<byte>)
    requires Proper(layout)
    ensures Lying(RequestOf(layout, id))
  {
    IdentifierFits();
    forall d, p: nat | RequestOf(layout, id)(d, p).Some?
      ensures LiesAt(RequestOf(layout, id)(d, p).value, d, p) && RequestOf(layout, id)(d, p).value.id != []
    {
      RequestLies(Identifier, layout, d, p, id);
    }
  }

  predicate Named(parts: seq<Part>) {
    forall i | 0 <= i < |parts| :: parts[i].id != []
  }

  lemma {:induction false} RequestsLie(one: PartReader, count: nat, d: seq<Item>, p: nat)
    requires Lying(one) && Requests(one, count, d, p).Some? && p <= |d|
    ensures var parts := Requests(one, count, d, p).value;
            && |parts| == count && Named(parts)
            && p + |Body(parts)| <= |d| && d[p..p + |Body(parts)|] == Body(parts)
    decreases count
  {
    if count > 0 {
      var part := one(d, p).value;
      var q := p + |PartItems(part)|;
      assert LiesAt(part, d, p);
      RequestsLie(one, count - 1, d, q);
      var rest := Requests(one, count - 1, d, q).value;
      BodyFirst(part, rest);
      assert d[p..q + |Body(rest)|] == d[p..q] + d[q..q + |Body(rest)|];
    }
  }

  lemma ParseFromIsExact(one: PartReader, count: nat, d: seq<Item>, p: nat)
    requires Lying(one) && ParseFrom(one, count, d, p).Some?
    ensures var b := ParseFrom(one, count, d, p).value;
            Items(b) == d && |b.prefix| == p && |b.parts| == count && Named(b.parts)
  {
    RequestsLie(one, count, d, p);
    var end := p + |Body(Requests(one, count, d, p).value)|;
    assert d == d[..p] + d[p..end] + [d[end]];
  }

  lemma ParseIsExact(layout: Layout, descriptor: seq<char16>, code: nat, d: seq<Item>, id: seq<byte>)
    requires Proper(layout) && Parse(layout, descriptor, code, d, id).Some?
    ensures var b := Parse(layout, descriptor, code, d, id).value;
            Items(b) == d && 0 < |b.parts| <= MAX_REQUESTS && Named(b.parts)
  {
    var (p, count) := Prefix(code, d, descriptor).value;
    RequestOfLies(layout, id);
    ParseFromIsExact(RequestOf(layout, id), count, d, p);
  }
}
