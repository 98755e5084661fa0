/**
 Replacing the camera ID of every request in a parcel: the result parses, under the new
 ID, to the same requests; and it is a splice over the spans of the old IDs.
 */
module RequestRenaming {
  import opened Bytes
  import opened Parcels
  import opened ParcelLayouts
  import opened Splices
  import opened CameraIds
  import opened CaptureRequests

  /** The same requests with another encoded ID. */
  function Renamed(parts: seq<Part>, id: seq<Item>): (r: seq<Part>)
    ensures |r| == |parts| && forall i | 0 <= i < |parts| :: r[i] == Part(id, parts[i].tail)
  {
    seq(|parts|, i requires 0 <= i < |parts| => Part(id, parts[i].tail))
  }

  function RenamedBatch(b: Batch, id: seq<Item>): Batch {
    b.(parts := Renamed(b.parts, id))
  }

  // ---------------------------------------------------------------------------
  // One request
  // ---------------------------------------------------------------------------

  /** `name` reads `text` as `id`, wherever it lies. */
  ghost predicate Reads(name: NameReader, text: seq<Item>, id: seq<byte>) {
    forall before: seq<Item>, after: seq<Item> :: name(before + text + after, |before|) == Done(id, |before| + |text|)
  }

  lemma EncodedReads(id: seq<byte>)
    requires Writable(id) && 0 !in id
    ensures Reads(Identifier, Encoded(id), id)
  {
    WrittenIs(id);
    assert Narrowed(Written(id)) == id;
    forall before: seq<Item>, after: seq<Item>
      ensures Identifier(before + Encoded(id) + after, |before|) == Done(id, |before| + |Encoded(id)|)
    {
      TextRoundTrip(before, Written(id), after);
    }
  }

  /** The pieces of a request written between `before` and `after`. */
  lemma PartPlaces(before: seq<Item>, part: Part, after: seq<Item>)
    ensures var d, p := before + PartItems(part) + after, |before|;
            && AllWords(d, p, 2) && d[p] == Word(1) && d[p + 1] == Word(1)
            && d == (before + [Word(1), Word(1)]) + part.id + (part.tail + after)
            && Cut(d, p + 2, p + 2 + |part.id|) == part.id
            && Cut(d, p + 2 + |part.id|, p + |PartItems(part)|) == part.tail
  {
  }

  lemma RenamedRequestParses(name: NameReader, tail: Layout, a: seq<Item>, i: nat, id: seq<byte>,
                             text: seq<Item>, renamed: seq<byte>, before: seq<Item>, after: seq<Item>)
    requires Fitting(name) && Proper(tail) && Reads(name, text, renamed)
    requires Request(name, tail, a, i, id).Some?
    ensures var part := Part(text, Request(name, tail, a, i, id).value.tail);
            Request(name, tail, before + PartItems(part) + after, |before|, renamed) == Some(part)
  {
    RequestLies(name, tail, a, i, id);
    var was := Request(name, tail, a, i, id).value;
    var part := Part(text, was.tail);
    var d, p := before + PartItems(part) + after, |before|;
    PartPlaces(before, part, after);
    var front := before + [Word(1), Word(1)];
    assert name(front + text + (was.tail + after), |front|) == Done(renamed, |front| + |text|);
    var q, q' := i + 2 + |was.id|, p + 2 + |text|;
    TailsAgree(a, i, was, before, text, after);
    assert Moves(tail, a, q, d, q');
  }

  lemma TailsAgree(a: seq<Item>, i: nat, was: Part, before: seq<Item>, text: seq<Item>, after: seq<Item>)
    requires LiesAt(was, a, i)
    ensures var d := before + PartItems(Part(text, was.tail)) + after;
            Same(a, i + 2 + |was.id|, d, |before| + 2 + |text|, |was.tail|)
  {
    PartPlaces(before, Part(text, was.tail), after);
    var items := PartItems(was);
    SameParts(a, i, items, 0, 2 + |was.id|, |items|);
    assert items[2 + |was.id|..|items|] == was.tail;
  }

  // ---------------------------------------------------------------------------
  // All requests
  // ---------------------------------------------------------------------------

  /** What `one` reads anywhere, `other` reads with the ID replaced, wherever it is written. */
  ghost predicate Renames(one: PartReader, other: PartReader, id: seq<Item>) {
    forall a, i: nat, before, after | one(a, i).Some? ::
      other(before + PartItems(Part(id, one(a, i).value.tail)) + after, |before|)
      == Some(Part(id, one(a, i).value.tail))
  }

  lemma RequestOfRenames(layout: Layout, id: seq<byte>, renamed: seq<byte>)
    requires Proper(layout) && Writable(renamed) && 0 !in renamed
    ensures Renames(RequestOf(layout, id), RequestOf(layout, renamed), Encoded(renamed))
  {
    IdentifierFits();
    EncodedReads(renamed);
    forall a, i: nat, before, after | RequestOf(layout, id)(a, i).Some?
      ensures var part := Part(Encoded(renamed), RequestOf(layout, id)(a, i).value.tail);
              RequestOf(layout, renamed)(before + PartItems(part) + after, |before|) == Some(part)
    {
      RenamedRequestParses(Identifier, layout, a, i, id, Encoded(renamed), renamed, before, after);
    }
  }

  lemma RenamedFirst(part: Part, rest: seq<Part>, id: seq<Item>)
    ensures Renamed([part] + rest, id) == [Part(id, part.tail)] + Renamed(rest, id)
  {
  }

  /** The first request of a body, and the others behind it. */
  lemma BodyPlaces(before: seq<Item>, part: Part, rest: seq<Part>, after: seq<Item>)
    ensures var d := before + Body([part] + rest) + after;
            && d == before + PartItems(part) + (Body(rest) + after)
            && d == (before + PartItems(part)) + Body(rest) + after
  {
    BodyFirst(part, rest);
  }

  lemma {:induction false} RenamedRequestsParse(one: PartReader, other: PartReader, count: nat, a: seq<Item>, i: nat,
                                                id: seq<Item>, before: seq<Item>, after: seq<Item>)
    requires Renames(one, other, id) && Requests(one, count, a, i).Some?
    ensures var parts := Renamed(Requests(one, count, a, i).value, id);
            Requests(other, count, before + Body(parts) + after, |before|) == Some(parts)
    decreases count
  {
    if count > 0 {
      var was := one(a, i).value;
      var rest := Requests(one, count - 1, a, i + |PartItems(was)|).value;
      var part, parts := Part(id, was.tail), Renamed(rest, id);
      BodyPlaces(before, part, parts, after);
      RenamedFirst(was, rest, id);
      assert other(before + PartItems(part) + (Body(parts) + after), |before|) == Some(part);
      RenamedRequestsParse(one, other, count - 1, a, i + |PartItems(was)|, id, before + PartItems(part), after);
    }
  }

  // ---------------------------------------------------------------------------
  // Whole parcels
  // ---------------------------------------------------------------------------

  lemma PrefixIsLocal(code: nat, a: seq<Item>, b: seq<Item>, descriptor: seq<char16>)
    requires Prefix(code, a, descriptor).Some? && Same(a, 0, b, 0, Prefix(code, a, descriptor).value.0)
    ensures Prefix(code, b, descriptor) == Prefix(code, a, descriptor)
  {
    var p, q := Header(a, descriptor).value, Prefix(code, a, descriptor).value.0;
    SameParts(a, 0, b, 0, p, q);
    HeaderIsLocal(a, b, descriptor);
    if code == SUBMIT_REQUEST_LIST {
      SameAt(a, 0, b, 0, q, p);
    }
  }

  lemma RenamedFrom(one: PartReader, other: PartReader, count: nat, d: seq<Item>, p: nat, id: seq<Item>)
    requires Renames(one, other, id) && ParseFrom(one, count, d, p).Some?
    ensures var b := RenamedBatch(ParseFrom(one, count, d, p).value, id);
            ParseFrom(other, count, Items(b), p) == Some(b) && Same(d, 0, Items(b), 0, p)
  {
    var b := RenamedBatch(ParseFrom(one, count, d, p).value, id);
    RenamedRequestsParse(one, other, count, d, p, id, b.prefix, [b.flag]);
    assert Items(b)[0..p] == d[0..p];
  }

  /**
   Main result: for every parcel that parses under one ID, the parcel with a NUL-free ID
   in its place parses under that ID, to the same requests with only the ID changed.
   */
  lemma RenamedParses(layout: Layout, descriptor: seq<char16>, code: nat, d: seq<Item>,
                      id: seq<byte>, renamed: seq<byte>)
    requires Proper(layout) && Parse(layout, descriptor, code, d, id).Some? && Writable(renamed) && 0 !in renamed
    ensures var b := RenamedBatch(Parse(layout, descriptor, code, d, id).value, Encoded(renamed));
            Parse(layout, descriptor, code, Items(b), renamed) == Some(b)
  {
    var (p, count) := Prefix(code, d, descriptor).value;
    RequestOfRenames(layout, id, renamed);
    RenamedFrom(RequestOf(layout, id), RequestOf(layout, renamed), count, d, p, Encoded(renamed));
    PrefixIsLocal(code, d, Items(RenamedBatch(Parse(layout, descriptor, code, d, id).value, Encoded(renamed))),
                  descriptor);
  }

  // ---------------------------------------------------------------------------
  // IDs with a NUL byte
  // ---------------------------------------------------------------------------

  lemma NulNameFails(id: seq<byte>, before: seq<Item>, after: seq<Item>)
    requires Writable(id) && 0 in id
    ensures var r := Identifier(before + Encoded(id) + after, |before|); r.Done? ==> r.value != id
  {
    WrittenIs(id);
    TextRoundTrip(before, Written(id), after);
    if Written(id) != [] && IsAscii(Written(id)) {
      assert |Narrowed(Written(id))| < |id|;
    }
  }

  lemma NulRequestFails(name: NameReader, layout: Layout, text: seq<Item>, id: seq<byte>,
                        before: seq<Item>, tail: seq<Item>, after: seq<Item>)
    requires forall b: seq<Item>, a: seq<Item> :: name(b + text + a, |b|).Done? ==> name(b + text + a, |b|).value != id
    ensures Request(name, layout, before + PartItems(Part(text, tail)) + after, |before|, id).None?
  {
    PartPlaces(before, Part(text, tail), after);
    var front := before + [Word(1), Word(1)];
    assert name(front + text + (tail + after), |front|).Done? ==>
             name(front + text + (tail + after), |front|).value != id;
  }

  lemma NulBreaksFrom(one: PartReader, other: PartReader, count: nat, d: seq<Item>, p: nat, id: seq<Item>)
    requires Lying(one) && ParseFrom(one, count, d, p).Some? && count > 0
    requires forall before, tail, after :: other(before + PartItems(Part(id, tail)) + after, |before|).None?
    ensures var b := RenamedBatch(ParseFrom(one, count, d, p).value, id);
            ParseFrom(other, count, Items(b), p).None? && Same(d, 0, Items(b), 0, p)
  {
    ParseFromIsExact(one, count, d, p);
    var b := RenamedBatch(ParseFrom(one, count, d, p).value, id);
    assert b.parts == [b.parts[0]] + b.parts[1..];
    BodyPlaces(b.prefix, b.parts[0], b.parts[1..], [b.flag]);
    assert Items(b)[0..p] == d[0..p];
  }

  /** An ID with a NUL byte is written short, and the result does not parse under it. */
  lemma NulBreaksRenaming(layout: Layout, descriptor: seq<char16>, code: nat, d: seq<Item>,
                          id: seq<byte>, renamed: seq<byte>)
    requires Proper(layout) && Parse(layout, descriptor, code, d, id).Some? && Writable(renamed) && 0 in renamed
    ensures var b := RenamedBatch(Parse(layout, descriptor, code, d, id).value, Encoded(renamed));
            Parse(layout, descriptor, code, Items(b), renamed).None?
  {
    var (p, count) := Prefix(code, d, descriptor).value;
    RequestOfLies(layout, id);
    var text := Encoded(renamed);
    forall b: seq<Item>, a: seq<Item>
      ensures Identifier(b + text + a, |b|).Done? ==> Identifier(b + text + a, |b|).value != renamed
    {
      NulNameFails(renamed, b, a);
    }
    forall before, tail, after
      ensures RequestOf(layout, renamed)(before + PartItems(Part(text, tail)) + after, |before|).None?
    {
      NulRequestFails(Identifier, layout, text, renamed, before, tail, after);
    }
    NulBreaksFrom(RequestOf(layout, id), RequestOf(layout, renamed), count, d, p, Encoded(renamed));
    PrefixIsLocal(code, d, Items(RenamedBatch(Parse(layout, descriptor, code, d, id).value, Encoded(renamed))),
                  descriptor);
  }

  /** The renamed parcel parses under the new ID exactly when that ID has no NUL byte. */
  lemma RenamedParsesExactly(layout: Layout, descriptor: seq<char16>, code: nat, d: seq<Item>,
                             id: seq<byte>, renamed: seq<byte>)
    requires Proper(layout) && Parse(layout, descriptor, code, d, id).Some? && Writable(renamed)
    ensures var b := RenamedBatch(Parse(layout, descriptor, code, d, id).value, Encoded(renamed));
            Parse(layout, descriptor, code, Items(b), renamed) == if 0 !in renamed then Some(b) else None
  {
    if 0 !in renamed {
      RenamedParses(layout, descriptor, code, d, id, renamed);
    } else {
      NulBreaksRenaming(layout, descriptor, code, d, id, renamed);
    }
  }

  // ---------------------------------------------------------------------------
  // The same edit as a splice
  // ---------------------------------------------------------------------------

  lemma {:induction false} SpansAreOrdered(parts: seq<Part>, from: nat, base: nat, n: nat)
    requires Named(parts) && from <= base && base + |Body(parts)| <= n
    ensures Ordered(Spans(parts, base), from, n)
    decreases |parts|
  {
    if parts != [] {
      assert Named(parts[1..]);
      SpansAreOrdered(parts[1..], base + 2 + |parts[0].id|, base + |PartItems(parts[0])|, n);
    }
  }

  lemma PartWithin(pre: seq<Item>, part: Part, more: seq<Item>, from: nat)
    requires from <= |pre|
    ensures (pre + PartItems(part) + more)[from..|pre| + 2] == pre[from..] + [Word(1), Word(1)]
    ensures (pre + PartItems(part))[|pre| + 2 + |part.id|..] == part.tail
  {
  }

  lemma OnePassStep(before: seq<Item>, text: seq<Item>, tail: seq<Item>, rest: seq<Part>, after: seq<Item>)
    ensures before + [Word(1), Word(1)] + text + (tail + Body(rest) + after)
            == before + Body([Part(text, tail)] + rest) + after
  {
    BodyFirst(Part(text, tail), rest);
  }

  lemma OnePassFirst(s: seq<Item>, from: nat, span: Span, spans: seq<Span>, text: seq<Item>)
    requires Ordered([span] + spans, from, |s|) && Ordered(spans, span.end, |s|) && span.start <= |s|
    ensures from <= span.start
    ensures OnePass(s, from, [span] + spans, text) == s[from..span.start] + text + OnePass(s, span.end, spans, text)
  {
    assert ([span] + spans)[1..] == spans;
  }

  /** Splicing `text` over the IDs of laid-out requests lays out the renamed requests. */
  lemma {:induction false} OnePassRenames(s: seq<Item>, pre: seq<Item>, parts: seq<Part>, post: seq<Item>,
                                          from: nat, text: seq<Item>)
    requires Named(parts) && from <= |pre| && s == pre + Body(parts) + post
    ensures Ordered(Spans(parts, |pre|), from, |s|)
    ensures OnePass(s, from, Spans(parts, |pre|), text) == pre[from..] + Body(Renamed(parts, text)) + post
    decreases |parts|, 0
  {
    SpansAreOrdered(parts, from, |pre|, |s|);
    if parts == [] {
      assert s[from..] == pre[from..] + [] + post;
    } else {
      var part, rest := parts[0], parts[1..];
      assert parts == [part] + rest;
      OnePassRenamesFirst(s, pre, part, rest, post, from, text);
    }
  }

  lemma {:induction false} OnePassRenamesFirst(s: seq<Item>, pre: seq<Item>, part: Part, rest: seq<Part>,
                                               post: seq<Item>, from: nat, text: seq<Item>)
    requires Named([part] + rest) && from <= |pre| && s == pre + Body([part] + rest) + post
    requires Ordered(Spans([part] + rest, |pre|), from, |s|)
    ensures OnePass(s, from, Spans([part] + rest, |pre|), text)
            == pre[from..] + Body(Renamed([part] + rest, text)) + post
    decreases |rest|, 1
  {
    var span := Span(|pre| + 2, |pre| + 2 + |part.id|);
    var next := pre + PartItems(part);
    BodyPlaces(pre, part, rest, post);
    PartWithin(pre, part, Body(rest) + post, from);
    RestNamed(part, rest);
    OnePassRenames(s, next, rest, post, span.end, text);
    assert Spans([part] + rest, |pre|) == [span] + Spans(rest, |next|);
    OnePassFirst(s, from, span, Spans(rest, |next|), text);
    RenamedFirst(part, rest, text);
    OnePassStep(pre[from..], text, part.tail, Renamed(rest, text), post);
  }

  lemma RestNamed(part: Part, rest: seq<Part>)
    requires Named([part] + rest)
    ensures Named(rest) && ([part] + rest)[1..] == rest
  {
    assert forall i | 0 <= i < |rest| :: rest[i] == ([part] + rest)[i + 1];
  }

  /** The one-pass splice over the spans of a batch is the renamed batch. */
  lemma SpliceRenames(d: seq<Item>, b: Batch, text: seq<Item>)
    requires Items(b) == d && Named(b.parts)
    ensures Ordered(Spans(b.parts, |b.prefix|), 0, |d|)
    ensures OnePass(d, 0, Spans(b.parts, |b.prefix|), text) == Items(RenamedBatch(b, text))
  {
    OnePassRenames(d, b.prefix, b.parts, [b.flag], 0, text);
    assert b.prefix[0..] == b.prefix;
  }
}
