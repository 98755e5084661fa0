/**
 Replacing spans of a parcel: one pass over all of them against one at a time, and where
 a cursor goes.
 */
module Splices {
  import opened Parcels

  /** A span of items to replace. */
  datatype Span = Span(start: nat, end: nat)

  /** Non-empty spans in order, from `from` on and within `n` items. */
  predicate Ordered(spans: seq<Span>, from: nat, n: nat) {
    if spans == [] then from <= n
    else from <= spans[0].start < spans[0].end <= n && Ordered(spans[1..], spans[0].end, n)
  }

  /** Single replacement. */
  function Splice(s: seq<Item>, span: Span, text: seq<Item>): seq<Item>
    requires span.start <= span.end <= |s|
  {
    s[..span.start] + text + s[span.end..]
  }

  /** All replacements in one pass over what lies behind `from`. */
  function OnePass(s: seq<Item>, from: nat, spans: seq<Span>, text: seq<Item>): seq<Item>
    requires Ordered(spans, from, |s|)
    decreases |spans|
  {
    if spans == [] then s[from..]
    else s[from..spans[0].start] + text + OnePass(s, spans[0].end, spans[1..], text)
  }

  /** One replacement at a time, the last span first so that the other spans stay put. */
  function Successive(s: seq<Item>, from: nat, spans: seq<Span>, text: seq<Item>): (r: seq<Item>)
    requires Ordered(spans, from, |s|)
    ensures from <= |s| && from <= |r| && r[..from] == s[..from]
    decreases |spans|
  {
    if spans == [] then s
    else
      var later := Successive(s, spans[0].end, spans[1..], text);
      assert later[..spans[0].end][..from] == s[..spans[0].end][..from];
      Splice(later, spans[0], text)
  }

  /** remapDataPosition. */
  function Remap(position: nat, start: nat, end: nat, replacementEnd: nat): nat {
    if position <= start then position
    else if position < end then replacementEnd
    else replacementEnd + (position - end)
  }

  /** The cursor through the successive replacements by `k` items each. */
  function Composed(position: nat, spans: seq<Span>, k: nat): nat {
    if spans == [] then position
    else Remap(Composed(position, spans[1..], k), spans[0].start, spans[0].end, spans[0].start + k)
  }

  /** The cursor in one pass, relative to the output for what lies behind `from`. */
  function Mapped(position: nat, from: nat, spans: seq<Span>, n: nat, k: nat): nat
    requires Ordered(spans, from, n) && from <= position
    decreases |spans|
  {
    if spans == [] || position <= spans[0].start then position - from
    else if position < spans[0].end then spans[0].start - from + k
    else spans[0].start - from + k + Mapped(position, spans[0].end, spans[1..], n, k)
  }

  /** One pass equals one replacement at a time. */
  lemma {:induction false} OnePassIsSuccessive(s: seq<Item>, from: nat, spans: seq<Span>, text: seq<Item>)
    requires Ordered(spans, from, |s|)
    ensures Successive(s, from, spans, text) == s[..from] + OnePass(s, from, spans, text)
    decreases |spans|
  {
    if spans == [] {
    } else {
      var end := spans[0].end;
      OnePassIsSuccessive(s, end, spans[1..], text);
      var later := Successive(s, end, spans[1..], text);
      var rest := OnePass(s, end, spans[1..], text);
      assert later[..spans[0].start] == s[..from] + s[from..spans[0].start];
      assert later[end..] == rest;
    }
  }

  lemma {:induction false} OrderedSpans(spans: seq<Span>, from: nat, n: nat)
    requires Ordered(spans, from, n)
    ensures from <= n && (spans != [] ==> from <= spans[0].start)
    ensures forall i | 0 <= i < |spans| :: from <= spans[i].start < spans[i].end <= n
    ensures forall i | 0 < i < |spans| :: spans[i - 1].end <= spans[i].start
    decreases |spans|
  {
    if spans != [] {
      OrderedSpans(spans[1..], spans[0].end, n);
      assert forall i | 0 < i < |spans| :: spans[i] == spans[1..][i - 1];
    }
  }

  lemma {:induction false} ComposedStays(position: nat, spans: seq<Span>, from: nat, n: nat, k: nat)
    requires Ordered(spans, from, n) && (spans == [] || position <= spans[0].start)
    ensures Composed(position, spans, k) == position
    decreases |spans|
  {
    if spans != [] {
      OrderedSpans(spans[1..], spans[0].end, n);
      ComposedStays(position, spans[1..], spans[0].end, n, k);
    }
  }

  /** The one-pass cursor is the composition of the single remappings. */
  lemma {:induction false} MappedIsComposed(position: nat, from: nat, spans: seq<Span>, n: nat, k: nat)
    requires Ordered(spans, from, n) && from <= position
    ensures Composed(position, spans, k) == from + Mapped(position, from, spans, n, k)
    decreases |spans|
  {
    OrderedSpans(spans, from, n);
    if spans != [] {
      var rest, end := spans[1..], spans[0].end;
      OrderedSpans(rest, end, n);
      if position >= end {
        MappedIsComposed(position, end, rest, n, k);
      } else {
        ComposedStays(position, rest, end, n, k);
      }
    }
  }

  lemma RemapIsMonotone(p: nat, q: nat, start: nat, end: nat, k: nat)
    requires p <= q && start <= end
    ensures Remap(p, start, end, start + k) <= Remap(q, start, end, start + k)
  {
  }

  /** Moving the cursor forward never moves its image back. */
  lemma {:induction false} ComposedIsMonotone(p: nat, q: nat, spans: seq<Span>, from: nat, n: nat, k: nat)
    requires Ordered(spans, from, n) && p <= q
    ensures Composed(p, spans, k) <= Composed(q, spans, k)
    decreases |spans|
  {
    if spans != [] {
      ComposedIsMonotone(p, q, spans[1..], spans[0].end, n, k);
      RemapIsMonotone(Composed(p, spans[1..], k), Composed(q, spans[1..], k), spans[0].start, spans[0].end, k);
    }
  }

  /** The end goes to the end, so no cursor leaves the output. */
  lemma {:induction false} EndGoesToEnd(s: seq<Item>, from: nat, spans: seq<Span>, text: seq<Item>)
    requires Ordered(spans, from, |s|)
    ensures Composed(|s|, spans, |text|) == from + |OnePass(s, from, spans, text)|
    decreases |spans|
  {
    if spans != [] {
      EndGoesToEnd(s, spans[0].end, spans[1..], text);
      OrderedSpans(spans, from, |s|);
    }
  }

  lemma CursorStaysInside(s: seq<Item>, spans: seq<Span>, text: seq<Item>, position: nat)
    requires Ordered(spans, 0, |s|) && position <= |s|
    ensures Composed(position, spans, |text|) <= |OnePass(s, 0, spans, text)|
  {
    ComposedIsMonotone(position, |s|, spans, 0, |s|, |text|);
    EndGoesToEnd(s, 0, spans, text);
  }
}
