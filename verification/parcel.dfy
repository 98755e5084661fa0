/**
 Parcels as sequences of items with a cursor: 32-bit words, and binder or descriptor
 objects that no word read can cross. Positions count items.
 */
module Parcels {
  type word = x: int | 0 <= x < 0x1_0000_0000
  type char16 = x: int | 0 <= x < 0x1_0000

  const MAX_INT32: int := 0x7fff_ffff
  const MIN_INT32: int := -0x8000_0000

  datatype Item =
    | Word(v: word)
    | Binder(handle: nat)          // 0 is the null binder
    | Descriptor(capacity: nat)    // a file descriptor and the size of what it maps

  /** The outcome of reading at a position: the value and the position behind it. */
  datatype Read<T> = Fail | Done(value: T, next: nat)

  datatype Option<T> = None | Some(value: T)

  function Signed(v: word): int {
    if v < 0x8000_0000 then v else v - 0x1_0000_0000
  }

  /** readInt32. */
  function Int(d: seq<Item>, p: nat): Read<int> {
    if p < |d| && d[p].Word? then Done(Signed(d[p].v), p + 1) else Fail
  }

  predicate AllWords(d: seq<Item>, p: nat, n: nat) {
    p + n <= |d| && forall i | p <= i < p + n :: d[i].Word?
  }

  /** Code unit `i` of the words from `p` on: two to a word, low half first. */
  function UnitAt(d: seq<Item>, p: nat, i: nat): char16
    requires p + i / 2 < |d| && d[p + i / 2].Word?
  {
    if i % 2 == 0 then d[p + i / 2].v % 0x1_0000 else d[p + i / 2].v / 0x1_0000
  }

  function Unpacked(d: seq<Item>, p: nat, n: nat): (r: seq<char16>)
    requires AllWords(d, p, n / 2 + 1)
    ensures |r| == n
  {
    seq(n, i requires 0 <= i < n => UnitAt(d, p, i))
  }

  /** readString16Inplace: a length, that many code units, a terminator, padding to a word. */
  function Text(d: seq<Item>, p: nat): Read<seq<char16>> {
    match Int(d, p)
    case Fail => Fail
    case Done(n, _) =>
      if n < 0 || n == MAX_INT32 || !AllWords(d, p + 1, n / 2 + 1) || UnitAt(d, p + 1, n) != 0 then Fail
      else Done(Unpacked(d, p + 1, n), p + n / 2 + 2)
  }

  /** readString16 into an optional: a negative length is the null string. */
  function OptionalText(d: seq<Item>, p: nat): Read<Option<seq<char16>>> {
    match Int(d, p)
    case Fail => Fail
    case Done(n, _) =>
      if n < 0 then Done(None, p + 1)
      else match Text(d, p) case Fail => Fail case Done(t, next) => Done(Some(t), next)
  }

  function Unit(t: seq<char16>, i: nat): char16 {
    if i < |t| then t[i] else 0
  }

  /** writeString16. */
  function TextItems(t: seq<char16>): (r: seq<Item>)
    requires |t| < MAX_INT32
    ensures |r| == |t| / 2 + 2
  {
    [Word(|t|)] + seq(|t| / 2 + 1, j requires 0 <= j => Word(Unit(t, 2 * j) + 0x1_0000 * Unit(t, 2 * j + 1)))
  }

  // ---------------------------------------------------------------------------
  // Reading depends only on what is read
  // ---------------------------------------------------------------------------

  /** `a` from `i` and `b` from `j` agree on `n` items. */
  predicate Same(a: seq<Item>, i: nat, b: seq<Item>, j: nat, n: nat) {
    i + n <= |a| && j + n <= |b| && a[i..i + n] == b[j..j + n]
  }

  lemma SameAt(a: seq<Item>, i: nat, b: seq<Item>, j: nat, n: nat, k: nat)
    requires Same(a, i, b, j, n) && k < n
    ensures a[i + k] == b[j + k]
  {
    assert a[i..i + n][k] == b[j..j + n][k];
  }

  lemma SameParts(a: seq<Item>, i: nat, b: seq<Item>, j: nat, m: nat, n: nat)
    requires m <= n && Same(a, i, b, j, n)
    ensures Same(a, i, b, j, m) && Same(a, i + m, b, j + m, n - m)
  {
    var s := a[i..i + n];
    assert a[i..i + m] == s[..m] && b[j..j + m] == s[..m];
    assert a[i + m..i + n] == s[m..] && b[j + m..j + n] == s[m..];
  }

  lemma TextEnds(d: seq<Item>, p: nat)
    requires Text(d, p).Done?
    ensures p < Text(d, p).next <= |d|
    ensures Text(d, p).next == p + |Text(d, p).value| / 2 + 2 && |Text(d, p).value| < MAX_INT32
  {
  }

  lemma TextIsLocal(a: seq<Item>, i: nat, b: seq<Item>, j: nat)
    requires Text(a, i).Done? && Same(a, i, b, j, Text(a, i).next - i)
    ensures Text(b, j) == Done(Text(a, i).value, j + Text(a, i).next - i)
  {
    TextEnds(a, i);
    var used := Text(a, i).next - i;
    var n := |Text(a, i).value|;
    SameAt(a, i, b, j, used, 0);
    forall m | j + 1 <= m < j + 1 + n / 2 + 1 ensures b[m].Word? {
      SameAt(a, i, b, j, used, m - j);
    }
    var p, q := i + 1, j + 1;
    forall k | 0 <= k <= n ensures UnitAt(a, p, k) == UnitAt(b, q, k) {
      SameAt(a, i, b, j, used, 1 + k / 2);
    }
    assert Unpacked(a, i + 1, n) == Unpacked(b, j + 1, n);
  }

  lemma OptionalTextEnds(d: seq<Item>, p: nat)
    requires OptionalText(d, p).Done?
    ensures p < OptionalText(d, p).next <= |d|
  {
    if Signed(d[p].v) >= 0 {
      TextEnds(d, p);
    }
  }

  lemma OptionalTextIsLocal(a: seq<Item>, i: nat, b: seq<Item>, j: nat)
    requires OptionalText(a, i).Done? && i <= OptionalText(a, i).next && Same(a, i, b, j, OptionalText(a, i).next - i)
    ensures OptionalText(b, j) == Done(OptionalText(a, i).value, j + OptionalText(a, i).next - i)
  {
    OptionalTextEnds(a, i);
    SameAt(a, i, b, j, OptionalText(a, i).next - i, 0);
    if Signed(a[i].v) >= 0 {
      TextIsLocal(a, i, b, j);
    }
  }

  lemma UnitHalves(low: char16, high: char16)
    ensures (low + 0x1_0000 * high) % 0x1_0000 == low && (low + 0x1_0000 * high) / 0x1_0000 == high
  {
  }

  lemma TextItemsRead(t: seq<char16>)
    requires |t| < MAX_INT32
    ensures Text(TextItems(t), 0) == Done(t, |t| / 2 + 2)
  {
    var d, n := TextItems(t), |t|;
    forall i | 1 <= i < n / 2 + 2 ensures d[i] == Word(Unit(t, 2 * (i - 1)) + 0x1_0000 * Unit(t, 2 * (i - 1) + 1)) {
    }
    forall i | 0 <= i <= n ensures UnitAt(d, 1, i) == Unit(t, i) {
      UnitHalves(Unit(t, 2 * (i / 2)), Unit(t, 2 * (i / 2) + 1));
    }
    assert Unpacked(d, 1, n) == t;
  }

  /** Reading back a written string, wherever it was written. */
  lemma TextRoundTrip(before: seq<Item>, t: seq<char16>, after: seq<Item>)
    requires |t| < MAX_INT32
    ensures Text(before + TextItems(t) + after, |before|) == Done(t, |before| + |TextItems(t)|)
  {
    TextItemsRead(t);
    var d := before + TextItems(t) + after;
    assert d[|before|..|before| + |TextItems(t)|] == TextItems(t)[0..|TextItems(t)|];
    TextIsLocal(TextItems(t), 0, d, |before|);
  }

  /** `items` lie at `p`. */
  predicate Lies(items: seq<Item>, d: seq<Item>, p: nat) {
    p + |items| <= |d| && d[p..p + |items|] == items
  }

  lemma LiesSplit(x: seq<Item>, y: seq<Item>, d: seq<Item>, p: nat)
    requires Lies(x + y, d, p)
    ensures Lies(x, d, p) && Lies(y, d, p + |x|)
  {
    assert d[p..p + |x|] == (x + y)[..|x|];
    assert d[p + |x|..p + |x| + |y|] == (x + y)[|x|..];
  }

  lemma TextLies(t: seq<char16>, d: seq<Item>, p: nat)
    requires |t| < MAX_INT32 && Lies(TextItems(t), d, p)
    ensures Text(d, p) == Done(t, p + |TextItems(t)|) && OptionalText(d, p) == Done(Some(t), p + |TextItems(t)|)
  {
    TextItemsRead(t);
    var n := |TextItems(t)|;
    assert TextItems(t)[0..0 + n] == TextItems(t);
    TextIsLocal(TextItems(t), 0, d, p);
  }

  /** The parcel object. */
  class Parcel {
    var data: seq<Item>
    var position: nat

    constructor ()
      ensures data == [] && position == 0
    {
      data, position := [], 0;
    }

    method ReadInt32() returns (r: Read<int>)
      modifies this`position
      ensures r == old(Int(data, position))
      ensures position == if r.Done? then r.next else old(position)
    {
      r := Int(data, position);
      if r.Done? {
        position := r.next;
      }
    }

    /** readString16Inplace: a failure leaves the cursor behind what was read. */
    method ReadText() returns (r: Read<seq<char16>>)
      modifies this`position
      ensures r == old(Text(data, position))
      ensures r.Done? ==> position == r.next
      ensures old(position) <= position
    {
      var start := position;
      var size := ReadInt32();
      r := Text(data, start);
      if r.Done? {
        position := r.next;
      }
    }

    method ReadOptionalText() returns (r: Read<Option<seq<char16>>>)
      modifies this`position
      ensures r == old(OptionalText(data, position))
      ensures r.Done? ==> position == r.next
      ensures old(position) <= position
    {
      var start := position;
      var size := ReadInt32();
      if size.Fail? {
        return Fail;
      }
      if size.value < 0 {
        return Done(None, position);
      }
      position := start;
      var text := ReadText();
      if text.Fail? {
        return Fail;
      }
      r := Done(Some(text.value), text.next);
    }

    /** readBinder, null or not. */
    method ReadBinder() returns (r: Read<nat>)
      modifies this`position
      ensures r == old(if position < |data| && data[position].Binder?
                       then Done(data[position].handle, position + 1) else Fail)
      ensures position == if r.Done? then r.next else old(position)
    {
      if position < |data| && data[position].Binder? {
        r := Done(data[position].handle, position + 1);
        position := position + 1;
      } else {
        r := Fail;
      }
    }

    /** writeInt32, writeString16 and appendFrom at the end of the parcel. */
    method Append(items: seq<Item>)
      requires position == |data|
      modifies this
      ensures data == old(data) + items && position == |data|
    {
      data := data + items;
      position := |data|;
    }
  }
}
