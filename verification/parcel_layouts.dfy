/**
 Layouts of parcel contents that are skipped rather than decoded: where each ends, and
 that combining layouts keeps what makes them safe to move.
 */
module ParcelLayouts {
  import opened Parcels

  const MAX_METADATA: int := 0x400_0000
  const METADATA_ALIGNMENT: int := 8

  /** The position behind something, if it lies at the given position. */
  type Layout = (seq<Item>, nat) -> Option<nat>

  /** One word within bounds. */
  function Number(least: int, most: int): Layout {
    (d: seq<Item>, p: nat) => if Int(d, p).Done? && least <= Int(d, p).value <= most then Some(p + 1) else None
  }

  const ANY: Layout := Number(MIN_INT32, MAX_INT32)

  /** A binder, possibly null. */
  function Handle(d: seq<Item>, p: nat): Option<nat> {
    if p < |d| && d[p].Binder? then Some(p + 1) else None
  }

  /** A UTF-16 string. */
  function Name(nullable: bool): Layout {
    (d: seq<Item>, p: nat) => match OptionalText(d, p)
              case Fail => None
              case Done(t, next) => if t.None? && !nullable then None else Some(next)
  }

  /** One layout, then another. */
  function Then(first: Layout, second: Layout): Layout {
    (d: seq<Item>, p: nat) => match first(d, p)
              case None => None
              case Some(q) => second(d, q)
  }

  /** readBlob: inline bytes padded to words, or a descriptor that maps enough. */
  function Blob(size: nat): Layout {
    (d: seq<Item>, p: nat) =>
      if Int(d, p).Fail? then None
      else if Int(d, p).value == 0 then
        if AllWords(d, p + 1, (size + 3) / 4) then Some(p + 1 + (size + 3) / 4) else None
      else if p + 1 < |d| && d[p + 1].Descriptor? && d[p + 1].capacity >= size then Some(p + 2)
      else None
  }

  /** A blob and the offset at which it was aligned. */
  function AlignedBlob(size: nat): Layout {
    Then(Blob(size), Number(0, METADATA_ALIGNMENT - 1))
  }

  /** A size and, unless it is 0, the aligned blob. */
  function Metadata(d: seq<Item>, p: nat): Option<nat> {
    match Int(d, p)
    case Fail => None
    case Done(size, _) =>
      if size < 0 || size > MAX_METADATA then None
      else if size == 0 then Some(p + 1)
      else if size <= METADATA_ALIGNMENT then None
      else AlignedBlob(size)(d, p + 1)
  }

  /** `count` in a row. */
  function Times(one: Layout, count: nat, d: seq<Item>, p: nat): Option<nat>
    decreases count
  {
    if count == 0 then Some(p)
    else match one(d, p)
         case None => None
         case Some(q) => Times(one, count - 1, d, q)
  }

  /** A count from 0, and that many elements. */
  function Counted(most: int, element: Layout): Layout {
    (d: seq<Item>, p: nat) =>
      if Int(d, p).Done? && 0 <= Int(d, p).value <= most then Times(element, Int(d, p).value, d, p + 1) else None
  }

  /** A word, and the element unless the word is 0. */
  function Flagged(element: Layout): Layout {
    (d: seq<Item>, p: nat) => if Int(d, p).Fail? then None
              else if Int(d, p).value != 0 then element(d, p + 1)
              else Some(p + 1)
  }

  // ---------------------------------------------------------------------------
  // Proper layouts
  // ---------------------------------------------------------------------------

  /** It ends inside the sequence, and the same items elsewhere end as far on. */
  ghost predicate Moves(l: Layout, a: seq<Item>, i: nat, b: seq<Item>, j: nat) {
    l(a, i).Some? ==>
      && i <= l(a, i).value <= |a|
      && (Same(a, i, b, j, l(a, i).value - i) ==> l(b, j) == Some(j + l(a, i).value - i))
  }

  ghost predicate Proper(l: Layout) {
    forall a: seq<Item>, i: nat, b: seq<Item>, j: nat {:trigger Moves(l, a, i, b, j)} :: Moves(l, a, i, b, j)
  }

  lemma NumberIsProper(least: int, most: int)
    ensures Proper(Number(least, most))
  {
    forall a: seq<Item>, i: nat, b: seq<Item>, j: nat ensures Moves(Number(least, most), a, i, b, j) {
      if Number(least, most)(a, i).Some? && Same(a, i, b, j, 1) {
        SameAt(a, i, b, j, 1, 0);
      }
    }
  }

  lemma HandleIsProper()
    ensures Proper(Handle)
  {
    forall a: seq<Item>, i: nat, b: seq<Item>, j: nat ensures Moves(Handle, a, i, b, j) {
      if Handle(a, i).Some? && Same(a, i, b, j, 1) {
        SameAt(a, i, b, j, 1, 0);
      }
    }
  }

  lemma NameIsProper(nullable: bool)
    ensures Proper(Name(nullable))
  {
    forall a: seq<Item>, i: nat, b: seq<Item>, j: nat ensures Moves(Name(nullable), a, i, b, j) {
      if Name(nullable)(a, i).Some? {
        OptionalTextEnds(a, i);
        if Same(a, i, b, j, OptionalText(a, i).next - i) {
          OptionalTextIsLocal(a, i, b, j);
        }
      }
    }
  }

  lemma ThenIsProper(first: Layout, second: Layout)
    requires Proper(first) && Proper(second)
    ensures Proper(Then(first, second))
  {
    forall a: seq<Item>, i: nat, b: seq<Item>, j: nat ensures Moves(Then(first, second), a, i, b, j) {
      assert Moves(first, a, i, b, j);
      if Then(first, second)(a, i).Some? {
        var n := first(a, i).value - i;
        assert Moves(second, a, i + n, b, j + n);
        var m := second(a, i + n).value - i;
        if Same(a, i, b, j, m) {
          SameParts(a, i, b, j, n, m);
        }
      }
    }
  }

  lemma BlobIsProper(size: nat)
    ensures Proper(Blob(size))
  {
    forall a: seq<Item>, i: nat, b: seq<Item>, j: nat ensures Moves(Blob(size), a, i, b, j) {
      if Blob(size)(a, i).Some? {
        var n := Blob(size)(a, i).value - i;
        if Same(a, i, b, j, n) {
          SameAt(a, i, b, j, n, 0);
          if Int(a, i).value == 0 {
            forall m | j + 1 <= m < j + n ensures b[m].Word? {
              SameAt(a, i, b, j, n, m - j);
            }
          } else {
            SameAt(a, i, b, j, n, 1);
          }
        }
      }
    }
  }

  lemma MetadataIsProper()
    ensures Proper(Metadata)
  {
    forall a: seq<Item>, i: nat, b: seq<Item>, j: nat ensures Moves(Metadata, a, i, b, j) {
      if Metadata(a, i).Some? {
        MetadataMoves(a, i, b, j);
      }
    }
  }

  /** A layout behind one word, when the word is the same. */
  lemma BehindWordMoves(l: Layout, a: seq<Item>, i: nat, b: seq<Item>, j: nat)
    requires Proper(l) && l(a, i + 1).Some?
    ensures i + 1 <= l(a, i + 1).value <= |a|
    ensures Same(a, i, b, j, l(a, i + 1).value - i) ==> a[i] == b[j] && l(b, j + 1) == Some(j + l(a, i + 1).value - i)
  {
    assert Moves(l, a, i + 1, b, j + 1);
    var n := l(a, i + 1).value - i;
    if Same(a, i, b, j, n) {
      SameAt(a, i, b, j, n, 0);
      SameParts(a, i, b, j, 1, n);
    }
  }

  lemma MetadataMoves(a: seq<Item>, i: nat, b: seq<Item>, j: nat)
    requires Metadata(a, i).Some?
    ensures Moves(Metadata, a, i, b, j)
  {
    var size := Int(a, i).value;
    if size == 0 {
      if Same(a, i, b, j, 1) {
        SameAt(a, i, b, j, 1, 0);
      }
    } else {
      BlobIsProper(size);
      NumberIsProper(0, METADATA_ALIGNMENT - 1);
      ThenIsProper(Blob(size), Number(0, METADATA_ALIGNMENT - 1));
      BehindWordMoves(AlignedBlob(size), a, i, b, j);
    }
  }

  lemma {:induction false} TimesMoves(one: Layout, count: nat, a: seq<Item>, i: nat, b: seq<Item>, j: nat)
    requires Proper(one) && Times(one, count, a, i).Some? && i <= |a|
    ensures i <= Times(one, count, a, i).value <= |a|
    ensures Same(a, i, b, j, Times(one, count, a, i).value - i) ==>
              Times(one, count, b, j) == Some(j + Times(one, count, a, i).value - i)
    decreases count
  {
    if count > 0 {
      assert Moves(one, a, i, b, j);
      var n, m := one(a, i).value - i, Times(one, count, a, i).value - i;
      TimesMoves(one, count - 1, a, i + n, b, j + n);
      if Same(a, i, b, j, m) {
        SameParts(a, i, b, j, n, m);
      }
    }
  }

  lemma CountedIsProper(most: int, element: Layout)
    requires Proper(element)
    ensures Proper(Counted(most, element))
  {
    forall a: seq<Item>, i: nat, b: seq<Item>, j: nat ensures Moves(Counted(most, element), a, i, b, j) {
      if Counted(most, element)(a, i).Some? {
        TimesMoves(element, Int(a, i).value, a, i + 1, b, j + 1);
        var n := Counted(most, element)(a, i).value - i;
        if Same(a, i, b, j, n) {
          SameAt(a, i, b, j, n, 0);
          SameParts(a, i, b, j, 1, n);
        }
      }
    }
  }

  lemma FlaggedIsProper(element: Layout)
    requires Proper(element)
    ensures Proper(Flagged(element))
  {
    forall a: seq<Item>, i: nat, b: seq<Item>, j: nat ensures Moves(Flagged(element), a, i, b, j) {
      if Flagged(element)(a, i).Some? {
        assert Moves(element, a, i + 1, b, j + 1);
        var n := Flagged(element)(a, i).value - i;
        if Same(a, i, b, j, n) {
          SameAt(a, i, b, j, n, 0);
          SameParts(a, i, b, j, 1, n);
        }
      }
    }
  }
}
