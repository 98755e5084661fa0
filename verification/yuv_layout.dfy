/**
 Yuv420Layout: where the planes of a camera buffer lie in its memory, for planar and for
 interleaved chroma alike.
 */
module YuvLayouts {
  import opened Bytes

  /** A pointer into the buffer's memory. */
  datatype Pointer = Null | To(offset: nat)

  datatype Layout = Layout(y: Pointer, cb: Pointer, cr: Pointer,
                           yStride: nat, cStride: nat, chromaStep: nat, yStep: nat)

  /** What fillYuv420 checks before it writes. */
  predicate Accepted(l: Layout, width: nat) {
    && l.y.To? && l.cb.To? && l.cr.To? && l.yStep != 0 && l.yStride >= (width - 1) * l.yStep + 1
    && l.cStride != 0 && l.chromaStep != 0
  }

  function PlaceAt(start: nat, stride: nat, step: nat, r: nat, c: nat): nat {
    start + r * stride + c * step
  }

  function LumaAt(l: Layout, r: nat, c: nat): nat
    requires l.y.To?
  {
    PlaceAt(l.y.offset, l.yStride, l.yStep, r, c)
  }

  function CbAt(l: Layout, r: nat, c: nat): nat
    requires l.cb.To?
  {
    PlaceAt(l.cb.offset, l.cStride, l.chromaStep, r, c)
  }

  function CrAt(l: Layout, r: nat, c: nat): nat
    requires l.cr.To?
  {
    PlaceAt(l.cr.offset, l.cStride, l.chromaStep, r, c)
  }

  /** Every write goes to memory of this size. */
  ghost predicate Fits(l: Layout, width: nat, height: nat, size: nat)
    requires l.y.To? && l.cb.To? && l.cr.To?
  {
    && (forall r: nat, c: nat | r < height && c < width :: LumaAt(l, r, c) < size)
    && (forall r: nat, c: nat | r < height / 2 && c < width / 2 :: CbAt(l, r, c) < size && CrAt(l, r, c) < size)
  }

  ghost predicate IsLuma(l: Layout, width: nat, height: nat, p: int)
    requires l.y.To?
  {
    exists r: nat, c: nat :: r < height && c < width && LumaAt(l, r, c) == p
  }

  /** A chroma place of row `r`. */
  ghost predicate IsChromaOf(l: Layout, width: nat, r: nat, p: int)
    requires l.cb.To? && l.cr.To?
  {
    exists c: nat :: c < width / 2 && (CbAt(l, r, c) == p || CrAt(l, r, c) == p)
  }

  ghost predicate IsChroma(l: Layout, width: nat, height: nat, p: int)
    requires l.cb.To? && l.cr.To?
  {
    exists r: nat :: r < height / 2 && IsChromaOf(l, width, r, p)
  }

  // ---------------------------------------------------------------------------
  // Planes that do not overlap
  // ---------------------------------------------------------------------------

  /** No two of a plane's places are the same. */
  ghost predicate Apart(start: nat, stride: nat, step: nat, width: nat, height: nat) {
    forall r: nat, c: nat, i: nat, k: nat |
      && r < height && c < width && i < height && k < width
      && PlaceAt(start, stride, step, r, c) == PlaceAt(start, stride, step, i, k)
      :: r == i && c == k
  }

  /** No place of one plane is a place of the other. */
  ghost predicate Disjoint(a: nat, aStride: nat, aStep: nat, aWidth: nat, aHeight: nat,
                           b: nat, bStride: nat, bStep: nat, bWidth: nat, bHeight: nat) {
    forall r: nat, c: nat, i: nat, k: nat | r < aHeight && c < aWidth && i < bHeight && k < bWidth ::
      PlaceAt(a, aStride, aStep, r, c) != PlaceAt(b, bStride, bStep, i, k)
  }

  ghost predicate ChromaApart(l: Layout, width: nat, height: nat)
    requires l.cb.To? && l.cr.To?
  {
    && Apart(l.cb.offset, l.cStride, l.chromaStep, width / 2, height / 2)
    && Apart(l.cr.offset, l.cStride, l.chromaStep, width / 2, height / 2)
    && Disjoint(l.cb.offset, l.cStride, l.chromaStep, width / 2, height / 2,
                l.cr.offset, l.cStride, l.chromaStep, width / 2, height / 2)
  }

  /** The three planes share no byte. */
  ghost predicate Separate(l: Layout, width: nat, height: nat)
    requires l.y.To? && l.cb.To? && l.cr.To?
  {
    && ChromaApart(l, width, height)
    && Disjoint(l.y.offset, l.yStride, l.yStep, width, height,
                l.cb.offset, l.cStride, l.chromaStep, width / 2, height / 2)
    && Disjoint(l.y.offset, l.yStride, l.yStep, width, height,
                l.cr.offset, l.cStride, l.chromaStep, width / 2, height / 2)
  }

  /** Rows at least as long as their last place do not overlap. */
  lemma LongRowsAreApart(start: nat, stride: nat, step: nat, width: nat, height: nat)
    requires step != 0 && stride >= (width - 1) * step + 1
    ensures Apart(start, stride, step, width, height)
  {
    forall r: nat, c: nat, i: nat, k: nat |
      && r < height && c < width && i < height && k < width
      && PlaceAt(start, stride, step, r, c) == PlaceAt(start, stride, step, i, k)
      ensures r == i && c == k
    {
      PlacesDiffer(stride, step, width, r, c, i, k);
    }
  }

  lemma PlacesDiffer(stride: nat, step: nat, width: nat, r: nat, c: nat, i: nat, k: nat)
    requires step != 0 && stride >= (width - 1) * step + 1 && c < width && k < width
    requires r * stride + c * step == i * stride + k * step
    ensures r == i && c == k
  {
    RowEnds(stride, step, width, c);
    RowEnds(stride, step, width, k);
    if r < i {
      MultiplyStep(r, i, stride);
    } else if i < r {
      MultiplyStep(i, r, stride);
    } else if c < k {
      MultiplyStep(c, k, step);
    } else if k < c {
      MultiplyStep(k, c, step);
    }
  }

  lemma RowEnds(stride: nat, step: nat, width: nat, c: nat)
    requires stride >= (width - 1) * step + 1 && c < width
    ensures c * step < stride
  {
    assert (width - 1) * step == c * step + (width - 1 - c) * step;
  }

  /** A plane lies between its start and the end of its last row. */
  lemma PlaceIsWithin(start: nat, stride: nat, step: nat, width: nat, height: nat, r: nat, c: nat)
    requires stride >= (width - 1) * step + 1 && r < height && c < width
    ensures start <= PlaceAt(start, stride, step, r, c) < start + height * stride
  {
    RowEnds(stride, step, width, c);
    MultiplyStep(r, height, stride);
  }

  /** Planes one behind the other are disjoint. */
  lemma BehindIsDisjoint(a: nat, aStride: nat, aStep: nat, aWidth: nat, aHeight: nat,
                         b: nat, bStride: nat, bStep: nat, bWidth: nat, bHeight: nat)
    requires aStride >= (aWidth - 1) * aStep + 1 && bStride >= (bWidth - 1) * bStep + 1
    requires a + aHeight * aStride <= b
    ensures Disjoint(a, aStride, aStep, aWidth, aHeight, b, bStride, bStep, bWidth, bHeight)
  {
    forall r: nat, c: nat, i: nat, k: nat | r < aHeight && c < aWidth && i < bHeight && k < bWidth
      ensures PlaceAt(a, aStride, aStep, r, c) != PlaceAt(b, bStride, bStep, i, k)
    {
      PlaceIsWithin(a, aStride, aStep, aWidth, aHeight, r, c);
      PlaceIsWithin(b, bStride, bStep, bWidth, bHeight, i, k);
    }
  }

  /** I420: three planes one behind the other. */
  lemma PlanarIsSeparate(l: Layout, width: nat, height: nat)
    requires Accepted(l, width) && l.chromaStep == 1 && l.cStride >= width / 2
    requires l.y.offset + height * l.yStride <= l.cb.offset
    requires l.cb.offset + height / 2 * l.cStride <= l.cr.offset
    ensures Separate(l, width, height)
  {
    var w, h := width / 2, height / 2;
    LongRowsAreApart(l.cb.offset, l.cStride, 1, w, h);
    LongRowsAreApart(l.cr.offset, l.cStride, 1, w, h);
    BehindIsDisjoint(l.cb.offset, l.cStride, 1, w, h, l.cr.offset, l.cStride, 1, w, h);
    BehindIsDisjoint(l.y.offset, l.yStride, l.yStep, width, height, l.cb.offset, l.cStride, 1, w, h);
    BehindIsDisjoint(l.y.offset, l.yStride, l.yStep, width, height, l.cr.offset, l.cStride, 1, w, h);
  }

  /** NV12 and NV21: one chroma plane of byte pairs, in either order. */
  lemma InterleavedIsSeparate(l: Layout, width: nat, height: nat)
    requires Accepted(l, width) && l.chromaStep == 2 && l.cStride >= width / 2 * 2
    requires l.cr.offset == l.cb.offset + 1 || l.cb.offset == l.cr.offset + 1
    requires l.y.offset + height * l.yStride <= l.cb.offset && l.y.offset + height * l.yStride <= l.cr.offset
    ensures Separate(l, width, height)
  {
    var w, h := width / 2, height / 2;
    LongRowsAreApart(l.cb.offset, l.cStride, 2, w, h);
    LongRowsAreApart(l.cr.offset, l.cStride, 2, w, h);
    BehindIsDisjoint(l.y.offset, l.yStride, l.yStep, width, height, l.cb.offset, l.cStride, 2, w, h);
    BehindIsDisjoint(l.y.offset, l.yStride, l.yStep, width, height, l.cr.offset, l.cStride, 2, w, h);
    forall r: nat, c: nat, i: nat, k: nat | r < h && c < w && i < h && k < w
      ensures PlaceAt(l.cb.offset, l.cStride, 2, r, c) != PlaceAt(l.cr.offset, l.cStride, 2, i, k)
    {
      if r < i {
        MultiplyStep(r, i, l.cStride);
      } else if i < r {
        MultiplyStep(i, r, l.cStride);
      }
    }
  }
}
