/** A caller-owned byte image addressed as `data[row * stride + col]`. */
module Planes {
  import opened Lanes

  /** Offset of row `r`'s first byte: `r` strides from the base. Written as
      repeated addition, the way the kernels advance their row pointers. */
  function RowOffset(stride: nat, r: nat): (offset: nat)
  {
    if r == 0 then 0 else RowOffset(stride, r - 1) + stride
  }

  lemma {:induction false} RowOffsetIsProduct(stride: nat, r: nat)
    ensures RowOffset(stride, r) == r * stride
  {
    if r > 0 {
      RowOffsetIsProduct(stride, r - 1);
    }
  }

  lemma {:induction false} RowOffsetMonotone(stride: nat, r: nat, s: nat)
    requires r <= s
    ensures RowOffset(stride, r) <= RowOffset(stride, s)
    decreases s
  {
    if r < s {
      RowOffsetMonotone(stride, r, s - 1);
    }
  }

  /** `width` x `height` bytes laid out row after row, `stride` bytes apart.
      Bytes between `width` and `stride` in a row are padding. */
  datatype Plane = Plane(data: seq<uint8>, stride: nat, width: nat, height: nat)
  {
    /** The buffer holds every pixel of the rectangle; the last row needs
        only `width` bytes, not a full stride. */
    predicate Valid()
    {
      height > 0 ==> RowOffset(stride, height - 1) + width <= |data|
    }

    /** The pixel in row `r`, column `c`. */
    function At(r: nat, c: nat): uint8
      requires Valid() && r < height && c < width
    {
      RowFits(this, r);
      data[RowOffset(stride, r) + c]
    }
  }

  /** The pixel in row `r`, column `c` is the byte at `r * stride + c`: the
      row pointer has advanced by `stride` once per row. */
  lemma AtIsIndex(p: Plane, r: nat, c: nat)
    requires p.Valid() && r < p.height && c < p.width
    ensures r * p.stride + c < |p.data|
    ensures p.At(r, c) == p.data[r * p.stride + c]
  {
    RowFits(p, r);
    RowOffsetIsProduct(p.stride, r);
  }

  /** Every row of a valid plane lies inside its buffer. */
  lemma RowFits(p: Plane, r: nat)
    requires p.Valid() && r < p.height
    ensures RowOffset(p.stride, r) + p.width <= |p.data|
  {
    RowOffsetMonotone(p.stride, r, p.height - 1);
  }

  /** Image and mask of one call: the same width and height, strides free. */
  predicate SameShape(p: Plane, q: Plane)
  {
    p.width == q.width && p.height == q.height
  }

  /** A vector load from row `r` at column `col`, through the row pointer
      `rowStart` (the base advanced by `r` strides). The precondition is the
      load-bounds obligation: every lane read is a pixel of row `r`, never
      stride padding. */
  function RowLoad(p: Plane, rowStart: nat, r: nat, col: int, a: nat): (v: seq<uint8>)
    requires p.Valid() && r < p.height && rowStart == RowOffset(p.stride, r)
    requires 0 <= col && col + a <= p.width
    ensures |v| == a
    ensures forall k :: 0 <= k < a ==> v[k] == p.At(r, col + k)
  {
    RowFits(p, r);
    Load(p.data, rowStart + col, a)
  }
}
