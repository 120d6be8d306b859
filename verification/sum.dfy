/** `ConditionalSum` in its three layers. The kernel walks the source and the
    mask plane in step, chunk by chunk; a lane of the source contributes to
    the SAD total only where the mask byte satisfies the comparison, and the
    tail chunk additionally clears the lanes the full chunks already summed.
    Line numbers refer to src/Simd/SimdAvx2Conditional.cpp. */
module SumKernel {
  import opened Comparison
  import opened Lanes
  import opened Planes
  import opened Tiling
  import opened Reference
  import opened Masks

  /** Lane by lane, a sum chunk at column `col` whose comparison mask is all
      ones exactly on the qualifying lanes of [lo, hi) keeps the sum term of
      column col + k in lane k of [lo, hi) and zero elsewhere. */
  lemma SumLaneValues(kind: CompareType, src: Plane, mask: Plane, value: uint8, row: nat, col: nat, lo: nat, hi: nat,
                      a: nat, vSrc: seq<uint8>, vMask: seq<uint8>)
    requires src.Valid() && mask.Valid() && SameShape(src, mask) && row < src.height
    requires lo <= hi <= a && col + a <= src.width
    requires |vSrc| == a && |vMask| == a
    requires forall k :: 0 <= k < a ==> vSrc[k] == src.At(row, col + k)
    requires forall k :: 0 <= k < a ==>
      vMask[k] == (if lo <= k < hi && Holds(kind, mask.At(row, col + k), value) then 0xFF else 0)
    ensures forall k :: 0 <= k < a ==>
      And(vMask, vSrc)[k] == (if lo <= k < hi then SumTerms(kind, src, mask, value, row)[col + k] else 0)
  {
    var picked := And(vMask, vSrc);
    forall k | 0 <= k < a
      ensures picked[k] == (if lo <= k < hi then SumTerms(kind, src, mask, value, row)[col + k] else 0)
    {
      if lo <= k < hi && Holds(kind, mask.At(row, col + k), value) {
        assert vMask[k] == 0xFF;
      } else {
        assert vMask[k] == 0;
      }
    }
  }

  /** Such a chunk adds the sum terms of columns [from, to) = [col + lo,
      col + hi): it advances the row's running sum from `from` to `to`. */
  lemma SumLanes(kind: CompareType, src: Plane, mask: Plane, value: uint8, row: nat, col: nat, lo: nat, hi: nat, a: nat,
                 from: nat, to: nat, vSrc: seq<uint8>, vMask: seq<uint8>)
    requires src.Valid() && mask.Valid() && SameShape(src, mask) && row < src.height
    requires lo <= hi <= a && col + a <= src.width
    requires from == col + lo && to == col + hi
    requires |vSrc| == a && |vMask| == a
    requires forall k :: 0 <= k < a ==> vSrc[k] == src.At(row, col + k)
    requires forall k :: 0 <= k < a ==>
      vMask[k] == (if lo <= k < hi && Holds(kind, mask.At(row, col + k), value) then 0xFF else 0)
    ensures Prefix(SumTerms(kind, src, mask, value, row), from) + Sad(And(vMask, vSrc), Broadcast(0, a))
         == Prefix(SumTerms(kind, src, mask, value, row), to)
  {
    SumLaneValues(kind, src, mask, value, row, col, lo, hi, a, vSrc, vMask);
    SadAgainstZero(And(vMask, vSrc), Broadcast(0, a));
    PrefixWindow(And(vMask, vSrc), SumTerms(kind, src, mask, value, row), col, lo, hi, from, to);
  }

  /** One full sum chunk (lines 116-118): the source lanes kept where the
      mask chunk at `col` satisfies the comparison, added up with SAD against
      zero. It sums the qualifying columns in [col, col + a). */
  method SumFullChunk(kind: CompareType, a: nat, src: Plane, mask: Plane, value: uint8, row: nat,
                      srcStart: nat, maskStart: nat, col: nat)
    returns (n: int)
    requires src.Valid() && mask.Valid() && SameShape(src, mask) && row < src.height
    requires srcStart == RowOffset(src.stride, row) && maskStart == RowOffset(mask.stride, row)
    requires col + a <= src.width
    ensures Prefix(SumTerms(kind, src, mask, value, row), col) + n == Prefix(SumTerms(kind, src, mask, value, row), col + a)
  {
    var vSrc := RowLoad(src, srcStart, row, col, a);
    var vMask := ChunkMask(kind, a, mask, maskStart, row, col, value);
    SumLanes(kind, src, mask, value, row, col, 0, a, a, col, col + a, vSrc, vMask);
    n := Sad(And(vMask, vSrc), Broadcast(0, a));
  }

  /** The tail sum chunk (lines 120-125): the chunks ending at the row's
      last byte, with the comparison mask ANDed with `tailMask`, which clears
      the first `skip` lanes. It sums the qualifying columns in
      [width - a + skip, width). */
  method SumTailChunk(kind: CompareType, a: nat, src: Plane, mask: Plane, value: uint8, row: nat,
                      srcStart: nat, maskStart: nat, skip: nat, tailMask: seq<uint8>)
    returns (n: int)
    requires src.Valid() && mask.Valid() && SameShape(src, mask) && row < src.height
    requires srcStart == RowOffset(src.stride, row) && maskStart == RowOffset(mask.stride, row)
    requires a <= src.width && skip <= a
    requires tailMask == SetMask(0, skip, 0xFF, a)
    ensures Prefix(SumTerms(kind, src, mask, value, row), src.width - a + skip) + n
         == Prefix(SumTerms(kind, src, mask, value, row), src.width)
  {
    var vSrc := RowLoad(src, srcStart, row, src.width - a, a);
    TailWindow(skip, a);
    var vMask := WindowedChunkMask(kind, a, mask, maskStart, row, src.width - a, value, tailMask, skip, a);
    SumLanes(kind, src, mask, value, row, src.width - a, skip, a, a, src.width - a + skip, src.width, vSrc, vMask);
    n := Sad(And(vMask, vSrc), Broadcast(0, a));
  }

  /** One row of `ConditionalSum<align, compareType>` (lines 114-125). */
  method SumRow(kind: CompareType, a: nat, src: Plane, mask: Plane, value: uint8, row: nat,
                srcStart: nat, maskStart: nat, alignedWidth: nat, tailMask: seq<uint8>, sum: int)
    returns (total: int)
    requires 1 <= a <= src.width && src.Valid() && mask.Valid() && SameShape(src, mask) && row < src.height
    requires srcStart == RowOffset(src.stride, row) && maskStart == RowOffset(mask.stride, row)
    requires alignedWidth == AlignLo(src.width, a)
    requires tailMask == SetMask(0, a - src.width + alignedWidth, 0xFF, a)
    ensures total == sum + Sum(SumTerms(kind, src, mask, value, row))
  {
    ghost var t := SumTerms(kind, src, mask, value, row);
    total := sum;
    var col := 0;
    ghost var chunks := 0;
    CursorStart(src.width, a);
    while col < alignedWidth
      invariant Cursor(col, chunks, alignedWidth, FullChunks(src.width, a), a)
      invariant total == sum + Prefix(t, col)
    {
      CursorStep(col, chunks, alignedWidth, FullChunks(src.width, a), a);
      var n := SumFullChunk(kind, a, src, mask, value, row, srcStart, maskStart, col);
      total := total + n;
      col := col + a;
      chunks := chunks + 1;
    }
    CursorEnd(col, chunks, alignedWidth, FullChunks(src.width, a), a);
    if alignedWidth != src.width {
      var n := SumTailChunk(kind, a, src, mask, value, row, srcStart, maskStart, a - src.width + alignedWidth, tailMask);
      total := total + n;
    }
    PrefixWhole(t);
  }

  /** `ConditionalSum<align, compareType>` (lines 99-130): the sum of the
      source bytes whose mask byte satisfies `kind` against `value`. */
  method ConditionalSumKernel(align: bool, kind: CompareType, a: nat, src: Plane, mask: Plane, value: uint8)
    returns (sum: int)
    requires 1 <= a <= src.width && src.Valid() && mask.Valid() && SameShape(src, mask)
    ensures sum == SumSpec(kind, src, mask, value)
  {
    var alignedWidth := AlignLo(src.width, a);
    var tailMask := SetMask(0, a - src.width + alignedWidth, 0xFF, a);
    sum := 0;
    var row := 0;
    var srcStart := 0;
    var maskStart := 0;
    while row < src.height
      invariant row <= src.height
      invariant srcStart == RowOffset(src.stride, row) && maskStart == RowOffset(mask.stride, row)
      invariant sum == SumRows(kind, src, mask, value, row)
    {
      sum := SumRow(kind, a, src, mask, value, row, srcStart, maskStart, alignedWidth, tailMask, sum);
      srcStart := srcStart + src.stride;
      maskStart := maskStart + mask.stride;
      row := row + 1;
    }
  }

  /** The alignment dispatcher (lines 132-140): `aligned` stands for the
      test that both pointers and both strides are A-aligned. */
  method ConditionalSumAligned(kind: CompareType, aligned: bool, a: nat, src: Plane, mask: Plane, value: uint8)
    returns (sum: int)
    requires 1 <= a <= src.width && src.Valid() && mask.Valid() && SameShape(src, mask)
    ensures sum == SumSpec(kind, src, mask, value)
  {
    if aligned {
      sum := ConditionalSumKernel(true, kind, a, src, mask, value);
    } else {
      sum := ConditionalSumKernel(false, kind, a, src, mask, value);
    }
  }

  /** The public entry point (lines 142-162). */
  method ConditionalSum(kind: CompareType, aligned: bool, a: nat, src: Plane, mask: Plane, value: uint8)
    returns (sum: int)
    requires 1 <= a <= src.width && src.Valid() && mask.Valid() && SameShape(src, mask)
    ensures sum == SumSpec(kind, src, mask, value)
  {
    match kind
    case Equal => sum := ConditionalSumAligned(Equal, aligned, a, src, mask, value);
    case NotEqual => sum := ConditionalSumAligned(NotEqual, aligned, a, src, mask, value);
    case Greater => sum := ConditionalSumAligned(Greater, aligned, a, src, mask, value);
    case GreaterOrEqual => sum := ConditionalSumAligned(GreaterOrEqual, aligned, a, src, mask, value);
    case Lesser => sum := ConditionalSumAligned(Lesser, aligned, a, src, mask, value);
    case LesserOrEqual => sum := ConditionalSumAligned(LesserOrEqual, aligned, a, src, mask, value);
  }
}
