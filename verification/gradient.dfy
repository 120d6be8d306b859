/** `ConditionalSquareGradientSum` in its three layers. For every interior
    pixel of the image (not in the first or last row or column) whose mask
    byte satisfies the comparison, the kernel adds the squared horizontal
    central difference and the squared vertical one. Each interior row is
    walked as a nose chunk at column 1 (its last lane cleared, because the
    first full chunk starts at column A), full chunks from column A up to the
    aligned interior width, and a tail chunk that ends at the last interior
    column. Like the square sum, a row is gathered in 32-bit lanes, now with
    two additions per chunk.
    Line numbers refer to src/Simd/SimdAvx2Conditional.cpp. */
module GradientKernel {
  import opened Comparison
  import opened Lanes
  import opened Planes
  import opened Tiling
  import opened Reference
  import opened Masks

  /** The four loads of `SquaredDifference` for the chunk centred on columns
      [col, col + a) of row `row`: one column to the left and right (step 1)
      and one row up and down (step `srcStride`). */
  method GradientLoads(src: Plane, srcStart: nat, row: nat, col: nat, a: nat)
    returns (left: seq<uint8>, right: seq<uint8>, up: seq<uint8>, down: seq<uint8>)
    requires src.Valid() && 1 <= row && row + 1 < src.height && srcStart == RowOffset(src.stride, row)
    requires 1 <= col && col + a + 1 <= src.width
    ensures |left| == a && |right| == a && |up| == a && |down| == a
    ensures forall k :: 0 <= k < a ==> left[k] == src.At(row, col - 1 + k)
    ensures forall k :: 0 <= k < a ==> right[k] == src.At(row, col + 1 + k)
    ensures forall k :: 0 <= k < a ==> up[k] == src.At(row - 1, col + k)
    ensures forall k :: 0 <= k < a ==> down[k] == src.At(row + 1, col + k)
  {
    left := RowLoad(src, srcStart, row, col - 1, a);
    right := RowLoad(src, srcStart, row, col + 1, a);
    up := RowLoad(src, srcStart - src.stride, row - 1, col, a);
    down := RowLoad(src, srcStart + src.stride, row + 1, col, a);
  }

  /** Lane by lane, the horizontal and the vertical squared differences of a
      chunk centred at column `col`, under a mask that is all ones exactly on
      the qualifying lanes of [lo, hi), add up to the gradient term of column
      col + k in lane k of [lo, hi) and to zero elsewhere. */
  lemma GradientLaneValues(kind: CompareType, src: Plane, mask: Plane, value: uint8, row: nat, col: nat,
                           lo: nat, hi: nat, a: nat,
                           left: seq<uint8>, right: seq<uint8>, up: seq<uint8>, down: seq<uint8>, m: seq<uint8>)
    requires src.Valid() && mask.Valid() && SameShape(src, mask) && 1 <= row && row + 1 < src.height
    requires lo <= hi <= a && 1 <= col && col + a + 1 <= src.width
    requires |left| == a && |right| == a && |up| == a && |down| == a && |m| == a
    requires forall k :: 0 <= k < a ==> left[k] == src.At(row, col - 1 + k)
    requires forall k :: 0 <= k < a ==> right[k] == src.At(row, col + 1 + k)
    requires forall k :: 0 <= k < a ==> up[k] == src.At(row - 1, col + k)
    requires forall k :: 0 <= k < a ==> down[k] == src.At(row + 1, col + k)
    requires forall k :: 0 <= k < a ==>
      m[k] == (if lo <= k < hi && Holds(kind, mask.At(row, col + k), value) then 0xFF else 0)
    ensures forall k :: 0 <= k < a ==>
      MaskedSquaredDifferences(left, right, m)[k] + MaskedSquaredDifferences(up, down, m)[k]
      == (if lo <= k < hi then GradientTerms(kind, src, mask, value, row)[col + k] else 0)
  {
    var h := MaskedSquaredDifferences(left, right, m);
    var v := MaskedSquaredDifferences(up, down, m);
    forall k | 0 <= k < a
      ensures h[k] + v[k] == (if lo <= k < hi then GradientTerms(kind, src, mask, value, row)[col + k] else 0)
    {
      if lo <= k < hi && Holds(kind, mask.At(row, col + k), value) {
        assert m[k] == 0xFF;
      } else {
        assert m[k] == 0;
      }
    }
  }

  /** Such a chunk advances the row's running gradient total from column
      `from` = col + lo to column `to` = col + hi. */
  lemma GradientLanes(kind: CompareType, src: Plane, mask: Plane, value: uint8, row: nat, col: nat,
                      lo: nat, hi: nat, a: nat, from: nat, to: nat,
                      left: seq<uint8>, right: seq<uint8>, up: seq<uint8>, down: seq<uint8>, m: seq<uint8>)
    requires src.Valid() && mask.Valid() && SameShape(src, mask) && 1 <= row && row + 1 < src.height
    requires lo <= hi <= a && 1 <= col && col + a + 1 <= src.width
    requires from == col + lo && to == col + hi
    requires |left| == a && |right| == a && |up| == a && |down| == a && |m| == a
    requires forall k :: 0 <= k < a ==> left[k] == src.At(row, col - 1 + k)
    requires forall k :: 0 <= k < a ==> right[k] == src.At(row, col + 1 + k)
    requires forall k :: 0 <= k < a ==> up[k] == src.At(row - 1, col + k)
    requires forall k :: 0 <= k < a ==> down[k] == src.At(row + 1, col + k)
    requires forall k :: 0 <= k < a ==>
      m[k] == (if lo <= k < hi && Holds(kind, mask.At(row, col + k), value) then 0xFF else 0)
    ensures Prefix(GradientTerms(kind, src, mask, value, row), from)
            + Sum(MaskedSquaredDifferences(left, right, m)) + Sum(MaskedSquaredDifferences(up, down, m))
         == Prefix(GradientTerms(kind, src, mask, value, row), to)
  {
    var h := MaskedSquaredDifferences(left, right, m);
    var v := MaskedSquaredDifferences(up, down, m);
    GradientLaneValues(kind, src, mask, value, row, col, lo, hi, a, left, right, up, down, m);
    var both := seq(a, k requires 0 <= k < a => h[k] + v[k]);
    SumLanewise(h, v, both);
    PrefixWindow(both, GradientTerms(kind, src, mask, value, row), col, lo, hi, from, to);
  }

  /** The two `SquaredDifference` calls of a chunk (lines 271-272, 277-278,
      284-285), widened to 32-bit lanes: together they total the gradient
      terms of columns [from, to). */
  method GradientKept(kind: CompareType, src: Plane, mask: Plane, value: uint8, row: nat, col: nat,
                      lo: nat, hi: nat, a: nat, from: nat, to: nat,
                      left: seq<uint8>, right: seq<uint8>, up: seq<uint8>, down: seq<uint8>, m: seq<uint8>)
    returns (wh: seq<int>, wv: seq<int>)
    requires src.Valid() && mask.Valid() && SameShape(src, mask) && 1 <= row && row + 1 < src.height
    requires lo <= hi <= a && 1 <= col && col + a + 1 <= src.width
    requires from == col + lo && to == col + hi
    requires |left| == a && |right| == a && |up| == a && |down| == a && |m| == a
    requires forall k :: 0 <= k < a ==> left[k] == src.At(row, col - 1 + k)
    requires forall k :: 0 <= k < a ==> right[k] == src.At(row, col + 1 + k)
    requires forall k :: 0 <= k < a ==> up[k] == src.At(row - 1, col + k)
    requires forall k :: 0 <= k < a ==> down[k] == src.At(row + 1, col + k)
    requires forall k :: 0 <= k < a ==>
      m[k] == (if lo <= k < hi && Holds(kind, mask.At(row, col + k), value) then 0xFF else 0)
    ensures |wh| == (a + 3) / 4 && LanesWithin(wh, QuadSquareMax)
    ensures |wv| == (a + 3) / 4 && LanesWithin(wv, QuadSquareMax)
    ensures Prefix(GradientTerms(kind, src, mask, value, row), from) + Sum(wh) + Sum(wv)
         == Prefix(GradientTerms(kind, src, mask, value, row), to)
  {
    assert WholeLanes(m);
    wh := SquaredDifference(left, right, m);
    wv := SquaredDifference(up, down, m);
    GradientLanes(kind, src, mask, value, row, col, lo, hi, a, from, to, left, right, up, down, m);
  }

  /** The nose chunk (lines 269-272): centred at column 1, with the
      comparison mask ANDed with `noseMask`, which clears the last lane
      (column A, where the full chunks start). It totals the gradient terms
      of columns [1, A). */
  method GradientNoseChunk(kind: CompareType, a: nat, src: Plane, mask: Plane, value: uint8, row: nat,
                           srcStart: nat, maskStart: nat, noseMask: seq<uint8>)
    returns (wh: seq<int>, wv: seq<int>)
    requires src.Valid() && mask.Valid() && SameShape(src, mask) && 1 <= row && row + 1 < src.height
    requires srcStart == RowOffset(src.stride, row) && maskStart == RowOffset(mask.stride, row)
    requires 1 <= a && a + 2 <= src.width
    requires noseMask == SetMask(0xFF, a - 1, 0, a)
    ensures |wh| == (a + 3) / 4 && LanesWithin(wh, QuadSquareMax)
    ensures |wv| == (a + 3) / 4 && LanesWithin(wv, QuadSquareMax)
    ensures Prefix(GradientTerms(kind, src, mask, value, row), 1) + Sum(wh) + Sum(wv)
         == Prefix(GradientTerms(kind, src, mask, value, row), a)
  {
    var left, right, up, down := GradientLoads(src, srcStart, row, 1, a);
    NoseWindow(a - 1, a);
    var m := WindowedChunkMask(kind, a, mask, maskStart, row, 1, value, noseMask, 0, a - 1);
    wh, wv := GradientKept(kind, src, mask, value, row, 1, 0, a - 1, a, 1, a, left, right, up, down, m);
  }

  /** One full chunk (lines 276-278), centred at `col`: it totals the
      gradient terms of columns [col, col + A). */
  method GradientFullChunk(kind: CompareType, a: nat, src: Plane, mask: Plane, value: uint8, row: nat,
                           srcStart: nat, maskStart: nat, col: nat)
    returns (wh: seq<int>, wv: seq<int>)
    requires src.Valid() && mask.Valid() && SameShape(src, mask) && 1 <= row && row + 1 < src.height
    requires srcStart == RowOffset(src.stride, row) && maskStart == RowOffset(mask.stride, row)
    requires 1 <= col && col + a + 1 <= src.width
    ensures |wh| == (a + 3) / 4 && LanesWithin(wh, QuadSquareMax)
    ensures |wv| == (a + 3) / 4 && LanesWithin(wv, QuadSquareMax)
    ensures Prefix(GradientTerms(kind, src, mask, value, row), col) + Sum(wh) + Sum(wv)
         == Prefix(GradientTerms(kind, src, mask, value, row), col + a)
  {
    var left, right, up, down := GradientLoads(src, srcStart, row, col, a);
    var m := ChunkMask(kind, a, mask, maskStart, row, col, value);
    wh, wv := GradientKept(kind, src, mask, value, row, col, 0, a, a, col, col + a, left, right, up, down, m);
  }

  /** The tail chunk (lines 282-285): centred at `offset` = width - A - 1, so
      that it ends at the last interior column, with the comparison mask
      ANDed with `tailMask`, which clears the first `skip` lanes. It totals
      the gradient terms of columns [from, width - 1), where `from` =
      offset + skip. */
  method GradientTailChunk(kind: CompareType, a: nat, src: Plane, mask: Plane, value: uint8, row: nat,
                           srcStart: nat, maskStart: nat, skip: nat, from: nat, tailMask: seq<uint8>)
    returns (wh: seq<int>, wv: seq<int>)
    requires src.Valid() && mask.Valid() && SameShape(src, mask) && 1 <= row && row + 1 < src.height
    requires srcStart == RowOffset(src.stride, row) && maskStart == RowOffset(mask.stride, row)
    requires a + 2 <= src.width && skip <= a && from == src.width - a - 1 + skip
    requires tailMask == SetMask(0, skip, 0xFF, a)
    ensures |wh| == (a + 3) / 4 && LanesWithin(wh, QuadSquareMax)
    ensures |wv| == (a + 3) / 4 && LanesWithin(wv, QuadSquareMax)
    ensures Prefix(GradientTerms(kind, src, mask, value, row), from) + Sum(wh) + Sum(wv)
         == Prefix(GradientTerms(kind, src, mask, value, row), src.width - 1)
  {
    var offset := src.width - a - 1;
    var left, right, up, down := GradientLoads(src, srcStart, row, offset, a);
    TailWindow(skip, a);
    var m := WindowedChunkMask(kind, a, mask, maskStart, row, offset, value, tailMask, skip, a);
    wh, wv := GradientKept(kind, src, mask, value, row, offset, skip, a, a, from, src.width - 1,
                           left, right, up, down, m);
  }

  /** The two `_mm256_add_epi32(rowSum, ...)` of one chunk: `rowSum` takes
      the horizontal and then the vertical squared differences. */
  method AccumulateChunk(rowSum: seq<int>, wh: seq<int>, wv: seq<int>, ghost adds: nat, ghost exact: bool,
                         ghost partial: int)
    returns (r: seq<int>)
    requires |rowSum| == |wh| == |wv| && LanesWithin(wh, QuadSquareMax) && LanesWithin(wv, QuadSquareMax)
    requires RowLanes(rowSum, adds, exact, partial)
    requires exact ==> adds + 2 <= MaxRowAdds
    ensures |r| == |rowSum|
    ensures RowLanes(r, adds + 2, exact, partial + Sum(wh) + Sum(wv))
  {
    r := AccumulateRow(rowSum, wh, adds, exact, partial);
    r := AccumulateRow(r, wv, adds + 1, exact, partial + Sum(wh));
  }

  /** The nose of one interior row (lines 267-273): `rowSum` starts at zero
      and takes the nose chunk's two vectors, which total the gradient terms
      of the columns below A. */
  method GradientNose(kind: CompareType, a: nat, src: Plane, mask: Plane, value: uint8, row: nat,
                      srcStart: nat, maskStart: nat, noseMask: seq<uint8>, ghost exact: bool)
    returns (rowSum: seq<int>)
    requires src.Valid() && mask.Valid() && SameShape(src, mask) && 1 <= row && row + 1 < src.height
    requires srcStart == RowOffset(src.stride, row) && maskStart == RowOffset(mask.stride, row)
    requires 1 <= a && a + 2 <= src.width
    requires noseMask == SetMask(0xFF, a - 1, 0, a)
    ensures |rowSum| == (a + 3) / 4
    ensures RowLanes(rowSum, 2, exact, Prefix(GradientTerms(kind, src, mask, value, row), a))
  {
    ghost var t := GradientTerms(kind, src, mask, value, row);
    assert t[0] == 0;
    var wh, wv := GradientNoseChunk(kind, a, src, mask, value, row, srcStart, maskStart, noseMask);
    rowSum := AccumulateChunk(Zeros((a + 3) / 4), wh, wv, 0, exact, Prefix(t, 1));
  }

  /** One pass of the full-chunk loop (lines 276-278): the chunk centred at
      `col` added to `rowSum`, which then totals the gradient terms of the
      columns below col + A. */
  method GradientStep(kind: CompareType, a: nat, src: Plane, mask: Plane, value: uint8, row: nat,
                      srcStart: nat, maskStart: nat, col: nat, rowSum: seq<int>, ghost adds: nat, ghost exact: bool)
    returns (r: seq<int>)
    requires src.Valid() && mask.Valid() && SameShape(src, mask) && 1 <= row && row + 1 < src.height
    requires srcStart == RowOffset(src.stride, row) && maskStart == RowOffset(mask.stride, row)
    requires 1 <= col && col + a + 1 <= src.width
    requires |rowSum| == (a + 3) / 4 && RowLanes(rowSum, adds, exact, Prefix(GradientTerms(kind, src, mask, value, row), col))
    requires exact ==> adds + 2 <= MaxRowAdds
    ensures |r| == (a + 3) / 4
    ensures RowLanes(r, adds + 2, exact, Prefix(GradientTerms(kind, src, mask, value, row), col + a))
  {
    var wh, wv := GradientFullChunk(kind, a, src, mask, value, row, srcStart, maskStart, col);
    r := AccumulateChunk(rowSum, wh, wv, adds, exact, Prefix(GradientTerms(kind, src, mask, value, row), col));
  }

  /** The full chunks of one interior row (lines 274-279): `rowSum`, which
      holds the nose, takes two widened vectors per chunk. When `exact`, its lanes
      have not wrapped and total the gradient terms of the columns below the
      aligned interior width. */
  method GradientFullChunks(kind: CompareType, a: nat, src: Plane, mask: Plane, value: uint8, row: nat,
                            srcStart: nat, maskStart: nat, alignedWidth: nat, nose: seq<int>, ghost exact: bool)
    returns (rowSum: seq<int>)
    requires src.Valid() && mask.Valid() && SameShape(src, mask) && 1 <= row && row + 1 < src.height
    requires srcStart == RowOffset(src.stride, row) && maskStart == RowOffset(mask.stride, row)
    requires 1 <= a && a + 3 <= src.width
    requires alignedWidth == AlignLo(src.width - 1, a)
    requires |nose| == (a + 3) / 4 && RowLanes(nose, 2, exact, Prefix(GradientTerms(kind, src, mask, value, row), a))
    requires exact ==> 2 * FullChunks(src.width - 1, a) <= MaxRowAdds
    ensures |rowSum| == (a + 3) / 4
    ensures RowLanes(rowSum, 2 * FullChunks(src.width - 1, a), exact,
                     Prefix(GradientTerms(kind, src, mask, value, row), alignedWidth))
  {
    ghost var t := GradientTerms(kind, src, mask, value, row);
    rowSum := nose;
    CursorAfterFirst(src.width - 1, a);
    var col := a;
    ghost var chunks := 1;
    ghost var adds := 2;
    while col < alignedWidth
      invariant a <= col && adds == 2 * chunks
      invariant Cursor(col, chunks, alignedWidth, FullChunks(src.width - 1, a), a)
      invariant |rowSum| == (a + 3) / 4 && RowLanes(rowSum, adds, exact, Prefix(t, col))
    {
      CursorStep(col, chunks, alignedWidth, FullChunks(src.width - 1, a), a);
      rowSum := GradientStep(kind, a, src, mask, value, row, srcStart, maskStart, col, rowSum, adds, exact);
      col := col + a;
      chunks := chunks + 1;
      adds := adds + 2;
    }
    CursorEnd(col, chunks, alignedWidth, FullChunks(src.width - 1, a), a);
  }

  /** One interior row of `ConditionalSquareGradientSum<align, compareType>`
      (lines 268-287): nose, full chunks, then the tail chunk, gathered in
      `rowSum`; its horizontal total is the row's contribution, exact when
      the row's two additions per chunk stay within `MaxRowAdds`. */
  method GradientRow(kind: CompareType, a: nat, src: Plane, mask: Plane, value: uint8, row: nat,
                     srcStart: nat, maskStart: nat, alignedWidth: nat, noseMask: seq<uint8>, tailMask: seq<uint8>)
    returns (rowTotal: int)
    requires src.Valid() && mask.Valid() && SameShape(src, mask) && 1 <= row && row + 1 < src.height
    requires srcStart == RowOffset(src.stride, row) && maskStart == RowOffset(mask.stride, row)
    requires 1 <= a && a + 3 <= src.width
    requires alignedWidth == AlignLo(src.width - 1, a)
    requires noseMask == SetMask(0xFF, a - 1, 0, a)
    requires tailMask == SetMask(0, a - src.width + 1 + alignedWidth, 0xFF, a)
    ensures rowTotal >= 0
    ensures 2 * ChunkCount(src.width - 1, a) <= MaxRowAdds ==>
      rowTotal == Sum(GradientTerms(kind, src, mask, value, row))
  {
    ghost var t := GradientTerms(kind, src, mask, value, row);
    ghost var exact := 2 * ChunkCount(src.width - 1, a) <= MaxRowAdds;
    var rowSum := GradientNose(kind, a, src, mask, value, row, srcStart, maskStart, noseMask, exact);
    rowSum := GradientFullChunks(kind, a, src, mask, value, row, srcStart, maskStart, alignedWidth, rowSum, exact);
    if alignedWidth != src.width - 1 {
      var wh, wv := GradientTailChunk(kind, a, src, mask, value, row, srcStart, maskStart,
                                      a - src.width + 1 + alignedWidth, alignedWidth, tailMask);
      rowSum := AccumulateChunk(rowSum, wh, wv, 2 * FullChunks(src.width - 1, a), exact, Prefix(t, alignedWidth));
    }
    assert t[src.width - 1] == 0;
    PrefixWhole(t);
    rowTotal := HorizontalSum32(rowSum);
  }

  /** `ConditionalSquareGradientSum<align, compareType>` (lines 248-291):
      the gradient sum over the interior rows, one row total at a time. */
  method ConditionalSquareGradientSumKernel(align: bool, kind: CompareType, a: nat, src: Plane, mask: Plane,
                                            value: uint8)
    returns (sum: int)
    requires 1 <= a && a + 3 <= src.width && a + 3 <= src.height
    requires src.Valid() && mask.Valid() && SameShape(src, mask)
    ensures sum >= 0
    ensures 2 * ChunkCount(src.width - 1, a) <= MaxRowAdds ==> sum == GradientSpec(kind, src, mask, value)
  {
    ghost var fits := 2 * ChunkCount(src.width - 1, a) <= MaxRowAdds;
    var srcStart := src.stride;
    var maskStart := mask.stride;
    var height := src.height - 2;
    var alignedWidth := AlignLo(src.width - 1, a);
    var noseMask := SetMask(0xFF, a - 1, 0, a);
    var tailMask := SetMask(0, a - src.width + 1 + alignedWidth, 0xFF, a);
    sum := 0;
    var row := 0;
    while row < height
      invariant row <= height && sum >= 0
      invariant srcStart == RowOffset(src.stride, row + 1) && maskStart == RowOffset(mask.stride, row + 1)
      invariant fits ==> sum == GradientRows(kind, src, mask, value, row)
    {
      var rowTotal := GradientRow(kind, a, src, mask, value, row + 1, srcStart, maskStart, alignedWidth,
                                  noseMask, tailMask);
      sum := sum + rowTotal;
      srcStart := srcStart + src.stride;
      maskStart := maskStart + mask.stride;
      row := row + 1;
    }
  }

  /** The alignment dispatcher (lines 293-302). */
  method ConditionalSquareGradientSumAligned(kind: CompareType, aligned: bool, a: nat, src: Plane, mask: Plane,
                                             value: uint8)
    returns (sum: int)
    requires 1 <= a && a + 3 <= src.width && a + 3 <= src.height
    requires src.Valid() && mask.Valid() && SameShape(src, mask)
    ensures sum >= 0
    ensures 2 * ChunkCount(src.width - 1, a) <= MaxRowAdds ==> sum == GradientSpec(kind, src, mask, value)
  {
    if aligned {
      sum := ConditionalSquareGradientSumKernel(true, kind, a, src, mask, value);
    } else {
      sum := ConditionalSquareGradientSumKernel(false, kind, a, src, mask, value);
    }
  }

  /** The public entry point (lines 304-324). */
  method ConditionalSquareGradientSum(kind: CompareType, aligned: bool, a: nat, src: Plane, mask: Plane,
                                      value: uint8)
    returns (sum: int)
    requires 1 <= a && a + 3 <= src.width && a + 3 <= src.height
    requires src.Valid() && mask.Valid() && SameShape(src, mask)
    ensures sum >= 0
    ensures 2 * ChunkCount(src.width - 1, a) <= MaxRowAdds ==> sum == GradientSpec(kind, src, mask, value)
  {
    match kind
    case Equal => sum := ConditionalSquareGradientSumAligned(Equal, aligned, a, src, mask, value);
    case NotEqual => sum := ConditionalSquareGradientSumAligned(NotEqual, aligned, a, src, mask, value);
    case Greater => sum := ConditionalSquareGradientSumAligned(Greater, aligned, a, src, mask, value);
    case GreaterOrEqual => sum := ConditionalSquareGradientSumAligned(GreaterOrEqual, aligned, a, src, mask, value);
    case Lesser => sum := ConditionalSquareGradientSumAligned(Lesser, aligned, a, src, mask, value);
    case LesserOrEqual => sum := ConditionalSquareGradientSumAligned(LesserOrEqual, aligned, a, src, mask, value);
  }
}
