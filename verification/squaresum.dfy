/** `ConditionalSquareSum` in its three layers. Unlike the count and the sum,
    each row is gathered in a vector of 32-bit lanes (`rowSum`), which wraps
    modulo 2^32, and only the row's horizontal total reaches the 64-bit
    accumulator. The kernel is therefore exact whenever one lane cannot
    overflow within a row: every chunk adds at most four squared bytes to a
    lane, so a row may have at most `MaxRowAdds` chunks.
    Line numbers refer to src/Simd/SimdAvx2Conditional.cpp. */
module SquareSumKernel {
  import opened Comparison
  import opened Lanes
  import opened Planes
  import opened Tiling
  import opened Reference
  import opened Masks

  /** Lane by lane, the squares of a chunk at column `col` whose comparison
      mask is all ones exactly on the qualifying lanes of [lo, hi) are the
      square term of column col + k in lane k of [lo, hi) and zero
      elsewhere. */
  lemma SquareLaneValues(kind: CompareType, src: Plane, mask: Plane, value: uint8, row: nat, col: nat, lo: nat, hi: nat,
                         a: nat, vSrc: seq<uint8>, vMask: seq<uint8>)
    requires src.Valid() && mask.Valid() && SameShape(src, mask) && row < src.height
    requires lo <= hi <= a && col + a <= src.width
    requires |vSrc| == a && |vMask| == a
    requires forall k :: 0 <= k < a ==> vSrc[k] == src.At(row, col + k)
    requires forall k :: 0 <= k < a ==>
      vMask[k] == (if lo <= k < hi && Holds(kind, mask.At(row, col + k), value) then 0xFF else 0)
    ensures forall k :: 0 <= k < a ==>
      Squares(And(vMask, vSrc))[k] == (if lo <= k < hi then SquareTerms(kind, src, mask, value, row)[col + k] else 0)
  {
    var squares := Squares(And(vMask, vSrc));
    forall k | 0 <= k < a
      ensures squares[k] == (if lo <= k < hi then SquareTerms(kind, src, mask, value, row)[col + k] else 0)
    {
      if lo <= k < hi && Holds(kind, mask.At(row, col + k), value) {
        assert vMask[k] == 0xFF;
      } else {
        assert vMask[k] == 0;
      }
    }
  }

  /** Such a chunk, squared and widened into `w`, totals the square terms of
      columns [from, to) = [col + lo, col + hi). */
  lemma SquareLanes(kind: CompareType, src: Plane, mask: Plane, value: uint8, row: nat, col: nat, lo: nat, hi: nat, a: nat,
                    from: nat, to: nat, vSrc: seq<uint8>, vMask: seq<uint8>, w: seq<int>)
    requires src.Valid() && mask.Valid() && SameShape(src, mask) && row < src.height
    requires lo <= hi <= a && col + a <= src.width
    requires from == col + lo && to == col + hi
    requires |vSrc| == a && |vMask| == a && w == Square(And(vMask, vSrc))
    requires forall k :: 0 <= k < a ==> vSrc[k] == src.At(row, col + k)
    requires forall k :: 0 <= k < a ==>
      vMask[k] == (if lo <= k < hi && Holds(kind, mask.At(row, col + k), value) then 0xFF else 0)
    ensures Prefix(SquareTerms(kind, src, mask, value, row), from) + Sum(w)
         == Prefix(SquareTerms(kind, src, mask, value, row), to)
  {
    SquareLaneValues(kind, src, mask, value, row, col, lo, hi, a, vSrc, vMask);
    PrefixWindow(Squares(And(vMask, vSrc)), SquareTerms(kind, src, mask, value, row), col, lo, hi, from, to);
  }

  /** The squaring step of a chunk (the `Square` calls of lines 191 and
      197): the kept lanes squared and widened to 32-bit lanes, which total
      the square terms of columns [from, to) = [col + lo, col + hi). */
  method SquareKept(kind: CompareType, src: Plane, mask: Plane, value: uint8, row: nat, col: nat, lo: nat, hi: nat, a: nat,
                    from: nat, to: nat, vSrc: seq<uint8>, vMask: seq<uint8>)
    returns (w: seq<int>)
    requires src.Valid() && mask.Valid() && SameShape(src, mask) && row < src.height
    requires lo <= hi <= a && col + a <= src.width
    requires from == col + lo && to == col + hi
    requires |vSrc| == a && |vMask| == a
    requires forall k :: 0 <= k < a ==> vSrc[k] == src.At(row, col + k)
    requires forall k :: 0 <= k < a ==>
      vMask[k] == (if lo <= k < hi && Holds(kind, mask.At(row, col + k), value) then 0xFF else 0)
    ensures |w| == (a + 3) / 4 && LanesWithin(w, QuadSquareMax)
    ensures Prefix(SquareTerms(kind, src, mask, value, row), from) + Sum(w)
         == Prefix(SquareTerms(kind, src, mask, value, row), to)
  {
    w := Square(And(vMask, vSrc));
    SquareLanes(kind, src, mask, value, row, col, lo, hi, a, from, to, vSrc, vMask, w);
  }

  /** One full square-sum chunk (lines 189-191): the source lanes kept where
      the mask chunk at `col` qualifies, squared and widened to 32-bit lanes.
      Its lanes total the square terms of columns [col, col + a). */
  method SquareFullChunk(kind: CompareType, a: nat, src: Plane, mask: Plane, value: uint8, row: nat,
                         srcStart: nat, maskStart: nat, col: nat)
    returns (w: seq<int>)
    requires src.Valid() && mask.Valid() && SameShape(src, mask) && row < src.height
    requires srcStart == RowOffset(src.stride, row) && maskStart == RowOffset(mask.stride, row)
    requires col + a <= src.width
    ensures |w| == (a + 3) / 4 && LanesWithin(w, QuadSquareMax)
    ensures Prefix(SquareTerms(kind, src, mask, value, row), col) + Sum(w)
         == Prefix(SquareTerms(kind, src, mask, value, row), col + a)
  {
    var vSrc := RowLoad(src, srcStart, row, col, a);
    var vMask := ChunkMask(kind, a, mask, maskStart, row, col, value);
    w := SquareKept(kind, src, mask, value, row, col, 0, a, a, col, col + a, vSrc, vMask);
  }

  /** The tail square-sum chunk (lines 193-198), masked by `tailMask` so that
      its lanes total the square terms of columns [width - a + skip, width). */
  method SquareTailChunk(kind: CompareType, a: nat, src: Plane, mask: Plane, value: uint8, row: nat,
                         srcStart: nat, maskStart: nat, skip: nat, tailMask: seq<uint8>)
    returns (w: seq<int>)
    requires src.Valid() && mask.Valid() && SameShape(src, mask) && row < src.height
    requires srcStart == RowOffset(src.stride, row) && maskStart == RowOffset(mask.stride, row)
    requires a <= src.width && skip <= a
    requires tailMask == SetMask(0, skip, 0xFF, a)
    ensures |w| == (a + 3) / 4 && LanesWithin(w, QuadSquareMax)
    ensures Prefix(SquareTerms(kind, src, mask, value, row), src.width - a + skip) + Sum(w)
         == Prefix(SquareTerms(kind, src, mask, value, row), src.width)
  {
    var vSrc := RowLoad(src, srcStart, row, src.width - a, a);
    TailWindow(skip, a);
    var vMask := WindowedChunkMask(kind, a, mask, maskStart, row, src.width - a, value, tailMask, skip, a);
    w := SquareKept(kind, src, mask, value, row, src.width - a, skip, a, a, src.width - a + skip, src.width, vSrc, vMask);
  }

  /** The full chunks of one row (lines 186-192): `rowSum` starts at zero
      and takes one widened chunk per A columns up to the aligned width. When
      `exact`, its lanes have not wrapped and total the square terms of the
      columns below the aligned width. */
  method SquareFullChunks(kind: CompareType, a: nat, src: Plane, mask: Plane, value: uint8, row: nat,
                          srcStart: nat, maskStart: nat, alignedWidth: nat, ghost exact: bool)
    returns (rowSum: seq<int>)
    requires 1 <= a <= src.width && src.Valid() && mask.Valid() && SameShape(src, mask) && row < src.height
    requires srcStart == RowOffset(src.stride, row) && maskStart == RowOffset(mask.stride, row)
    requires alignedWidth == AlignLo(src.width, a)
    requires exact ==> FullChunks(src.width, a) <= MaxRowAdds
    ensures |rowSum| == (a + 3) / 4
    ensures RowLanes(rowSum, FullChunks(src.width, a), exact, Prefix(SquareTerms(kind, src, mask, value, row), alignedWidth))
  {
    ghost var t := SquareTerms(kind, src, mask, value, row);
    rowSum := Zeros((a + 3) / 4);
    var col := 0;
    ghost var chunks := 0;
    CursorStart(src.width, a);
    while col < alignedWidth
      invariant Cursor(col, chunks, alignedWidth, FullChunks(src.width, a), a)
      invariant |rowSum| == (a + 3) / 4 && RowLanes(rowSum, chunks, exact, Prefix(t, col))
    {
      CursorStep(col, chunks, alignedWidth, FullChunks(src.width, a), a);
      var w := SquareFullChunk(kind, a, src, mask, value, row, srcStart, maskStart, col);
      rowSum := AccumulateRow(rowSum, w, chunks, exact, Prefix(t, col));
      col := col + a;
      chunks := chunks + 1;
    }
    CursorEnd(col, chunks, alignedWidth, FullChunks(src.width, a), a);
  }

  /** One row of `ConditionalSquareSum<align, compareType>` (lines 186-199):
      the full chunks, then the tail chunk, gathered in `rowSum`; its
      horizontal total is the row's contribution. That total is exact when
      the row takes at most `MaxRowAdds` chunks. */
  method SquareRow(kind: CompareType, a: nat, src: Plane, mask: Plane, value: uint8, row: nat,
                   srcStart: nat, maskStart: nat, alignedWidth: nat, tailMask: seq<uint8>)
    returns (rowTotal: int)
    requires 1 <= a <= src.width && src.Valid() && mask.Valid() && SameShape(src, mask) && row < src.height
    requires srcStart == RowOffset(src.stride, row) && maskStart == RowOffset(mask.stride, row)
    requires alignedWidth == AlignLo(src.width, a)
    requires tailMask == SetMask(0, a - src.width + alignedWidth, 0xFF, a)
    ensures rowTotal >= 0
    ensures ChunkCount(src.width, a) <= MaxRowAdds ==>
      rowTotal == Sum(SquareTerms(kind, src, mask, value, row))
  {
    ghost var t := SquareTerms(kind, src, mask, value, row);
    ghost var exact := ChunkCount(src.width, a) <= MaxRowAdds;
    var rowSum := SquareFullChunks(kind, a, src, mask, value, row, srcStart, maskStart, alignedWidth, exact);
    if alignedWidth != src.width {
      var w := SquareTailChunk(kind, a, src, mask, value, row, srcStart, maskStart, a - src.width + alignedWidth, tailMask);
      rowSum := AccumulateRow(rowSum, w, FullChunks(src.width, a), exact, Prefix(t, alignedWidth));
    }
    PrefixWhole(t);
    rowTotal := HorizontalSum32(rowSum);
  }

  /** `ConditionalSquareSum<align, compareType>` (lines 171-204): the sum of
      the squares of the source bytes whose mask byte satisfies `kind`
      against `value`, exact whenever no 32-bit row lane can wrap. */
  method ConditionalSquareSumKernel(align: bool, kind: CompareType, a: nat, src: Plane, mask: Plane, value: uint8)
    returns (sum: int)
    requires 1 <= a <= src.width && src.Valid() && mask.Valid() && SameShape(src, mask)
    ensures sum >= 0
    ensures ChunkCount(src.width, a) <= MaxRowAdds ==> sum == SquareSumSpec(kind, src, mask, value)
  {
    ghost var fits := ChunkCount(src.width, a) <= MaxRowAdds;
    var alignedWidth := AlignLo(src.width, a);
    var tailMask := SetMask(0, a - src.width + alignedWidth, 0xFF, a);
    sum := 0;
    var row := 0;
    var srcStart := 0;
    var maskStart := 0;
    while row < src.height
      invariant row <= src.height && sum >= 0
      invariant srcStart == RowOffset(src.stride, row) && maskStart == RowOffset(mask.stride, row)
      invariant fits ==> sum == SquareRows(kind, src, mask, value, row)
    {
      var rowTotal := SquareRow(kind, a, src, mask, value, row, srcStart, maskStart, alignedWidth, tailMask);
      sum := sum + rowTotal;
      srcStart := srcStart + src.stride;
      maskStart := maskStart + mask.stride;
      row := row + 1;
    }
  }

  /** The alignment dispatcher (lines 206-214). */
  method ConditionalSquareSumAligned(kind: CompareType, aligned: bool, a: nat, src: Plane, mask: Plane, value: uint8)
    returns (sum: int)
    requires 1 <= a <= src.width && src.Valid() && mask.Valid() && SameShape(src, mask)
    ensures sum >= 0
    ensures ChunkCount(src.width, a) <= MaxRowAdds ==> sum == SquareSumSpec(kind, src, mask, value)
  {
    if aligned {
      sum := ConditionalSquareSumKernel(true, kind, a, src, mask, value);
    } else {
      sum := ConditionalSquareSumKernel(false, kind, a, src, mask, value);
    }
  }

  /** The public entry point (lines 216-236). */
  method ConditionalSquareSum(kind: CompareType, aligned: bool, a: nat, src: Plane, mask: Plane, value: uint8)
    returns (sum: int)
    requires 1 <= a <= src.width && src.Valid() && mask.Valid() && SameShape(src, mask)
    ensures sum >= 0
    ensures ChunkCount(src.width, a) <= MaxRowAdds ==> sum == SquareSumSpec(kind, src, mask, value)
  {
    match kind
    case Equal => sum := ConditionalSquareSumAligned(Equal, aligned, a, src, mask, value);
    case NotEqual => sum := ConditionalSquareSumAligned(NotEqual, aligned, a, src, mask, value);
    case Greater => sum := ConditionalSquareSumAligned(Greater, aligned, a, src, mask, value);
    case GreaterOrEqual => sum := ConditionalSquareSumAligned(GreaterOrEqual, aligned, a, src, mask, value);
    case Lesser => sum := ConditionalSquareSumAligned(Lesser, aligned, a, src, mask, value);
    case LesserOrEqual => sum := ConditionalSquareSumAligned(LesserOrEqual, aligned, a, src, mask, value);
  }
}
