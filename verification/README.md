# Conditional statistics kernels (AVX2), modelled in Dafny

This project models the four masked reductions in
`src/Simd/SimdAvx2Conditional.cpp`:

- `ConditionalCount` counts the bytes of a strided width x height image that
  satisfy a comparison (one of six kinds) against a threshold byte.
- `ConditionalSum` sums the source bytes whose paired mask byte satisfies it.
- `ConditionalSquareSum` sums the squares of those source bytes.
- `ConditionalSquareGradientSum` sums the squared horizontal and vertical
  central differences at interior pixels whose mask byte satisfies it.

Each operation is modelled in the same three layers as the source: the switch
on the comparison kind, the alignment dispatcher, and the kernel. The kernel
walks each row in A-wide chunks, where A, the lane width, is a parameter
`a >= 1`. Its last chunk overlaps the previous ones and is neutralised by a
tail mask; the gradient kernel also has a "nose" mask at the left border.

The count and sum kernels are proved equal, for all inputs, to a naive
pixel-by-pixel double sum kept in module `Reference`. The square-sum and
gradient kernels are proved equal to theirs only while no 32-bit row lane
can wrap (see below); past that, only non-negativity is stated. The tiling
proof rests on two modules:

- `Tiling` shows that the column loop stops exactly at the aligned width.
- `Masks` shows that the tail and nose masks keep exactly the lanes the full
  chunks did not cover. Together, every column of every row is added exactly
  once.

Images are flat byte sequences addressed as `data[row * stride + col]`
(`Planes`). Vector registers are byte sequences of length A, and the
intrinsics are lane-wise functions (`Lanes`). The 32-bit row accumulator of
the square kernels is modelled with explicit wrap-around modulo 2^32. The
square-sum and gradient results are therefore proved exact only when no lane
can wrap, which is at most `MaxRowAdds` = 16512 additions per row.

Files, in dependency order: `comparison.dfy`, `lanes.dfy`, `planes.dfy`,
`tiling.dfy`, `reference.dfy`, `masks.dfy`, `count.dfy`, `sum.dfy`,
`squaresum.dfy`, `gradient.dfy`, `properties.dfy`.

## Model

| member | source | states |
|---|---|---|
| Comparison.Holds | src/Simd/SimdAvx2Conditional.cpp:55 | the lane predicate of `Compare<compareType>`, read by byte order: equal bytes satisfy exactly Equal, GreaterOrEqual and LesserOrEqual; a greater mask byte exactly NotEqual, Greater and GreaterOrEqual; a lesser one exactly NotEqual, Lesser and LesserOrEqual |
| Lanes.Broadcast | src/Simd/SimdAvx2Conditional.cpp:49 | `_mm256_set1_epi8(value)` holds `value` in each of its A lanes |
| Lanes.Load | src/Simd/SimdAvx2Conditional.cpp:55 | `Load<align>` at an offset inside the buffer yields A lanes, lane k being the byte at offset + k, whatever the alignment |
| Lanes.SetMask | src/Simd/SimdAvx2Conditional.cpp:261-262 | `SetMask(first, position, second)` holds `first` in the lanes below `position` and `second` in the rest |
| Lanes.Sad | src/Simd/SimdAvx2Conditional.cpp:56 | `_mm256_sad_epu8` summed over its 64-bit lanes lies between 0 and 255 * A, and is 0 for equal operands |
| Lanes.Zeros | src/Simd/SimdAvx2Conditional.cpp:186 | `_mm256_setzero_si256` as a register of n lanes: each lane is 0, and the lanes total 0 |
| Lanes.Compare | src/Simd/SimdAvx2Conditional.cpp:55 | lane k is all ones if and only if lane k of the loaded bytes satisfies the comparison against the broadcast value; every lane is either 0 or 0xFF |
| Lanes.And | src/Simd/SimdAvx2Conditional.cpp:56 | `_mm256_and_si256`: an all-ones lane of either operand passes the other operand's lane through; a zero lane clears the result |
| Lanes.SadAgainstZero | src/Simd/SimdAvx2Conditional.cpp:56 | `_mm256_sad_epu8` against the zero vector, summed over its 64-bit lanes, is the total of the byte lanes |
| Lanes.QuadsSum | src/Simd/SimdAvx2Conditional.cpp:166-168 | gathering squared byte lanes into 32-bit lanes, four at a time, keeps their total |
| Lanes.Square | src/Simd/SimdAvx2Conditional.cpp:164-169 | `Square` yields (A+3)/4 32-bit lanes, each at most 4 * 255^2, which together total the squares of the input bytes |
| Lanes.AndedSquaredDifferencesLanes | src/Simd/SimdAvx2Conditional.cpp:241-244 | both operands are ANDed with the mask before the subtraction, so each squared difference is at most 255^2; with a whole-lane mask a cleared lane contributes 0 and a set lane contributes (x - y)^2 |
| Lanes.SquaredDifference | src/Simd/SimdAvx2Conditional.cpp:238-246 | `SquaredDifference` yields (A+3)/4 32-bit lanes, each at most 4 * 255^2; for a whole-lane mask they total the squared differences over the lanes the mask sets |
| Lanes.Add32 | src/Simd/SimdAvx2Conditional.cpp:191 | `_mm256_add_epi32` keeps every lane a 32-bit value and adds exactly when a lane does not wrap |
| Lanes.MaxRowAddsFits | src/Simd/SimdAvx2Conditional.cpp:186-199 | 16512 additions of at most 4 * 255^2 fit in a 32-bit lane, and 16513 may not: `MaxRowAdds` is the largest safe row length in chunks |
| Lanes.AccumulateRow | src/Simd/SimdAvx2Conditional.cpp:191 | adding one widened chunk to `rowSum` keeps every lane a 32-bit value; while the row has room for the chunk, no lane wraps and the lane total grows by exactly the chunk's total |
| Lanes.HorizontalSum32 | src/Simd/SimdAvx2Conditional.cpp:199 | the horizontal total of the 32-bit row lanes lies between 0 and the lane count times 2^32 - 1 |
| Planes.RowLoad | src/Simd/SimdAvx2Conditional.cpp:55 | a load at column `col` of a row is defined only when `col + A <= width`, and then lane k is the pixel in column col + k of that row, never stride padding |
| Planes.AtIsIndex | src/Simd/SimdAvx2Conditional.cpp:55-63 | pixel (r, c) is the byte at r * stride + c of the buffer, which lies inside it |
| Planes.RowOffsetIsProduct | src/Simd/SimdAvx2Conditional.cpp:63 | advancing the row pointer by `stride` once per row reaches row r at offset r * stride |
| Tiling.AlignLo | src/Simd/SimdAvx2Conditional.cpp:46 | `alignedWidth` is at most `width` and less than A below it |
| Tiling.AlignLoIsProduct | src/Simd/SimdAvx2Conditional.cpp:46 | `alignedWidth` is the number of whole chunks times A, less than A below `width`: the largest multiple of A not above it |
| Tiling.SpanOfFullChunks | src/Simd/SimdAvx2Conditional.cpp:53 | the whole chunks of a row cover exactly the columns [0, alignedWidth) |
| Tiling.CursorStart | src/Simd/SimdAvx2Conditional.cpp:53 | the column loop starts at 0 with every whole chunk of the row ahead of it |
| Tiling.CursorStep | src/Simd/SimdAvx2Conditional.cpp:53 | while `col < alignedWidth`, the chunk at `col` lies inside the aligned width, and stepping by A keeps the loop on whole chunks |
| Tiling.CursorEnd | src/Simd/SimdAvx2Conditional.cpp:53 | when the column loop exits, `col == alignedWidth` and every whole chunk has been taken |
| Tiling.CursorAfterFirst | src/Simd/SimdAvx2Conditional.cpp:274 | the gradient's column loop, starting at A after the nose, is on whole chunks with one already taken |
| Masks.TailWindow | src/Simd/SimdAvx2Conditional.cpp:47 | `SetMask(0, skip, 0xFF)` is all ones exactly on the lanes [skip, A) |
| Masks.NoseWindow | src/Simd/SimdAvx2Conditional.cpp:261 | `SetMask(0xFF, A - 1, 0)` is all ones exactly on the lanes [0, A - 1) |
| Masks.ChunkMask | src/Simd/SimdAvx2Conditional.cpp:117 | the comparison mask of a chunk is all ones exactly on the lanes whose mask byte satisfies the comparison |
| Masks.WindowedChunkMask | src/Simd/SimdAvx2Conditional.cpp:123 | ANDed with a window, the mask is all ones exactly on the lanes inside the window whose mask byte satisfies the comparison |
| CountKernel.CountLaneValues | src/Simd/SimdAvx2Conditional.cpp:56 | ANDing the mask with ones leaves, in each lane of [lo, hi), the count term of its column, and 0 elsewhere |
| CountKernel.CountLanes | src/Simd/SimdAvx2Conditional.cpp:56 | a chunk's SAD advances the row's running count from column col + lo to column col + hi |
| CountKernel.CountFullChunk | src/Simd/SimdAvx2Conditional.cpp:55-56 | a full chunk counts exactly the satisfying columns of [col, col + A) |
| CountKernel.CountTailChunk | src/Simd/SimdAvx2Conditional.cpp:58-62 | the tail chunk at `width - A`, masked by `tailMask`, counts exactly the satisfying columns of [alignedWidth, width), none twice |
| CountKernel.CountRow | src/Simd/SimdAvx2Conditional.cpp:53-62 | one row adds exactly the number of satisfying pixels of that row, counting each column once |
| CountKernel.ConditionalCountKernel | src/Simd/SimdAvx2Conditional.cpp:39-66 | the kernel returns the number of pixels (r, c), r < height, c < width, whose byte satisfies the comparison against `value` |
| CountKernel.ConditionalCountAligned | src/Simd/SimdAvx2Conditional.cpp:68-75 | both the aligned and the unaligned instantiation return that count |
| CountKernel.ConditionalCount | src/Simd/SimdAvx2Conditional.cpp:77-97 | every comparison kind is dispatched to the kernel of the same kind, so the result is the count for the requested kind |
| SumKernel.SumLaneValues | src/Simd/SimdAvx2Conditional.cpp:118 | ANDing the mask with the source keeps, in each lane of [lo, hi), the sum term of its column, and 0 elsewhere |
| SumKernel.SumLanes | src/Simd/SimdAvx2Conditional.cpp:118 | a chunk's SAD advances the row's running sum from column col + lo to column col + hi |
| SumKernel.SumFullChunk | src/Simd/SimdAvx2Conditional.cpp:116-118 | a full chunk adds exactly the qualifying source bytes of [col, col + A) |
| SumKernel.SumTailChunk | src/Simd/SimdAvx2Conditional.cpp:120-125 | the tail chunk adds exactly the qualifying source bytes of [alignedWidth, width) |
| SumKernel.SumRow | src/Simd/SimdAvx2Conditional.cpp:114-125 | one row adds exactly the sum of its qualifying source bytes |
| SumKernel.ConditionalSumKernel | src/Simd/SimdAvx2Conditional.cpp:99-130 | the kernel returns the sum of src[r][c] over the pixels whose mask[r][c] satisfies the comparison |
| SumKernel.ConditionalSumAligned | src/Simd/SimdAvx2Conditional.cpp:132-140 | both instantiations return that sum |
| SumKernel.ConditionalSum | src/Simd/SimdAvx2Conditional.cpp:142-162 | every comparison kind is dispatched to the kernel of the same kind |
| SquareSumKernel.SquareLaneValues | src/Simd/SimdAvx2Conditional.cpp:191 | the squares of the kept lanes are, in each lane of [lo, hi), the square term of its column, and 0 elsewhere |
| SquareSumKernel.SquareLanes | src/Simd/SimdAvx2Conditional.cpp:191 | the widened squares of a chunk total the square terms of columns [col + lo, col + hi) |
| SquareSumKernel.SquareKept | src/Simd/SimdAvx2Conditional.cpp:191 | `Square` of the kept lanes yields 32-bit lanes of at most 4 * 255^2 that total the square terms of the chunk's window |
| SquareSumKernel.SquareFullChunk | src/Simd/SimdAvx2Conditional.cpp:189-191 | a full chunk's widened squares total the qualifying squares of [col, col + A) |
| SquareSumKernel.SquareTailChunk | src/Simd/SimdAvx2Conditional.cpp:193-198 | the tail chunk's widened squares total the qualifying squares of [alignedWidth, width) |
| SquareSumKernel.SquareFullChunks | src/Simd/SimdAvx2Conditional.cpp:186-192 | after the full chunks, `rowSum` holds 32-bit lanes; if the row fits, none has wrapped and they total the qualifying squares of [0, alignedWidth) |
| SquareSumKernel.SquareRow | src/Simd/SimdAvx2Conditional.cpp:186-199 | a row's horizontal total is non-negative, and it is exactly the row's sum of qualifying squares when the row takes at most `MaxRowAdds` chunks |
| SquareSumKernel.ConditionalSquareSumKernel | src/Simd/SimdAvx2Conditional.cpp:171-204 | the result is non-negative, and it is the sum of src[r][c]^2 over qualifying pixels whenever a row takes at most `MaxRowAdds` chunks |
| SquareSumKernel.ConditionalSquareSumAligned | src/Simd/SimdAvx2Conditional.cpp:206-214 | both instantiations return that result |
| SquareSumKernel.ConditionalSquareSum | src/Simd/SimdAvx2Conditional.cpp:216-236 | every comparison kind is dispatched to the kernel of the same kind |
| GradientKernel.GradientLoads | src/Simd/SimdAvx2Conditional.cpp:241-242 | the four loads of `SquaredDifference` read, lane by lane, the left and right neighbours (step 1) and the upper and lower neighbours (step `srcStride`) of the chunk's columns, all inside the image |
| GradientKernel.GradientLaneValues | src/Simd/SimdAvx2Conditional.cpp:239-246 | under the chunk's mask, the horizontal plus the vertical squared difference of each lane of [lo, hi) is the gradient term of its column, and 0 elsewhere |
| GradientKernel.GradientLanes | src/Simd/SimdAvx2Conditional.cpp:239-246 | the two squared-difference vectors of a chunk together advance the row's running gradient total from column col + lo to column col + hi |
| GradientKernel.GradientKept | src/Simd/SimdAvx2Conditional.cpp:277-278 | the two widened `SquaredDifference` results have lanes of at most 4 * 255^2 and together total the gradient terms of the chunk's window |
| GradientKernel.GradientNoseChunk | src/Simd/SimdAvx2Conditional.cpp:269-272 | the nose chunk at column 1, with lane A - 1 cleared by `noseMask`, totals exactly the gradient terms of columns [1, A) |
| GradientKernel.GradientFullChunk | src/Simd/SimdAvx2Conditional.cpp:276-278 | a full chunk totals exactly the gradient terms of [col, col + A) |
| GradientKernel.GradientTailChunk | src/Simd/SimdAvx2Conditional.cpp:280-286 | the tail chunk at `width - A - 1`, masked by `tailMask`, totals exactly the gradient terms of [alignedWidth, width - 1) |
| GradientKernel.AccumulateChunk | src/Simd/SimdAvx2Conditional.cpp:277-278 | the two additions of a chunk keep `rowSum` in 32 bits; with room for both, its lanes grow by exactly the two vectors' totals |
| GradientKernel.GradientNose | src/Simd/SimdAvx2Conditional.cpp:268-273 | after the nose, `rowSum` has taken two additions and totals the gradient terms of columns below A (column 0 is a border column and contributes nothing) |
| GradientKernel.GradientStep | src/Simd/SimdAvx2Conditional.cpp:274-279 | one pass of the column loop extends the covered columns from `col` to col + A at the cost of two additions |
| GradientKernel.GradientFullChunks | src/Simd/SimdAvx2Conditional.cpp:274-279 | after the column loop, `rowSum` has taken two additions per whole chunk of `width - 1` and, if the row fits, totals the gradient terms of [0, alignedWidth) |
| GradientKernel.GradientRow | src/Simd/SimdAvx2Conditional.cpp:266-290 | an interior row's total is non-negative, and it is exactly the row's sum of qualifying gradient terms (interior columns 1 .. width - 2) when its two additions per chunk stay within `MaxRowAdds` |
| GradientKernel.ConditionalSquareGradientSumKernel | src/Simd/SimdAvx2Conditional.cpp:248-292 | over rows 1 .. height - 2, the result is non-negative, and when no row lane can wrap it is the sum over qualifying interior pixels of (src[r][c-1] - src[r][c+1])^2 + (src[r-1][c] - src[r+1][c])^2 |
| GradientKernel.ConditionalSquareGradientSumAligned | src/Simd/SimdAvx2Conditional.cpp:294-302 | both instantiations return that result |
| GradientKernel.ConditionalSquareGradientSum | src/Simd/SimdAvx2Conditional.cpp:304-324 | every comparison kind is dispatched to the kernel of the same kind |
| Properties.CountComplement | src/Simd/SimdAvx2Conditional.cpp:50-65 | a comparison and its negation (Equal and NotEqual, for one) count width * height pixels between them |
| Properties.SumOfOnesImage | src/Simd/SimdAvx2Conditional.cpp:107-129 | an all-ones source under a mask that qualifies everywhere sums to width * height; the overlapping tail adds nothing twice |
| Properties.SquareSumDominatesSum | src/Simd/SimdAvx2Conditional.cpp:183-203 | over the same qualifying pixels, the square sum is at least the plain sum |
| Properties.ConstantImageGradient | src/Simd/SimdAvx2Conditional.cpp:239-246 | a constant image has gradient sum 0 for every mask, threshold and comparison kind |
| Properties.CountPixelsOnly | src/Simd/SimdAvx2Conditional.cpp:53-63 | two images with the same pixels but different strides or padding bytes give the same count |
| Properties.SumPixelsOnly | src/Simd/SimdAvx2Conditional.cpp:114-127 | the sum and the square sum depend only on the pixels of source and mask, not on strides or padding |
| Properties.GradientPixelsOnly | src/Simd/SimdAvx2Conditional.cpp:266-289 | the gradient sum depends only on the pixels of source and mask |
| Properties.ExactWhenLaneBoundFits | src/Simd/SimdAvx2Conditional.cpp:186-199 | the exactness condition holds whenever the per-row lane bound 4 * 255^2 * (full chunks + 1) fits in 32 bits, and is no stronger than that bound |

## Left out

- The AVX2 intrinsics are modelled by their arithmetic meaning on lanes, not by register layout. `Square` and `SquaredDifference` group four consecutive byte lanes (4i .. 4i+3) per 32-bit lane. The real unpack and multiply-add pair works per 128-bit half, and each 32-bit lane gathers bytes 2i, 2i+1, 2i+8 and 2i+9 of its half. The lanes' total and each lane's bound are the same in both, and that is all the proofs use while no lane wraps. Past `MaxRowAdds` chunks in a row, a lane can wrap, and then the model's value differs from the source's. There, only non-negativity is stated.
- `Load`, `Compare`, `SetMask`, `HorizontalSum32` and `ExtractSum` come from headers that are not part of this model; each is given the lane-wise meaning the kernels rely on.
- Pointer alignment is not modelled: `Aligned` and the `if (align) assert(...)` checks are left out. The `align` template flag is a Boolean the kernels ignore, because aligned and unaligned loads read the same bytes.
- CountKernel.ConditionalCountKernel: the count is an unbounded integer. The narrowing to `uint32_t` by `ExtractSum<uint32_t>` (line 65), which would wrap for images of 2^32 or more satisfying pixels, is not modelled.
- The 64-bit accumulators `_count` and `_sum` are one unbounded integer, the total of their lanes; the model does not bound them to 64 bits.
- SquareSumKernel.ConditionalSquareSumKernel: exact only when a row takes at most `MaxRowAdds` chunks. The source does not check this; a wider row can wrap its 32-bit `rowSum` lanes. Beyond that width the model states only that the result is non-negative.
- SquareSumKernel.SquareRow: exact only under the same row-length condition, for the same reason.
- SquareSumKernel.SquareFullChunks: its lane total is stated only under the same row-length condition.
- SquareSumKernel.ConditionalSquareSumAligned: exact only under the same row-length condition.
- SquareSumKernel.ConditionalSquareSum: exact only under the same row-length condition.
- GradientKernel.ConditionalSquareGradientSumKernel: exact only when twice the chunk count of `width - 1` is at most `MaxRowAdds`, since every chunk adds two vectors to `rowSum`. Beyond that the model states only that the result is non-negative.
- GradientKernel.GradientRow: exact only under the same condition.
- GradientKernel.GradientFullChunks: its lane total is stated only under the same condition.
- GradientKernel.ConditionalSquareGradientSumAligned: exact only under the same condition.
- GradientKernel.ConditionalSquareGradientSum: exact only under the same condition.
- The `default: assert(0)` branches of the six-way switches of the four entry points (lines 80-96, 145-161, 219-235 and 307-323) cannot be reached in the model, because the comparison kind is a closed datatype.
- `Simd::AlignLo` clears the low bits of the width, which rounds down to a multiple of A when A is a power of two. The model rounds down by repeated subtraction, so it is correct for any A >= 1.
- The assertions `width >= A` and, for the gradient, `width >= A + 3 && height >= A + 3` become preconditions of the kernels and dispatchers.
- The 16-bit subtraction in `SquaredDifference` is modelled on integers: a difference of two bytes always fits in 16 signed bits, so nothing is lost.
- The `#ifdef SIMD_AVX2_ENABLE` guard, the dispatch across instruction sets, and all performance aspects are not modelled.
