/** `ConditionalCount` in its three layers: the kernel proper (specialised
    on alignment and comparison kind), the alignment dispatcher, and the
    switch on the comparison kind. The kernel walks each row in A-wide
    chunks; when the width is not a multiple of A, one more chunk ending at
    the row's last byte is masked so that it counts only the columns the
    full chunks did not reach.
    Line numbers refer to src/Simd/SimdAvx2Conditional.cpp. */
module CountKernel {
  import opened Comparison
  import opened Lanes
  import opened Planes
  import opened Tiling
  import opened Reference
  import opened Masks

  /** Lane by lane, a count chunk at column `col` whose comparison mask is
      all ones exactly on the qualifying lanes of [lo, hi) holds the count
      term of column col + k in lane k of [lo, hi) and zero elsewhere. */
  lemma CountLaneValues(kind: CompareType, src: Plane, value: uint8, row: nat, col: nat, lo: nat, hi: nat, a: nat,
                        vMask: seq<uint8>)
    requires src.Valid() && row < src.height && lo <= hi <= a && col + a <= src.width
    requires |vMask| == a
    requires forall k :: 0 <= k < a ==>
      vMask[k] == (if lo <= k < hi && Holds(kind, src.At(row, col + k), value) then 0xFF else 0)
    ensures forall k :: 0 <= k < a ==>
      And(vMask, Broadcast(1, a))[k] == (if lo <= k < hi then CountTerms(kind, src, value, row)[col + k] else 0)
  {
    var ones := And(vMask, Broadcast(1, a));
    forall k | 0 <= k < a
      ensures ones[k] == (if lo <= k < hi then CountTerms(kind, src, value, row)[col + k] else 0)
    {
      if lo <= k < hi && Holds(kind, src.At(row, col + k), value) {
        assert vMask[k] == 0xFF;
      } else {
        assert vMask[k] == 0;
      }
    }
  }

  /** Such a chunk adds the count terms of columns [from, to) = [col + lo,
      col + hi): it advances the row's running count from `from` to `to`. */
  lemma CountLanes(kind: CompareType, src: Plane, value: uint8, row: nat, col: nat, lo: nat, hi: nat, a: nat,
                   from: nat, to: nat, vMask: seq<uint8>)
    requires src.Valid() && row < src.height && lo <= hi <= a && col + a <= src.width
    requires from == col + lo && to == col + hi
    requires |vMask| == a
    requires forall k :: 0 <= k < a ==>
      vMask[k] == (if lo <= k < hi && Holds(kind, src.At(row, col + k), value) then 0xFF else 0)
    ensures Prefix(CountTerms(kind, src, value, row), from) + Sad(And(vMask, Broadcast(1, a)), Broadcast(0, a))
         == Prefix(CountTerms(kind, src, value, row), to)
  {
    CountLaneValues(kind, src, value, row, col, lo, hi, a, vMask);
    SadAgainstZero(And(vMask, Broadcast(1, a)), Broadcast(0, a));
    PrefixWindow(And(vMask, Broadcast(1, a)), CountTerms(kind, src, value, row), col, lo, hi, from, to);
  }

  /** One full count chunk (lines 55-56): compare the A bytes at `col`
      against the broadcast value, keep 1 in each satisfying lane and add the
      lanes up with SAD against zero. It counts the satisfying columns in
      [col, col + a). */
  method CountFullChunk(kind: CompareType, a: nat, src: Plane, value: uint8, row: nat, rowStart: nat, col: nat)
    returns (n: int)
    requires src.Valid() && row < src.height && rowStart == RowOffset(src.stride, row)
    requires col + a <= src.width
    ensures Prefix(CountTerms(kind, src, value, row), col) + n == Prefix(CountTerms(kind, src, value, row), col + a)
  {
    var vMask := ChunkMask(kind, a, src, rowStart, row, col, value);
    CountLanes(kind, src, value, row, col, 0, a, a, col, col + a, vMask);
    n := Sad(And(vMask, Broadcast(1, a)), Broadcast(0, a));
  }

  /** The tail count chunk (lines 58-62): the A bytes ending at the row's
      last byte, with the comparison mask ANDed with `tailMask`, which clears
      the first `skip` lanes, those the full chunks already counted. It
      counts the satisfying columns in [width - a + skip, width). */
  method CountTailChunk(kind: CompareType, a: nat, src: Plane, value: uint8, row: nat, rowStart: nat,
                        skip: nat, tailMask: seq<uint8>)
    returns (n: int)
    requires src.Valid() && row < src.height && rowStart == RowOffset(src.stride, row)
    requires a <= src.width && skip <= a
    requires tailMask == SetMask(0, skip, 0xFF, a)
    ensures Prefix(CountTerms(kind, src, value, row), src.width - a + skip) + n
         == Prefix(CountTerms(kind, src, value, row), src.width)
  {
    TailWindow(skip, a);
    var vMask := WindowedChunkMask(kind, a, src, rowStart, row, src.width - a, value, tailMask, skip, a);
    CountLanes(kind, src, value, row, src.width - a, skip, a, a, src.width - a + skip, src.width, vMask);
    n := Sad(And(vMask, Broadcast(1, a)), Broadcast(0, a));
  }

  /** One row of `ConditionalCount<align, compareType>` (lines 53-62): the
      full chunks left to right, then the tail chunk ending at the row's last
      byte, each added to the running count. */
  method CountRow(kind: CompareType, a: nat, src: Plane, value: uint8, row: nat, rowStart: nat,
                  alignedWidth: nat, tailMask: seq<uint8>, count: int)
    returns (total: int)
    requires 1 <= a <= src.width && src.Valid() && row < src.height
    requires rowStart == RowOffset(src.stride, row)
    requires alignedWidth == AlignLo(src.width, a)
    requires tailMask == SetMask(0, a - src.width + alignedWidth, 0xFF, a)
    ensures total == count + Sum(CountTerms(kind, src, value, row))
  {
    ghost var t := CountTerms(kind, src, value, row);
    total := count;
    var col := 0;
    ghost var chunks := 0;
    CursorStart(src.width, a);
    while col < alignedWidth
      invariant Cursor(col, chunks, alignedWidth, FullChunks(src.width, a), a)
      invariant total == count + Prefix(t, col)
    {
      CursorStep(col, chunks, alignedWidth, FullChunks(src.width, a), a);
      var n := CountFullChunk(kind, a, src, value, row, rowStart, col);
      total := total + n;
      col := col + a;
      chunks := chunks + 1;
    }
    CursorEnd(col, chunks, alignedWidth, FullChunks(src.width, a), a);
    if alignedWidth != src.width {
      var n := CountTailChunk(kind, a, src, value, row, rowStart, a - src.width + alignedWidth, tailMask);
      total := total + n;
    }
    PrefixWhole(t);
  }

  /** `ConditionalCount<align, compareType>`: the number of bytes of `src`
      satisfying `kind` against `value`. `align` records which load the
      source issues for full chunks; both read the same bytes. */
  method ConditionalCountKernel(align: bool, kind: CompareType, a: nat, src: Plane, value: uint8)
    returns (count: int)
    requires 1 <= a <= src.width && src.Valid()
    ensures count == CountSpec(kind, src, value)
  {
    var alignedWidth := AlignLo(src.width, a);
    var tailMask := SetMask(0, a - src.width + alignedWidth, 0xFF, a);
    count := 0;
    var row := 0;
    var rowStart := 0;
    while row < src.height
      invariant row <= src.height
      invariant rowStart == RowOffset(src.stride, row)
      invariant count == CountRows(kind, src, value, row)
    {
      count := CountRow(kind, a, src, value, row, rowStart, alignedWidth, tailMask, count);
      rowStart := rowStart + src.stride;
      row := row + 1;
    }
  }

  /** The alignment dispatcher (lines 68-75): `aligned` stands for the
      test that both the source pointer and its stride are A-aligned; either
      instantiation computes the same count. */
  method ConditionalCountAligned(kind: CompareType, aligned: bool, a: nat, src: Plane, value: uint8)
    returns (count: int)
    requires 1 <= a <= src.width && src.Valid()
    ensures count == CountSpec(kind, src, value)
  {
    if aligned {
      count := ConditionalCountKernel(true, kind, a, src, value);
    } else {
      count := ConditionalCountKernel(false, kind, a, src, value);
    }
  }

  /** The public entry point (lines 77-97): the switch selects the kernel
      instantiated for the requested comparison kind. */
  method ConditionalCount(kind: CompareType, aligned: bool, a: nat, src: Plane, value: uint8)
    returns (count: int)
    requires 1 <= a <= src.width && src.Valid()
    ensures count == CountSpec(kind, src, value)
  {
    match kind
    case Equal => count := ConditionalCountAligned(Equal, aligned, a, src, value);
    case NotEqual => count := ConditionalCountAligned(NotEqual, aligned, a, src, value);
    case Greater => count := ConditionalCountAligned(Greater, aligned, a, src, value);
    case GreaterOrEqual => count := ConditionalCountAligned(GreaterOrEqual, aligned, a, src, value);
    case Lesser => count := ConditionalCountAligned(Lesser, aligned, a, src, value);
    case LesserOrEqual => count := ConditionalCountAligned(LesserOrEqual, aligned, a, src, value);
  }
}
