/** Index arithmetic of the row tiling: full A-wide chunks from the left,
    then at most one overlapping tail chunk. */
module Tiling {

  /** `Simd::AlignLo(size, align)`: `size` rounded down to a multiple of
      `align`. The source clears the low bits of `size`, which gives the same
      number for the power-of-two lane widths it is built with. */
  function AlignLo(size: nat, align: nat): (r: nat)
    requires align >= 1
    ensures r <= size < r + align
    decreases size
  {
    if size < align then 0 else AlignLo(size - align, align) + align
  }

  /** Number of whole `align`-wide chunks in `size` columns. */
  function FullChunks(size: nat, align: nat): (n: nat)
    requires align >= 1
    decreases size
  {
    if size < align then 0 else FullChunks(size - align, align) + 1
  }

  /** Number of A-wide loads one row of `size` columns takes: the full
      chunks, plus the tail chunk when `size` is not a multiple of `align`. */
  function ChunkCount(size: nat, align: nat): (n: nat)
    requires align >= 1
  {
    FullChunks(size, align) + (if AlignLo(size, align) == size then 0 else 1)
  }

  /** The columns covered by `n` whole chunks of `align` columns. */
  function Span(n: nat, align: nat): (r: nat)
    ensures align >= 1 ==> r >= n
  {
    if n == 0 then 0 else Span(n - 1, align) + align
  }

  /** The whole chunks of `size` cover exactly its aligned width. */
  lemma {:induction false} SpanOfFullChunks(size: nat, align: nat)
    requires align >= 1
    ensures Span(FullChunks(size, align), align) == AlignLo(size, align)
    decreases size
  {
    if size >= align {
      SpanOfFullChunks(size - align, align);
    }
  }

  /** State of a column loop `for (col = ...; col < end; col += align)`
      that stops exactly at `end`: `done` of the row's `total` chunks have
      been taken, and the rest reach from `col` exactly to `end`. */
  predicate Cursor(col: nat, done: nat, end: nat, total: nat, align: nat)
  {
    done <= total && col + Span(total - done, align) == end
  }

  /** `n` chunks of `align` columns span `n * align` columns. */
  lemma {:induction false} SpanIsProduct(n: nat, align: nat)
    ensures Span(n, align) == n * align
  {
    if n > 0 {
      SpanIsProduct(n - 1, align);
    }
  }

  /** The aligned width is the largest multiple of `align` not above
      `size`: it is the number of whole chunks times `align`. */
  lemma {:induction false} AlignLoIsProduct(size: nat, align: nat)
    requires align >= 1
    ensures AlignLo(size, align) == FullChunks(size, align) * align
    ensures size - AlignLo(size, align) < align
  {
    SpanOfFullChunks(size, align);
    SpanIsProduct(FullChunks(size, align), align);
  }

  /** A row's column loop starts at column 0 with every whole chunk ahead. */
  lemma CursorStart(size: nat, align: nat)
    requires align >= 1
    ensures Cursor(0, 0, AlignLo(size, align), FullChunks(size, align), align)
  {
    SpanOfFullChunks(size, align);
  }

  /** A column loop whose first chunk was taken separately (the gradient's
      nose) resumes at column `align` with one chunk done. */
  lemma CursorAfterFirst(size: nat, align: nat)
    requires 1 <= align <= size
    ensures Cursor(align, 1, AlignLo(size, align), FullChunks(size, align), align)
  {
    CursorStart(size, align);
    CursorStep(0, 0, AlignLo(size, align), FullChunks(size, align), align);
  }

  /** One iteration of the column loop: the chunk at `col` lies within
      `end`, and advancing by one chunk keeps the cursor. */
  lemma CursorStep(col: nat, done: nat, end: nat, total: nat, align: nat)
    requires align >= 1 && Cursor(col, done, end, total, align) && col < end
    ensures col + align <= end && done < total
    ensures Cursor(col + align, done + 1, end, total, align)
  {
    assert total - done != 0;
    assert Span(total - done, align) == Span(total - (done + 1), align) + align;
  }

  /** When the loop stops, it has taken every chunk. */
  lemma CursorEnd(col: nat, done: nat, end: nat, total: nat, align: nat)
    requires align >= 1 && Cursor(col, done, end, total, align) && col >= end
    ensures col == end && done == total
  {
  }
}
