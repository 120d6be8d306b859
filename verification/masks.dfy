/** The comparison masks every kernel builds for a chunk: the A mask bytes at
    a column compared against the broadcast value, optionally ANDed with a
    constant lane window (the tail mask, or the gradient's nose mask). */
module Masks {
  import opened Comparison
  import opened Lanes
  import opened Planes

  /** The lanes of `window` are all ones exactly in [lo, hi). */
  predicate IsWindow(window: seq<uint8>, lo: nat, hi: nat)
  {
    forall k :: 0 <= k < |window| ==> window[k] == (if lo <= k < hi then 0xFF else 0)
  }

  /** `SetMask(0, skip, 0xFF)` keeps the lanes from `skip` on. */
  lemma TailWindow(skip: nat, a: nat)
    ensures IsWindow(SetMask(0, skip, 0xFF, a), skip, a)
  {
  }

  /** `SetMask(0xFF, keep, 0)` keeps the lanes below `keep`. */
  lemma NoseWindow(keep: nat, a: nat)
    ensures IsWindow(SetMask(0xFF, keep, 0, a), 0, keep)
  {
  }

  /** `Compare<kind>(Load(mask + col), value)`: an all-ones lane where the
      mask byte of column col + k satisfies `kind` against `value`. */
  method ChunkMask(kind: CompareType, a: nat, mask: Plane, maskStart: nat, row: nat, col: nat, value: uint8)
    returns (m: seq<uint8>)
    requires mask.Valid() && row < mask.height && maskStart == RowOffset(mask.stride, row)
    requires col + a <= mask.width
    ensures |m| == a
    ensures forall k :: 0 <= k < a ==> m[k] == (if Holds(kind, mask.At(row, col + k), value) then 0xFF else 0)
  {
    m := Compare(kind, RowLoad(mask, maskStart, row, col, a), Broadcast(value, a));
  }

  /** The same comparison ANDed with a lane window: all ones exactly where
      the lane lies in [lo, hi) and its mask byte satisfies the comparison. */
  method WindowedChunkMask(kind: CompareType, a: nat, mask: Plane, maskStart: nat, row: nat, col: nat, value: uint8,
                           window: seq<uint8>, lo: nat, hi: nat)
    returns (m: seq<uint8>)
    requires mask.Valid() && row < mask.height && maskStart == RowOffset(mask.stride, row)
    requires col + a <= mask.width
    requires |window| == a && IsWindow(window, lo, hi)
    ensures |m| == a
    ensures forall k :: 0 <= k < a ==>
      m[k] == (if lo <= k < hi && Holds(kind, mask.At(row, col + k), value) then 0xFF else 0)
  {
    m := And(Compare(kind, RowLoad(mask, maskStart, row, col, a), Broadcast(value, a)), window);
  }
}
