/** Lane-wise model of the vector primitives the conditional kernels rely on.
    A byte register is a sequence of A byte lanes (A = 32 on AVX2); a 32-bit
    accumulator register is a sequence of (A + 3) / 4 lanes, each holding
    the widened total of four consecutive byte lanes. The hardware's unpack
    order gathers other bytes into each lane; the register's total and each
    lane's bound agree with it, and those are all the kernels' proofs use
    while no lane wraps. A wrapped lane's value is not modelled faithfully. */
module Lanes {
  import opened Comparison

  type uint8 = x: int | 0 <= x < 256

  /** 2^32: the modulus of a 32-bit lane. */
  const Modulus32: int := 0x1_0000_0000

  /** Largest value one 32-bit lane receives from one widening square:
      four squared bytes. */
  const QuadSquareMax: int := 4 * 255 * 255

  /** Sum of all elements. */
  function Sum(s: seq<int>): (n: int)
  {
    if |s| == 0 then 0 else Sum(s[..|s| - 1]) + s[|s| - 1]
  }

  lemma {:induction false} SumConcat(s: seq<int>, u: seq<int>)
    ensures Sum(s + u) == Sum(s) + Sum(u)
    decreases |u|
  {
    if |u| == 0 {
      assert s + u == s;
    } else {
      assert (s + u)[..|s + u| - 1] == s + u[..|u| - 1];
      SumConcat(s, u[..|u| - 1]);
    }
  }

  /** A sequence of `n` zeros. */
  function Zeros(n: nat): (z: seq<int>)
    ensures |z| == n && Sum(z) == 0
    ensures forall k :: 0 <= k < n ==> z[k] == 0
  {
    if n == 0 then [] else Zeros(n - 1) + [0]
  }

  /** Running total of the first `c` entries of `t`, column by column. The
      kernels track their partial row totals with it. */
  function Prefix(t: seq<int>, c: nat): (r: int)
    requires c <= |t|
  {
    if c == 0 then 0 else Prefix(t, c - 1) + t[c - 1]
  }

  /** The running total agrees with the sum of the prefix. */
  lemma {:induction false} PrefixIsSum(t: seq<int>, c: nat)
    requires c <= |t|
    ensures Prefix(t, c) == Sum(t[..c])
  {
    if c > 0 {
      PrefixIsSum(t, c - 1);
      assert t[..c] == t[..c - 1] + [t[c - 1]];
      SumConcat(t[..c - 1], [t[c - 1]]);
    }
  }

  /** Over the whole sequence, the running total is its sum. */
  lemma PrefixWhole(t: seq<int>)
    ensures Prefix(t, |t|) == Sum(t)
  {
    PrefixIsSum(t, |t|);
    assert t[..|t|] == t;
  }

  /** The sum of a prefix ending at `i` plus the segment [i, j) is the sum of
      the prefix ending at `j`. */
  lemma SumSplit(t: seq<int>, i: nat, j: nat)
    requires i <= j <= |t|
    ensures Sum(t[..i]) + Sum(t[i..j]) == Sum(t[..j])
  {
    assert t[..j] == t[..i] + t[i..j];
    SumConcat(t[..i], t[i..j]);
  }

  /** A vector whose lanes [lo, hi) are lanes [off + lo, off + hi) of `t` and
      whose other lanes are zero sums to exactly that segment of `t`. This is
      the arithmetic content of every masked, possibly overlapping chunk. */
  lemma SumWindow(v: seq<int>, t: seq<int>, off: int, lo: nat, hi: nat)
    requires lo <= hi <= |v|
    requires 0 <= off + lo && off + hi <= |t|
    requires forall k :: 0 <= k < |v| ==> v[k] == (if lo <= k < hi then t[off + k] else 0)
    ensures Sum(v) == Sum(t[off + lo .. off + hi])
  {
    var mid := t[off + lo .. off + hi];
    assert v == Zeros(lo) + mid + Zeros(|v| - hi);
    SumConcat(Zeros(lo) + mid, Zeros(|v| - hi));
    SumConcat(Zeros(lo), mid);
  }

  /** `SumWindow` in running-total form: a vector holding the window
      [off + lo, off + hi) of `t` advances the running total from
      `from = off + lo` to `to = off + hi`. */
  lemma PrefixWindow(v: seq<int>, t: seq<int>, off: int, lo: nat, hi: nat, from: nat, to: nat)
    requires lo <= hi <= |v|
    requires 0 <= off + lo && off + hi <= |t|
    requires from == off + lo && to == off + hi
    requires forall k :: 0 <= k < |v| ==> v[k] == (if lo <= k < hi then t[off + k] else 0)
    ensures Prefix(t, from) + Sum(v) == Prefix(t, to)
  {
    SumWindow(v, t, off, lo, hi);
    PrefixIsSum(t, from);
    PrefixIsSum(t, to);
    SumSplit(t, from, to);
  }

  /** Sum distributes over lane-wise addition. */
  lemma {:induction false} SumLanewise(x: seq<int>, y: seq<int>, z: seq<int>)
    requires |x| == |y| == |z|
    requires forall k :: 0 <= k < |z| ==> z[k] == x[k] + y[k]
    ensures Sum(z) == Sum(x) + Sum(y)
    decreases |z|
  {
    if |z| > 0 {
      var n := |z| - 1;
      SumLanewise(x[..n], y[..n], z[..n]);
    }
  }

  /** A sequence of ones sums to its length. */
  lemma {:induction false} SumOfOnes(s: seq<int>)
    requires forall k :: 0 <= k < |s| ==> s[k] == 1
    ensures Sum(s) == |s|
    decreases |s|
  {
    if |s| > 0 {
      SumOfOnes(s[..|s| - 1]);
    }
  }

  /** Sums are monotone in every element. */
  lemma {:induction false} SumMonotone(s: seq<int>, u: seq<int>)
    requires |s| == |u|
    requires forall k :: 0 <= k < |s| ==> s[k] <= u[k]
    ensures Sum(s) <= Sum(u)
    decreases |s|
  {
    if |s| > 0 {
      SumMonotone(s[..|s| - 1], u[..|u| - 1]);
    }
  }

  /** A sum of `|s|` values each in [0, m] lies in [0, |s| * m]. */
  lemma {:induction false} SumBound(s: seq<int>, m: int)
    requires forall k :: 0 <= k < |s| ==> 0 <= s[k] <= m
    ensures 0 <= Sum(s) <= |s| * m
    decreases |s|
  {
    if |s| > 0 {
      SumBound(s[..|s| - 1], m);
    }
  }

  /** `_mm256_set1_epi8`: every lane holds `x`. */
  function Broadcast(x: uint8, a: nat): (v: seq<uint8>)
    ensures |v| == a
    ensures forall k :: 0 <= k < a ==> v[k] == x
  {
    seq(a, _ => x)
  }

  /** `_mm256_load_si256` / `_mm256_loadu_si256` on a flat buffer: `a` bytes
      starting at `offset`. Aligned and unaligned loads read the same bytes. */
  function Load(data: seq<uint8>, offset: int, a: nat): (v: seq<uint8>)
    requires 0 <= offset && offset + a <= |data|
    ensures |v| == a
    ensures forall k :: 0 <= k < a ==> v[k] == data[offset + k]
  {
    data[offset .. offset + a]
  }

  /** Bitwise AND of two bytes. */
  function AndByte(x: uint8, y: uint8): (r: uint8)
  {
    ((x as bv8) & (y as bv8)) as int
  }

  lemma AndByteFacts()
    ensures forall y: uint8 {:trigger AndByte(0xFF, y)} :: AndByte(0xFF, y) == y
    ensures forall y: uint8 {:trigger AndByte(y, 0xFF)} :: AndByte(y, 0xFF) == y
    ensures forall y: uint8 {:trigger AndByte(0, y)} :: AndByte(0, y) == 0
    ensures forall y: uint8 {:trigger AndByte(y, 0)} :: AndByte(y, 0) == 0
  {
    forall y: uint8 ensures AndByte(0xFF, y) == y {
      assert (0xFF as bv8) & (y as bv8) == y as bv8;
    }
    forall y: uint8 ensures AndByte(y, 0xFF) == y {
      assert (y as bv8) & (0xFF as bv8) == y as bv8;
    }
  }

  /** `_mm256_and_si256` on byte lanes: an all-ones lane passes the other
      operand through, a zero lane clears it. */
  function And(x: seq<uint8>, y: seq<uint8>): (r: seq<uint8>)
    requires |x| == |y|
    ensures |r| == |x|
    ensures forall k :: 0 <= k < |r| && (x[k] == 0 || y[k] == 0) ==> r[k] == 0
    ensures forall k :: 0 <= k < |r| && x[k] == 0xFF ==> r[k] == y[k]
    ensures forall k :: 0 <= k < |r| && y[k] == 0xFF ==> r[k] == x[k]
  {
    AndByteFacts();
    seq(|x|, k requires 0 <= k < |x| => AndByte(x[k], y[k]))
  }

  /** `SetMask(first, position, second)`: lanes below `position` hold
      `first`, the remaining lanes hold `second`. */
  function SetMask(first: uint8, position: nat, second: uint8, a: nat): (v: seq<uint8>)
    ensures |v| == a
    ensures forall k :: 0 <= k < a && k < position ==> v[k] == first
    ensures forall k :: position <= k < a ==> v[k] == second
  {
    seq(a, k => if k < position then first else second)
  }

  /** `Compare<kind>(v, value)`: an all-ones lane where the lane of `v`
      satisfies `kind` against the lane of `value`, a zero lane elsewhere. */
  function Compare(kind: CompareType, v: seq<uint8>, value: seq<uint8>): (m: seq<uint8>)
    requires |v| == |value|
    ensures |m| == |v|
    ensures forall k :: 0 <= k < |m| ==> (m[k] == 0xFF <==> Holds(kind, v[k], value[k]))
    ensures forall k :: 0 <= k < |m| ==> m[k] == 0 || m[k] == 0xFF
  {
    seq(|v|, k requires 0 <= k < |v| => if Holds(kind, v[k], value[k]) then 0xFF else 0)
  }

  /** `_mm256_sad_epu8(x, y)` followed by adding its 64-bit lanes: the total
      of the absolute lane differences. */
  function Sad(x: seq<uint8>, y: seq<uint8>): (r: int)
    requires |x| == |y|
    ensures 0 <= r <= 255 * |x|
    ensures x == y ==> r == 0
  {
    var d := AbsoluteDifferences(x, y);
    SumBound(d, 255);
    assert x == y ==> d == Zeros(|x|);
    Sum(d)
  }

  function AbsoluteDifferences(x: seq<uint8>, y: seq<uint8>): (d: seq<int>)
    requires |x| == |y|
    ensures |d| == |x|
    ensures forall k :: 0 <= k < |d| ==> 0 <= d[k] <= 255
  {
    seq(|x|, k requires 0 <= k < |x| => if x[k] >= y[k] then x[k] - y[k] else y[k] - x[k])
  }

  /** Against a zero vector, SAD is the sum of the bytes of `x`: the
      reduction the kernels use to add up byte lanes without overflow. */
  lemma SadAgainstZero(x: seq<uint8>, y: seq<uint8>)
    requires |x| == |y|
    requires forall k :: 0 <= k < |y| ==> y[k] == 0
    ensures Sad(x, y) == Sum(x)
  {
    assert AbsoluteDifferences(x, y) == x;
  }

  /** Widening of consecutive groups of four lanes into one wider lane. */
  function Quads(s: seq<int>): (q: seq<int>)
    ensures |q| == (|s| + 3) / 4
    decreases |s|
  {
    if |s| == 0 then []
    else if |s| <= 4 then [Sum(s)]
    else [Sum(s[..4])] + Quads(s[4..])
  }

  /** Widening loses nothing: the wide lanes total the narrow ones. */
  lemma {:induction false} QuadsSum(s: seq<int>)
    ensures Sum(Quads(s)) == Sum(s)
    decreases |s|
  {
    if |s| == 0 {
    } else if |s| <= 4 {
      assert Quads(s) == [] + [Sum(s)];
    } else {
      QuadsSum(s[4..]);
      assert s == s[..4] + s[4..];
      SumConcat(s[..4], s[4..]);
      SumConcat([Sum(s[..4])], Quads(s[4..]));
    }
  }

  /** Every widened lane gathers at most four inputs, so it is bounded by
      four times the input bound. */
  lemma {:induction false} QuadsBound(s: seq<int>, m: int)
    requires forall k :: 0 <= k < |s| ==> 0 <= s[k] <= m
    ensures forall j :: 0 <= j < |Quads(s)| ==> 0 <= Quads(s)[j] <= 4 * m
    decreases |s|
  {
    if |s| == 0 {
    } else if |s| <= 4 {
      SumBound(s, m);
    } else {
      SumBound(s[..4], m);
      QuadsBound(s[4..], m);
    }
  }

  /** Lane-wise squares of bytes, as plain integers. */
  function Squares(v: seq<uint8>): (sq: seq<int>)
    ensures |sq| == |v|
  {
    seq(|v|, k requires 0 <= k < |v| => (v[k] as int) * v[k])
  }

  /** A squared byte fits in 16 unsigned bits. */
  lemma SquaresBound(v: seq<uint8>)
    ensures forall k :: 0 <= k < |v| ==> 0 <= Squares(v)[k] <= 255 * 255
  {
    forall k | 0 <= k < |v|
      ensures 0 <= Squares(v)[k] <= 255 * 255
    {
      SquaredByteDifferenceBound(v[k], 0);
    }
  }

  /** `Square`: bytes are widened to 16 bits, squared and pair-added by
      `_mm256_madd_epi16`, and the low and high halves added into 32-bit
      lanes. Every resulting lane holds at most four squared bytes. */
  function Square(v: seq<uint8>): (w: seq<int>)
    ensures |w| == (|v| + 3) / 4
    ensures forall j :: 0 <= j < |w| ==> 0 <= w[j] <= QuadSquareMax
    ensures Sum(w) == Sum(Squares(v))
  {
    SquaresBound(v);
    QuadsBound(Squares(v), 255 * 255);
    QuadsSum(Squares(v));
    Quads(Squares(v))
  }

  /** Every lane of `mask` is either all zeros or all ones. */
  predicate WholeLanes(mask: seq<uint8>)
  {
    forall k :: 0 <= k < |mask| ==> mask[k] == 0 || mask[k] == 0xFF
  }

  /** Lane-wise squared difference of `x` and `y` where `mask` is all ones,
      zero where it is clear. */
  function MaskedSquaredDifferences(x: seq<uint8>, y: seq<uint8>, mask: seq<uint8>): (d: seq<int>)
    requires |x| == |y| == |mask|
    ensures |d| == |x|
  {
    seq(|x|, k requires 0 <= k < |x| =>
      if mask[k] == 0xFF then (x[k] as int - y[k]) * (x[k] as int - y[k]) else 0)
  }

  /** The lane-wise squared differences `SquaredDifference` widens: both
      operands ANDed with `mask` first. */
  function AndedSquaredDifferences(x: seq<uint8>, y: seq<uint8>, mask: seq<uint8>): (d: seq<int>)
    requires |x| == |y| == |mask|
    ensures |d| == |x|
  {
    var a := And(x, mask);
    var b := And(y, mask);
    seq(|x|, k requires 0 <= k < |x| => (a[k] as int - b[k]) * (a[k] as int - b[k]))
  }

  lemma AndedSquaredDifferencesLanes(x: seq<uint8>, y: seq<uint8>, mask: seq<uint8>)
    requires |x| == |y| == |mask|
    ensures LanesWithin(AndedSquaredDifferences(x, y, mask), 255 * 255)
    ensures WholeLanes(mask) ==> AndedSquaredDifferences(x, y, mask) == MaskedSquaredDifferences(x, y, mask)
  {
    var a := And(x, mask);
    var b := And(y, mask);
    var d := AndedSquaredDifferences(x, y, mask);
    forall k | 0 <= k < |x| ensures 0 <= d[k] <= 255 * 255 {
      SquaredByteDifferenceBound(a[k], b[k]);
    }
    if WholeLanes(mask) {
      var e := MaskedSquaredDifferences(x, y, mask);
      forall k | 0 <= k < |x| ensures d[k] == e[k] {
        if mask[k] == 0xFF {
          assert a[k] == x[k] && b[k] == y[k];
        } else {
          assert a[k] == 0 && b[k] == 0;
        }
      }
      assert d == e;
    }
  }

  /** `SquaredDifference`: the two loads `x` (at `src - step`) and `y` (at
      `src + step`) are both ANDed with `mask`, widened, subtracted in 16-bit
      lanes (the difference of two bytes always fits) and squared into
      32-bit lanes. For a mask of whole lanes, a lane the mask clears adds
      nothing because both operands are cleared before the subtraction. */
  function SquaredDifference(x: seq<uint8>, y: seq<uint8>, mask: seq<uint8>): (w: seq<int>)
    requires |x| == |y| == |mask|
    ensures |w| == (|x| + 3) / 4
    ensures forall j :: 0 <= j < |w| ==> 0 <= w[j] <= QuadSquareMax
    ensures WholeLanes(mask) ==> Sum(w) == Sum(MaskedSquaredDifferences(x, y, mask))
  {
    var d := AndedSquaredDifferences(x, y, mask);
    AndedSquaredDifferencesLanes(x, y, mask);
    QuadsBound(d, 255 * 255);
    QuadsSum(d);
    Quads(d)
  }

  /** The square of the difference of two bytes fits in 16 unsigned bits. */
  lemma SquaredByteDifferenceBound(p: uint8, q: uint8)
    ensures 0 <= (p as int - q) * (p as int - q) <= 255 * 255
  {
    var e := p as int - q;
    if e >= 0 {
      assert e * e <= 255 * e;
    } else {
      assert e * e <= -255 * e;
    }
  }

  /** `_mm256_add_epi32`: lane-wise addition modulo 2^32. */
  function Add32(x: seq<int>, y: seq<int>): (r: seq<int>)
    requires |x| == |y|
    ensures |r| == |x|
    ensures forall k :: 0 <= k < |r| ==> 0 <= r[k] < Modulus32
    ensures forall k :: 0 <= k < |r| && 0 <= x[k] && 0 <= y[k] && x[k] + y[k] < Modulus32 ==> r[k] == x[k] + y[k]
  {
    seq(|x|, k requires 0 <= k < |x| => (x[k] + y[k]) % Modulus32)
  }

  /** Every lane of `v` lies in [0, bound]. */
  predicate LanesWithin(v: seq<int>, bound: int)
  {
    forall k :: 0 <= k < |v| ==> 0 <= v[k] <= bound
  }

  /** Adding a vector whose lanes are at most `step` to an accumulator whose
      lanes are at most `bound` neither wraps nor loses anything as long as
      `bound + step` fits in 32 bits. */
  lemma AccumulateLanes(acc: seq<int>, v: seq<int>, bound: int, step: int)
    requires |acc| == |v|
    requires LanesWithin(acc, bound) && LanesWithin(v, step)
    requires bound + step < Modulus32
    ensures LanesWithin(Add32(acc, v), bound + step)
    ensures Sum(Add32(acc, v)) == Sum(acc) + Sum(v)
  {
    SumLanewise(acc, v, Add32(acc, v));
  }

  /** The largest number of additions of at most `QuadSquareMax` that a
      32-bit lane can take without wrapping. */
  const MaxRowAdds: nat := 16512

  lemma MaxRowAddsFits(adds: nat)
    requires adds <= MaxRowAdds
    ensures QuadSquareMax * adds < Modulus32
    ensures QuadSquareMax * (MaxRowAdds + 1) >= Modulus32
  {
  }

  /** State of a 32-bit row accumulator that has taken `adds` widened
      vectors: its lanes are 32-bit values, and when `exact` holds none of
      them has wrapped, each is at most `adds` times `QuadSquareMax`, and
      they total `partial`. */
  predicate RowLanes(rowSum: seq<int>, adds: nat, exact: bool, partial: int)
  {
    LanesWithin(rowSum, Modulus32 - 1)
    && (exact ==> LanesWithin(rowSum, 260100 * adds) && Sum(rowSum) == partial)
  }

  /** `_mm256_add_epi32(rowSum, w)` inside a row loop, where `w` is one
      widened vector of at most `QuadSquareMax` per lane. Every lane of the
      result is a 32-bit value; as long as the lanes have room for one more
      addition, nothing wraps and the total grows by exactly `Sum(w)`. */
  method AccumulateRow(rowSum: seq<int>, w: seq<int>, ghost adds: nat, ghost exact: bool, ghost partial: int)
    returns (r: seq<int>)
    requires |rowSum| == |w| && LanesWithin(w, QuadSquareMax)
    requires RowLanes(rowSum, adds, exact, partial)
    requires exact ==> adds < MaxRowAdds
    ensures |r| == |rowSum|
    ensures RowLanes(r, adds + 1, exact, partial + Sum(w))
  {
    r := Add32(rowSum, w);
    if exact {
      MaxRowAddsFits(adds + 1);
      AccumulateLanes(rowSum, w, 260100 * adds, QuadSquareMax);
    }
  }

  /** `HorizontalSum32` folded into a 64-bit accumulator: the total of the
      32-bit lanes, each read as an unsigned value. */
  function HorizontalSum32(v: seq<int>): (r: int)
    requires LanesWithin(v, Modulus32 - 1)
    ensures 0 <= r <= |v| * (Modulus32 - 1)
  {
    SumBound(v, Modulus32 - 1);
    Sum(v)
  }
}
