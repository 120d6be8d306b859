/** Consequences of the scalar meaning of the four statistics. Each kernel
    computes its reference sum (exactly, or when its 32-bit row lanes cannot
    wrap), so each lemma here is also a statement about the kernel. */
module Properties {
  import opened Comparison
  import opened Lanes
  import opened Planes
  import opened Tiling
  import opened Reference

  /** Every pixel of `p` is the byte `v`. */
  predicate AllBytes(p: Plane, v: uint8)
    requires p.Valid()
  {
    forall r: nat, c: nat :: r < p.height && c < p.width ==> p.At(r, c) == v
  }

  /** Every mask byte satisfies `kind` against `value`. */
  predicate Passes(kind: CompareType, mask: Plane, value: uint8)
    requires mask.Valid()
  {
    forall r: nat, c: nat :: r < mask.height && c < mask.width ==> Holds(kind, mask.At(r, c), value)
  }

  /** `p` and `q` hold the same pixels, whatever their strides and whatever
      lies in the padding between rows. */
  predicate SamePixels(p: Plane, q: Plane)
    requires p.Valid() && q.Valid()
  {
    SameShape(p, q) && forall r: nat, c: nat :: r < p.height && c < p.width ==> p.At(r, c) == q.At(r, c)
  }

  // ---- Count: a comparison and its negation split the image ----

  lemma CountTermsComplement(kind: CompareType, p: Plane, value: uint8, r: nat)
    requires p.Valid() && r < p.height
    ensures Sum(CountTerms(kind, p, value, r)) + Sum(CountTerms(Negate(kind), p, value, r)) == p.width
  {
    var x := CountTerms(kind, p, value, r);
    var y := CountTerms(Negate(kind), p, value, r);
    var ones := seq(p.width, c requires 0 <= c < p.width => x[c] + y[c]);
    forall c | 0 <= c < p.width
      ensures ones[c] == 1
    {
      assert Holds(Negate(kind), p.At(r, c), value) <==> !Holds(kind, p.At(r, c), value);
    }
    SumLanewise(x, y, ones);
    SumOfOnes(ones);
  }

  lemma {:induction false} CountRowsComplement(kind: CompareType, p: Plane, value: uint8, n: nat)
    requires p.Valid() && n <= p.height
    ensures CountRows(kind, p, value, n) + CountRows(Negate(kind), p, value, n) == n * p.width
  {
    if n > 0 {
      CountRowsComplement(kind, p, value, n - 1);
      CountTermsComplement(kind, p, value, n - 1);
      assert n * p.width == (n - 1) * p.width + p.width;
    }
  }

  /** Every pixel is counted by exactly one of `kind` and its negation
      (Equal and NotEqual, Greater and LesserOrEqual, ...): the two counts
      add up to width * height. */
  lemma CountComplement(kind: CompareType, p: Plane, value: uint8)
    requires p.Valid()
    ensures CountSpec(kind, p, value) + CountSpec(Negate(kind), p, value) == p.width * p.height
  {
    CountRowsComplement(kind, p, value, p.height);
  }

  // ---- Sum: an all-ones source under a passing mask ----

  lemma {:induction false} SumRowsOfOnes(kind: CompareType, src: Plane, mask: Plane, value: uint8, n: nat)
    requires src.Valid() && mask.Valid() && SameShape(src, mask) && n <= src.height
    requires AllBytes(src, 1) && Passes(kind, mask, value)
    ensures SumRows(kind, src, mask, value, n) == n * src.width
  {
    if n > 0 {
      SumRowsOfOnes(kind, src, mask, value, n - 1);
      var t := SumTerms(kind, src, mask, value, n - 1);
      forall c | 0 <= c < src.width
        ensures t[c] == 1
      {
        assert src.At(n - 1, c) == 1 && Holds(kind, mask.At(n - 1, c), value);
      }
      SumOfOnes(t);
      assert n * src.width == (n - 1) * src.width + src.width;
    }
  }

  /** A source of all ones whose mask qualifies everywhere sums to the
      number of pixels, whether or not the width is a multiple of A. */
  lemma SumOfOnesImage(kind: CompareType, src: Plane, mask: Plane, value: uint8)
    requires src.Valid() && mask.Valid() && SameShape(src, mask)
    requires AllBytes(src, 1) && Passes(kind, mask, value)
    ensures SumSpec(kind, src, mask, value) == src.width * src.height
  {
    SumRowsOfOnes(kind, src, mask, value, src.height);
  }

  // ---- SquareSum: squares of bytes dominate the bytes ----

  /** A byte is at most its square. */
  lemma ByteBelowSquare(x: uint8)
    ensures x as int <= (x as int) * x
  {
    if x > 0 {
      assert (x as int) * x >= (x as int) * 1;
    }
  }

  lemma {:induction false} SquareRowsDominate(kind: CompareType, src: Plane, mask: Plane, value: uint8, n: nat)
    requires src.Valid() && mask.Valid() && SameShape(src, mask) && n <= src.height
    ensures SumRows(kind, src, mask, value, n) <= SquareRows(kind, src, mask, value, n)
  {
    if n > 0 {
      SquareRowsDominate(kind, src, mask, value, n - 1);
      var s := SumTerms(kind, src, mask, value, n - 1);
      var q := SquareTerms(kind, src, mask, value, n - 1);
      forall c | 0 <= c < src.width
        ensures s[c] <= q[c]
      {
        ByteBelowSquare(src.At(n - 1, c));
      }
      SumMonotone(s, q);
    }
  }

  /** Over the same qualifying pixels, the square sum is at least the sum. */
  lemma SquareSumDominatesSum(kind: CompareType, src: Plane, mask: Plane, value: uint8)
    requires src.Valid() && mask.Valid() && SameShape(src, mask)
    ensures SumSpec(kind, src, mask, value) <= SquareSumSpec(kind, src, mask, value)
  {
    SquareRowsDominate(kind, src, mask, value, src.height);
  }

  // ---- Gradient: a constant image is flat ----

  lemma GradientTermsOfConstant(kind: CompareType, src: Plane, mask: Plane, value: uint8, v: uint8, r: nat)
    requires src.Valid() && mask.Valid() && SameShape(src, mask) && 1 <= r && r + 1 < src.height
    requires AllBytes(src, v)
    ensures Sum(GradientTerms(kind, src, mask, value, r)) == 0
  {
    var t := GradientTerms(kind, src, mask, value, r);
    var z := Zeros(src.width);
    forall c | 0 <= c < src.width
      ensures t[c] == z[c]
    {
      if 1 <= c && c + 1 < src.width && Holds(kind, mask.At(r, c), value) {
        assert src.At(r, c - 1) == v && src.At(r, c + 1) == v;
        assert src.At(r - 1, c) == v && src.At(r + 1, c) == v;
      }
    }
    SumMonotone(t, z);
    SumMonotone(z, t);
  }

  lemma {:induction false} GradientRowsOfConstant(kind: CompareType, src: Plane, mask: Plane, value: uint8, v: uint8,
                                                 n: nat)
    requires src.Valid() && mask.Valid() && SameShape(src, mask) && n + 2 <= src.height
    requires AllBytes(src, v)
    ensures GradientRows(kind, src, mask, value, n) == 0
  {
    if n > 0 {
      GradientRowsOfConstant(kind, src, mask, value, v, n - 1);
      GradientTermsOfConstant(kind, src, mask, value, v, n);
    }
  }

  /** A constant image has no gradient anywhere: whatever the mask, the
      gradient sum is zero. */
  lemma ConstantImageGradient(kind: CompareType, src: Plane, mask: Plane, value: uint8, v: uint8)
    requires src.Valid() && mask.Valid() && SameShape(src, mask) && src.height >= 2
    requires AllBytes(src, v)
    ensures GradientSpec(kind, src, mask, value) == 0
  {
    GradientRowsOfConstant(kind, src, mask, value, v, src.height - 2);
  }

  // ---- Only pixels matter: strides and row padding do not ----

  lemma {:induction false} CountRowsPixelsOnly(kind: CompareType, p: Plane, q: Plane, value: uint8, n: nat)
    requires p.Valid() && q.Valid() && SamePixels(p, q) && n <= p.height
    ensures CountRows(kind, p, value, n) == CountRows(kind, q, value, n)
  {
    if n > 0 {
      CountRowsPixelsOnly(kind, p, q, value, n - 1);
      var x := CountTerms(kind, p, value, n - 1);
      var y := CountTerms(kind, q, value, n - 1);
      forall c | 0 <= c < p.width
        ensures x[c] == y[c]
      {
        assert p.At(n - 1, c) == q.At(n - 1, c);
      }
      assert x == y;
    }
  }

  /** The count reads only the pixels: two planes with the same pixels but
      different strides or padding bytes give the same count. */
  lemma CountPixelsOnly(kind: CompareType, p: Plane, q: Plane, value: uint8)
    requires p.Valid() && q.Valid() && SamePixels(p, q)
    ensures CountSpec(kind, p, value) == CountSpec(kind, q, value)
  {
    CountRowsPixelsOnly(kind, p, q, value, p.height);
  }

  lemma SumTermsPixelsOnly(kind: CompareType, src: Plane, mask: Plane, src2: Plane, mask2: Plane, value: uint8, r: nat)
    requires src.Valid() && mask.Valid() && SameShape(src, mask) && r < src.height
    requires src2.Valid() && mask2.Valid() && SamePixels(src, src2) && SamePixels(mask, mask2)
    ensures Sum(SumTerms(kind, src, mask, value, r)) == Sum(SumTerms(kind, src2, mask2, value, r))
    ensures Sum(SquareTerms(kind, src, mask, value, r)) == Sum(SquareTerms(kind, src2, mask2, value, r))
  {
    var x := SumTerms(kind, src, mask, value, r);
    var y := SumTerms(kind, src2, mask2, value, r);
    var xs := SquareTerms(kind, src, mask, value, r);
    var ys := SquareTerms(kind, src2, mask2, value, r);
    forall c | 0 <= c < src.width
      ensures x[c] == y[c] && xs[c] == ys[c]
    {
      assert src.At(r, c) == src2.At(r, c) && mask.At(r, c) == mask2.At(r, c);
    }
    assert x == y && xs == ys;
  }

  lemma {:induction false} SumRowsPixelsOnly(kind: CompareType, src: Plane, mask: Plane, src2: Plane, mask2: Plane,
                                            value: uint8, n: nat)
    requires src.Valid() && mask.Valid() && SameShape(src, mask) && n <= src.height
    requires src2.Valid() && mask2.Valid() && SamePixels(src, src2) && SamePixels(mask, mask2)
    ensures SumRows(kind, src, mask, value, n) == SumRows(kind, src2, mask2, value, n)
  {
    if n > 0 {
      SumRowsPixelsOnly(kind, src, mask, src2, mask2, value, n - 1);
      SumTermsPixelsOnly(kind, src, mask, src2, mask2, value, n - 1);
    }
  }

  lemma {:induction false} SquareRowsPixelsOnly(kind: CompareType, src: Plane, mask: Plane, src2: Plane, mask2: Plane,
                                               value: uint8, n: nat)
    requires src.Valid() && mask.Valid() && SameShape(src, mask) && n <= src.height
    requires src2.Valid() && mask2.Valid() && SamePixels(src, src2) && SamePixels(mask, mask2)
    ensures SquareRows(kind, src, mask, value, n) == SquareRows(kind, src2, mask2, value, n)
  {
    if n > 0 {
      SquareRowsPixelsOnly(kind, src, mask, src2, mask2, value, n - 1);
      SumTermsPixelsOnly(kind, src, mask, src2, mask2, value, n - 1);
    }
  }

  /** The sum and the square sum read only the pixels of source and mask. */
  lemma SumPixelsOnly(kind: CompareType, src: Plane, mask: Plane, src2: Plane, mask2: Plane, value: uint8)
    requires src.Valid() && mask.Valid() && SameShape(src, mask)
    requires src2.Valid() && mask2.Valid() && SamePixels(src, src2) && SamePixels(mask, mask2)
    ensures SumSpec(kind, src, mask, value) == SumSpec(kind, src2, mask2, value)
    ensures SquareSumSpec(kind, src, mask, value) == SquareSumSpec(kind, src2, mask2, value)
  {
    SumRowsPixelsOnly(kind, src, mask, src2, mask2, value, src.height);
    SquareRowsPixelsOnly(kind, src, mask, src2, mask2, value, src.height);
  }

  lemma GradientTermsPixelsOnly(kind: CompareType, src: Plane, mask: Plane, src2: Plane, mask2: Plane, value: uint8,
                                r: nat)
    requires src.Valid() && mask.Valid() && SameShape(src, mask) && 1 <= r && r + 1 < src.height
    requires src2.Valid() && mask2.Valid() && SamePixels(src, src2) && SamePixels(mask, mask2)
    ensures Sum(GradientTerms(kind, src, mask, value, r)) == Sum(GradientTerms(kind, src2, mask2, value, r))
  {
    var x := GradientTerms(kind, src, mask, value, r);
    var y := GradientTerms(kind, src2, mask2, value, r);
    forall c | 0 <= c < src.width
      ensures x[c] == y[c]
    {
      if 1 <= c && c + 1 < src.width {
        assert mask.At(r, c) == mask2.At(r, c);
        assert src.At(r, c - 1) == src2.At(r, c - 1) && src.At(r, c + 1) == src2.At(r, c + 1);
        assert src.At(r - 1, c) == src2.At(r - 1, c) && src.At(r + 1, c) == src2.At(r + 1, c);
      }
    }
    assert x == y;
  }

  lemma {:induction false} GradientRowsPixelsOnly(kind: CompareType, src: Plane, mask: Plane, src2: Plane,
                                                 mask2: Plane, value: uint8, n: nat)
    requires src.Valid() && mask.Valid() && SameShape(src, mask) && n + 2 <= src.height
    requires src2.Valid() && mask2.Valid() && SamePixels(src, src2) && SamePixels(mask, mask2)
    ensures GradientRows(kind, src, mask, value, n) == GradientRows(kind, src2, mask2, value, n)
  {
    if n > 0 {
      GradientRowsPixelsOnly(kind, src, mask, src2, mask2, value, n - 1);
      GradientTermsPixelsOnly(kind, src, mask, src2, mask2, value, n);
    }
  }

  /** The gradient sum reads only the pixels of source and mask. */
  lemma GradientPixelsOnly(kind: CompareType, src: Plane, mask: Plane, src2: Plane, mask2: Plane, value: uint8)
    requires src.Valid() && mask.Valid() && SameShape(src, mask) && src.height >= 2
    requires src2.Valid() && mask2.Valid() && SamePixels(src, src2) && SamePixels(mask, mask2)
    ensures GradientSpec(kind, src, mask, value) == GradientSpec(kind, src2, mask2, value)
  {
    GradientRowsPixelsOnly(kind, src, mask, src2, mask2, value, src.height - 2);
  }

  // ---- When the 32-bit row lanes are exact ----

  /** The exactness condition of the square-sum kernel, `ChunkCount <=
      MaxRowAdds`, holds whenever the per-row lane bound 4 * 255^2 * (full
      chunks + 1) fits in 32 bits; it is no stronger than that bound. */
  lemma ExactWhenLaneBoundFits(width: nat, a: nat)
    requires a >= 1
    ensures QuadSquareMax * (FullChunks(width, a) + 1) < Modulus32 <==> FullChunks(width, a) + 1 <= MaxRowAdds
    ensures QuadSquareMax * (FullChunks(width, a) + 1) < Modulus32 ==> ChunkCount(width, a) <= MaxRowAdds
  {
    var n := FullChunks(width, a) + 1;
    if n <= MaxRowAdds {
      MaxRowAddsFits(n);
    } else {
      MaxRowAddsFits(0);
      assert QuadSquareMax * n >= QuadSquareMax * (MaxRowAdds + 1);
    }
  }
}
