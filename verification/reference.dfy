/** The scalar meaning of the four conditional statistics: naive double sums
    over the width x height rectangle, one pixel at a time. Each statistic is
    a sum over rows of the sum of a per-column term sequence. */
module Reference {
  import opened Comparison
  import opened Lanes
  import opened Planes

  /** Count terms of row `r`: 1 where the byte satisfies the comparison. */
  function CountTerms(kind: CompareType, p: Plane, value: uint8, r: nat): (t: seq<int>)
    requires p.Valid() && r < p.height
    ensures |t| == p.width
  {
    seq(p.width, c requires 0 <= c < p.width => if Holds(kind, p.At(r, c), value) then 1 else 0)
  }

  /** Number of satisfying pixels in the first `n` rows. */
  function CountRows(kind: CompareType, p: Plane, value: uint8, n: nat): (total: int)
    requires p.Valid() && n <= p.height
  {
    if n == 0 then 0 else CountRows(kind, p, value, n - 1) + Sum(CountTerms(kind, p, value, n - 1))
  }

  /** Number of (r, c), r < height, c < width, whose byte satisfies `kind`
      against `value`. */
  function CountSpec(kind: CompareType, p: Plane, value: uint8): (total: int)
    requires p.Valid()
  {
    CountRows(kind, p, value, p.height)
  }

  /** Sum terms of row `r`: the source byte where the mask byte qualifies. */
  function SumTerms(kind: CompareType, src: Plane, mask: Plane, value: uint8, r: nat): (t: seq<int>)
    requires src.Valid() && mask.Valid() && SameShape(src, mask) && r < src.height
    ensures |t| == src.width
  {
    seq(src.width, c requires 0 <= c < src.width =>
      if Holds(kind, mask.At(r, c), value) then src.At(r, c) as int else 0)
  }

  function SumRows(kind: CompareType, src: Plane, mask: Plane, value: uint8, n: nat): (total: int)
    requires src.Valid() && mask.Valid() && SameShape(src, mask) && n <= src.height
  {
    if n == 0 then 0 else SumRows(kind, src, mask, value, n - 1) + Sum(SumTerms(kind, src, mask, value, n - 1))
  }

  /** Sum of src[r][c] over the pixels whose mask[r][c] qualifies. */
  function SumSpec(kind: CompareType, src: Plane, mask: Plane, value: uint8): (total: int)
    requires src.Valid() && mask.Valid() && SameShape(src, mask)
  {
    SumRows(kind, src, mask, value, src.height)
  }

  /** Square-sum terms of row `r`: the squared source byte where the mask
      byte qualifies. */
  function SquareTerms(kind: CompareType, src: Plane, mask: Plane, value: uint8, r: nat): (t: seq<int>)
    requires src.Valid() && mask.Valid() && SameShape(src, mask) && r < src.height
    ensures |t| == src.width
  {
    seq(src.width, c requires 0 <= c < src.width =>
      if Holds(kind, mask.At(r, c), value) then (src.At(r, c) as int) * src.At(r, c) else 0)
  }

  function SquareRows(kind: CompareType, src: Plane, mask: Plane, value: uint8, n: nat): (total: int)
    requires src.Valid() && mask.Valid() && SameShape(src, mask) && n <= src.height
  {
    if n == 0 then 0 else SquareRows(kind, src, mask, value, n - 1) + Sum(SquareTerms(kind, src, mask, value, n - 1))
  }

  /** Sum of src[r][c]^2 over the pixels whose mask[r][c] qualifies. */
  function SquareSumSpec(kind: CompareType, src: Plane, mask: Plane, value: uint8): (total: int)
    requires src.Valid() && mask.Valid() && SameShape(src, mask)
  {
    SquareRows(kind, src, mask, value, src.height)
  }

  function Sq(x: int): (square: int)
  {
    x * x
  }

  /** Squared central-difference gradient at interior pixel (r, c):
      horizontal neighbours and vertical neighbours. */
  function Gradient(src: Plane, r: nat, c: nat): (g: int)
    requires src.Valid() && 1 <= r && r + 1 < src.height && 1 <= c && c + 1 < src.width
  {
    Sq(src.At(r, c - 1) as int - src.At(r, c + 1)) + Sq(src.At(r - 1, c) as int - src.At(r + 1, c))
  }

  /** Gradient terms of interior row `r`, indexed by column: the gradient at
      interior columns whose mask qualifies, zero at the two border columns. */
  function GradientTerms(kind: CompareType, src: Plane, mask: Plane, value: uint8, r: nat): (t: seq<int>)
    requires src.Valid() && mask.Valid() && SameShape(src, mask)
    requires 1 <= r && r + 1 < src.height
    ensures |t| == src.width
  {
    seq(src.width, c requires 0 <= c < src.width =>
      if 1 <= c && c + 1 < src.width && Holds(kind, mask.At(r, c), value) then Gradient(src, r, c) else 0)
  }

  /** Gradient total of interior rows 1 .. n. */
  function GradientRows(kind: CompareType, src: Plane, mask: Plane, value: uint8, n: nat): (total: int)
    requires src.Valid() && mask.Valid() && SameShape(src, mask) && n + 2 <= src.height
  {
    if n == 0 then 0 else GradientRows(kind, src, mask, value, n - 1) + Sum(GradientTerms(kind, src, mask, value, n))
  }

  /** Sum over interior pixels (1 <= r <= height - 2, 1 <= c <= width - 2)
      whose mask qualifies of the squared horizontal and vertical central
      differences. */
  function GradientSpec(kind: CompareType, src: Plane, mask: Plane, value: uint8): (total: int)
    requires src.Valid() && mask.Valid() && SameShape(src, mask) && src.height >= 2
  {
    GradientRows(kind, src, mask, value, src.height - 2)
  }
}
