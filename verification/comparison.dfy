/** The closed set of comparison kinds a conditional kernel applies between a
    mask byte and the threshold byte, and the predicate each one stands for. */
module Comparison {

  /** The six comparison kinds of the library's compare-type enumeration. */
  datatype CompareType = Equal | NotEqual | Greater | GreaterOrEqual | Lesser | LesserOrEqual

  /** Whether mask byte `x` satisfies comparison `kind` against threshold `value`
      (unsigned byte comparison: `x` on the left, `value` on the right).
      Read by the ordering of the two bytes: equal bytes satisfy exactly the
      kinds that admit equality, and unequal bytes exactly the kinds that
      admit their direction. */
  function Holds(kind: CompareType, x: int, value: int): (b: bool)
    ensures x == value ==> (b <==> kind == Equal || kind == GreaterOrEqual || kind == LesserOrEqual)
    ensures x > value ==> (b <==> kind == NotEqual || kind == Greater || kind == GreaterOrEqual)
    ensures x < value ==> (b <==> kind == NotEqual || kind == Lesser || kind == LesserOrEqual)
  {
    if kind.Equal? then x == value
    else if kind.NotEqual? then x != value
    else if kind.Greater? then x > value
    else if kind.GreaterOrEqual? then x >= value
    else if kind.Lesser? then x < value
    else x <= value
  }

  /** The kind whose predicate is the negation of `kind`'s. */
  function Negate(kind: CompareType): (n: CompareType)
    ensures forall x: int, value: int {:trigger Holds(n, x, value)} :: Holds(n, x, value) <==> !Holds(kind, x, value)
  {
    match kind
    case Equal => NotEqual
    case NotEqual => Equal
    case Greater => LesserOrEqual
    case GreaterOrEqual => Lesser
    case Lesser => GreaterOrEqual
    case LesserOrEqual => Greater
  }
}
