/** Comparison traits of the core library: `Ordering`, the `TotalOrd`
    instances of the primitive integers, the `Ord`/`Eq` method records with
    the free functions that delegate to them, and `min`/`max`.

    Every primitive integer instance (`u8` … `u64`, `i8` … `i64`, `int`,
    `uint`) compares the mathematical values its operands denote, so one
    definition over `int` stands for all ten. */
module Cmp {

  datatype Ordering = Less | Equal | Greater

  /** The `TotalOrd::cmp` of the integer types: `Less` when below,
      `Greater` when above, `Equal` otherwise. */
  function Compare(a: int, b: int): (r: Ordering)
    ensures r == Less <==> a < b
    ensures r == Greater <==> b < a
    ensures r == Equal <==> a == b
  {
    if a < b then Less else if a > b then Greater else Equal
  }

  function Reverse(o: Ordering): Ordering
  {
    match o
    case Less => Greater
    case Equal => Equal
    case Greater => Less
  }

  /** Swapping the operands reverses the answer. */
  lemma CompareAntisymmetric(a: int, b: int)
    ensures Compare(b, a) == Reverse(Compare(a, b))
  {
  }

  /** Two `Less` answers chain, as do two `Greater` answers. */
  lemma CompareTransitive(a: int, b: int, c: int)
    ensures Compare(a, b) == Less && Compare(b, c) == Less ==> Compare(a, c) == Less
    ensures Compare(a, b) == Greater && Compare(b, c) == Greater ==> Compare(a, c) == Greater
  {
  }

  /** The unit test of the `int` instance. */
  lemma CompareExamples()
    ensures Compare(5, 10) == Less
    ensures Compare(10, 5) == Greater
    ensures Compare(5, 5) == Equal
    ensures Compare(-5, 12) == Less
    ensures Compare(12, -5) == Greater
  {
  }

  /** The methods of an `Ord` implementation. */
  datatype OrdImpl<!T> = OrdImpl(lt: (T, T) -> bool, le: (T, T) -> bool,
                                ge: (T, T) -> bool, gt: (T, T) -> bool)

  /** The methods of an `Eq` implementation. */
  datatype EqImpl<!T> = EqImpl(eq: (T, T) -> bool, ne: (T, T) -> bool)

  /** The free functions `lt`, `le`, `ge`, `gt`, `eq`, `ne` call the
      receiver's method with the operands in order. */
  function Lt<T>(o: OrdImpl<T>, v1: T, v2: T): bool { o.lt(v1, v2) }
  function Le<T>(o: OrdImpl<T>, v1: T, v2: T): bool { o.le(v1, v2) }
  function Ge<T>(o: OrdImpl<T>, v1: T, v2: T): bool { o.ge(v1, v2) }
  function Gt<T>(o: OrdImpl<T>, v1: T, v2: T): bool { o.gt(v1, v2) }
  function EqOf<T>(e: EqImpl<T>, v1: T, v2: T): bool { e.eq(v1, v2) }
  function NeOf<T>(e: EqImpl<T>, v1: T, v2: T): bool { e.ne(v1, v2) }

  /** The integers' built-in `Ord` and `Eq`. */
  const IntOrd: OrdImpl<int> :=
    OrdImpl((a: int, b: int) => a < b, (a: int, b: int) => a <= b,
            (a: int, b: int) => a >= b, (a: int, b: int) => a > b)
  const IntEq: EqImpl<int> := EqImpl((a: int, b: int) => a == b, (a: int, b: int) => a != b)

  /** On integers the free comparison functions agree with `TotalOrd::cmp`. */
  lemma IntOrdAgreesWithCompare(a: int, b: int)
    ensures Lt(IntOrd, a, b) <==> Compare(a, b) == Less
    ensures Le(IntOrd, a, b) <==> Compare(a, b) != Greater
    ensures Ge(IntOrd, a, b) <==> Compare(a, b) != Less
    ensures Gt(IntOrd, a, b) <==> Compare(a, b) == Greater
    ensures EqOf(IntEq, a, b) <==> Compare(a, b) == Equal
    ensures NeOf(IntEq, a, b) <==> Compare(a, b) != Equal
  {
  }

  /** `min(v1, v2)`: `v1` when `v1 < v2`, else `v2` (so `v2` on a tie). */
  function Min<T>(o: OrdImpl<T>, v1: T, v2: T): (r: T)
    ensures r == v1 || r == v2
    ensures o.lt(v1, v2) ==> r == v1
    ensures !o.lt(v1, v2) ==> r == v2
  {
    if o.lt(v1, v2) then v1 else v2
  }

  /** `max(v1, v2)`: `v1` when `v1 > v2`, else `v2` (so `v2` on a tie). */
  function Max<T>(o: OrdImpl<T>, v1: T, v2: T): (r: T)
    ensures r == v1 || r == v2
    ensures o.gt(v1, v2) ==> r == v1
    ensures !o.gt(v1, v2) ==> r == v2
  {
    if o.gt(v1, v2) then v1 else v2
  }

  /** On integers `min` is the greatest lower bound of its operands and
      `max` the least upper bound; together they return both operands. */
  lemma IntMinMaxBounds(a: int, b: int)
    ensures Min(IntOrd, a, b) <= a && Min(IntOrd, a, b) <= b
    ensures Max(IntOrd, a, b) >= a && Max(IntOrd, a, b) >= b
    ensures multiset{Min(IntOrd, a, b), Max(IntOrd, a, b)} == multiset{a, b}
  {
  }

  /** A tie returns the second operand from both `min` and `max`. */
  lemma MinMaxTieTakesSecond<T>(o: OrdImpl<T>, v1: T, v2: T)
    requires !o.lt(v1, v2) && !o.gt(v1, v2)
    ensures Min(o, v1, v2) == v2 && Max(o, v1, v2) == v2
  {
  }
}
