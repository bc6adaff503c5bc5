/** Small shared types: optional values and JavaScript numbers. */
module Prelude {

  datatype Option<T> = None | Some(value: T)

  const MAX_SAFE_INTEGER: nat := 0x1F_FFFF_FFFF_FFFF

  /** A JavaScript number, up to rounding; zero has no sign here. */
  datatype Number = NotANumber | Infinite(positive: bool) | Finite(value: real)

  /** `Number.isSafeInteger`. */
  predicate SafeInteger(n: Number) {
    n.Finite? && n.value == n.value.Floor as real && -(MAX_SAFE_INTEGER as int) <= n.value.Floor <= MAX_SAFE_INTEGER
  }

  lemma {:induction false} SubsetSize<T>(a: set<T>, b: set<T>)
    requires a <= b
    ensures |a| <= |b|
  {
    if x :| x in a {
      SubsetSize(a - {x}, b - {x});
    }
  }
}
