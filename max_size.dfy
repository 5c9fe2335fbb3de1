/**
 * The cache's capacity, `maxSize`. The constructor receives a JavaScript
 * number (or nothing) and clamps it: a missing value, zero, a negative number
 * and negative infinity all become 1, while any integer of at least 1 and
 * positive infinity are kept. Positive infinity is a capacity that no entry
 * count ever exceeds.
 */
module MaxSize {

  /** What the constructor may be given: an integer, an infinity, or `null`/`undefined`. */
  datatype MaxSizeArg = Number(value: int) | PositiveInfinity | NegativeInfinity | Missing

  /** An effective capacity: at most `limit` entries, or no limit at all. */
  datatype Capacity = AtMost(limit: int) | Unbounded {

    /** The comparison `size > maxSize` the cache makes after inserting a key. */
    predicate Exceeds(count: int) {
      match this
      case AtMost(n) => count > n
      case Unbounded => false
    }

    /** A capacity the constructor can produce: never 0 and never negative. */
    predicate Usable() {
      AtMost? ==> limit >= 1
    }
  }

  /** True when the constructor keeps the argument as it is. */
  predicate KeptAsGiven(arg: MaxSizeArg) {
    arg == PositiveInfinity || (arg.Number? && arg.value >= 1)
  }

  /** The constructor's test `!maxSize || maxSize < 1` and the clamp to 1. */
  function Clamp(arg: MaxSizeArg): (c: Capacity)
    ensures c.Usable()
    ensures arg == PositiveInfinity ==> c == Unbounded
    ensures arg.Number? && arg.value >= 1 ==> c == AtMost(arg.value)
    ensures !KeptAsGiven(arg) ==> c == AtMost(1)
  {
    match arg
    case Number(n) => if n == 0 || n < 1 then AtMost(1) else AtMost(n)
    case PositiveInfinity => Unbounded
    case NegativeInfinity => AtMost(1)
    case Missing => AtMost(1)
  }

  /** The number a capacity stands for, as a constructor argument. */
  function AsArg(c: Capacity): MaxSizeArg {
    match c
    case AtMost(n) => Number(n)
    case Unbounded => PositiveInfinity
  }

  /**
   * Every capacity the constructor produces passes through a second
   * construction unchanged, and every capacity that does so is usable.
   */
  lemma ClampFixesUsable(c: Capacity)
    ensures Clamp(AsArg(c)) == c <==> c.Usable()
  {
  }

  /**
   * A count the capacity admits exceeds it after one more entry exactly when
   * it had reached the limit: so inserting one key into a full cache is the
   * one case that needs an eviction. It exists to connect the eviction test
   * in the body of `FixedCapacityCache.Set` with the `Full()` case of its
   * contract.
   */
  lemma ExceedsAfterOneMore(c: Capacity, count: int)
    requires !c.Exceeds(count)
    ensures c.Exceeds(count + 1) <==> c == AtMost(count)
  {
  }
}
