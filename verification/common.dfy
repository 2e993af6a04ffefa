/** What every module of the model shares: failure-carrying wrappers and
    a few facts about products.
    `Err` stands for a fatal assertion of the source (OV_CPU_JIT_EMITTER_ASSERT,
    CPU_NODE_ASSERT): the call never produces a value. */
module Common {

  datatype Option<+T> = None | Some(value: T)

  datatype Result<+T> = Ok(value: T) | Err(message: string)

  /** A check that either passes or reports why it failed. */
  datatype Outcome<+E> = Pass | Fail(error: E)

  // Products with a non-negative factor, for the offset and bin arithmetic.

  /** Multiplying by a non-negative factor keeps the order. */
  lemma MulMonotone(a: int, b: int, c: nat)
    requires a <= b
    ensures a * c <= b * c
  {
  }

  /** Cancelling a positive factor from a strict product inequality. */
  lemma MulLtCancel(a: int, b: int, c: nat)
    requires c > 0 && a * c < b * c
    ensures a < b
  {
    if a >= b {
      MulMonotone(b, a, c);
    }
  }

  /** Cancelling a positive factor from a product inequality. */
  lemma MulLeCancel(a: int, b: int, c: nat)
    requires c > 0 && a * c <= b * c
    ensures a <= b
  {
    if a > b {
      MulMonotone(b + 1, a, c);
    }
  }
}
