/**
  The arithmetic guard: every counter of the engine is a `usize` and is only
  ever advanced through a checked addition that reports overflow instead of
  wrapping around.
 */
module Helper {
  import opened Common

  /** The largest `usize` on a 64-bit target (`!0usize`). */
  const USIZE_MAX: nat := 0xFFFF_FFFF_FFFF_FFFF

  type Usize = n: nat | n <= USIZE_MAX

  /** Checked addition: `None` exactly when the sum does not fit in a `usize`. */
  function SafeAdd(n: Usize, m: Usize): (r: Option<Usize>)
    ensures r.Some? <==> n + m <= USIZE_MAX
    ensures r.Some? ==> r.value == n + m && r.value >= n
  {
    if n + m <= USIZE_MAX then Some(n + m) else None
  }

  /** The unit test of the guard: 10 + 20 is 30, and the largest value plus one overflows. */
  lemma SafeAddExamples()
    ensures SafeAdd(10, 20) == Some(30)
    ensures SafeAdd(USIZE_MAX, 1) == None
  {
  }
}
