/** The 64-bit signed range of the source's counters. */
module Int64 {
  const MAX := 0x7FFF_FFFF_FFFF_FFFF

  /** Addition that stops at MAX. */
  function AddSaturating(current: int, elapsed: int): (r: int)
    requires 0 <= current <= MAX && 0 <= elapsed <= MAX
    ensures r <= MAX
    ensures r == MAX || r == current + elapsed
    ensures current <= r <= current + elapsed
  {
    if elapsed > MAX - current then MAX else current + elapsed
  }
}
