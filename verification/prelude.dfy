/** Small value types and constants shared by every component of the model. */
module Prelude {

  datatype Option<+T> = None | Some(value: T)

  datatype Result<+T, +E> = Ok(value: T) | Err(error: E)

  // Durations and instants are integers counted in nanoseconds, as time.Duration is.
  const SECOND: int := 1_000_000_000
  const MINUTE: int := 60 * SECOND
  const HOUR: int := 60 * MINUTE
  const DAY: int := 24 * HOUR

  type Byte = b: int | 0 <= b < 256

  type Bytes = seq<Byte>

  const TWO_30: int := 0x4000_0000
  const TWO_40: int := 0x100_0000_0000
  const TWO_63: int := 0x8000_0000_0000_0000
  const TWO_64: int := 0x1_0000_0000_0000_0000

  /** The int64 that a two's-complement machine keeps of the integer x. */
  function WrapInt64(x: int): (r: int)
    ensures -TWO_63 <= r < TWO_63
    ensures r == x <==> -TWO_63 <= x < TWO_63
  {
    if -TWO_63 <= x < TWO_63 then x else (x + TWO_63) % TWO_64 - TWO_63
  }

  function Least(a: int, b: int): int {
    if a < b then a else b
  }

  // The few facts about multiples that the solver does not find by itself.

  lemma MultipleMonotone(p: int, q: int, step: int)
    requires p <= q && step > 0
    ensures p * step <= q * step
  {
  }

  lemma OneMore(n: int, step: int)
    ensures (n + 1) * step == n * step + step
  {
  }

  lemma RemainderUnique(x: int, q: int, r: int, step: int)
    requires step > 0 && 0 <= r < step && x == q * step + r
    ensures x % step == r && x / step == q
  {
    var q' := x / step;
    if q' < q {
      MultipleMonotone(q' + 1, q, step);
    } else if q' > q {
      MultipleMonotone(q + 1, q', step);
    }
  }
}
