/** Types shared by the whole model: optional values, results, the exceptions the
    hedging engine propagates, the outcome of one attempt, and the fixed-width
    integers of the C++ interfaces. */
module Common {

  datatype Option<+T> = None | Some(value: T)

  datatype Result<+R, +E> = Success(value: R) | Failure(error: E)

  /** The exceptions the engine itself raises. An exception thrown by a hedged
      operation is carried through unchanged, whatever its kind. */
  datatype Exception =
    | InternalException(message: string)
    | InvalidInputException(message: string)

  /** What one run of a hedged operation produces: a value, or an exception it threw. */
  datatype Outcome<+T> = Returned(value: T) | Threw(error: Exception)

  const INT64_MIN: int := -0x8000_0000_0000_0000
  const INT64_MAX: int := 0x7FFF_FFFF_FFFF_FFFF
  const UINT64_MAX: int := 0xFFFF_FFFF_FFFF_FFFF

  newtype int64 = x: int | INT64_MIN <= x <= INT64_MAX
  newtype uint64 = x: int | 0 <= x <= UINT64_MAX

  /** The implicit C++ conversion from `uint64_t` to `int64_t`: the value modulo 2^64,
      read in two's complement. Values above INT64_MAX come out negative. */
  function ToInt64(v: uint64): (r: int64)
    ensures (r as int) % 0x1_0000_0000_0000_0000 == v as int
    ensures v as int <= INT64_MAX <==> r as int == v as int
    ensures v as int > INT64_MAX <==> r < 0
  {
    if v as int <= INT64_MAX then v as int as int64
    else (v as int - 0x1_0000_0000_0000_0000) as int64
  }
}
