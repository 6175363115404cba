/** Bytes, and the outcome of reading untrusted ones. */
module Bytes {

  type byte = x: int | 0 <= x < 256

  datatype Result<+T> = Ok(value: T) | Corrupt
  {
    predicate IsFailure() { Corrupt? }
    function PropagateFailure<U>(): Result<U> requires Corrupt? { Corrupt }
    function Extract(): T requires Ok? { value }
  }

  const U64: nat := 0x1_0000_0000_0000_0000
}
