/** Types shared by every component: optional values, results, bytes and keys. */
module Prelude {

  datatype Option<+T> = None | Some(value: T)

  datatype Result<+T, +E> = Ok(value: T) | Err(error: E)

  type Byte = b: int | 0 <= b < 256

  /** A Go string is a sequence of bytes. */
  type Key = seq<Byte>

  /** A JSON text as it travels and is stored. */
  type Bytes = seq<Byte>

  /** One past the largest value of a Go uint64. */
  const TWO_64: nat := 0x1_0000_0000_0000_0000

  /** No element occurs twice. */
  ghost predicate Distinct<T>(s: seq<T>) {
    forall i, j :: 0 <= i < j < |s| ==> s[i] != s[j]
  }
}
