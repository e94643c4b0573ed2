/** Shared vocabulary: a Go string is a byte sequence, an instant is a whole number of nanoseconds. */
module Basics {

  datatype Option<+T> = None | Some(value: T)

  /** A Go `(T, error)` pair; the error keeps its text because some callers inspect it. */
  datatype Result<+T> = Ok(value: T) | Err(text: Bytes)

  type byte = b: int | 0 <= b < 256

  type Bytes = seq<byte>

  type Time = int

  const SECOND: int := 1_000_000_000

  const NEWLINE: byte := 10
  const RETURN: byte := 13
  const SPACE: byte := 32
  const DOT: byte := 46
  const COLON: byte := 58

  const MIN_INT64: int := -0x8000_0000_0000_0000
  const MAX_INT64: int := 0x7fff_ffff_ffff_ffff

  function Last<T>(s: seq<T>): T
    requires |s| > 0
  {
    s[|s| - 1]
  }

  function DropLast<T>(s: seq<T>): seq<T>
    requires |s| > 0
  {
    s[..|s| - 1]
  }

  lemma Associates<T>(a: seq<T>, b: seq<T>, c: seq<T>)
    ensures a + (b + c) == a + b + c
  {}

  function Min(a: int, b: int): int {
    if a < b then a else b
  }
}
