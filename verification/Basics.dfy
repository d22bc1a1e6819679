/** Vocabulary shared by the models: bytes, machine-word bounds, options and powers of two. */
module Basics {
  type byte = x: int | 0 <= x < 256

  const TWO_31: int := 0x8000_0000
  const TWO_32: int := 0x1_0000_0000
  const TWO_63: int := 0x8000_0000_0000_0000
  const TWO_64: int := 0x1_0000_0000_0000_0000

  datatype Option<+T> = None | Some(value: T)

  /** What a reader of the input stream returns: a value and the bytes that follow it, or failure. */
  datatype Parse<+T> = Failed | Parsed(value: T, rest: seq<byte>)

  /** No two entries are the same. */
  predicate Distinct<T(==)>(s: seq<T>) {
    forall i, j :: 0 <= i < j < |s| ==> s[i] != s[j]
  }

  /** Priorities run from 0, the most urgent, up to one less than this. */
  const MAX_PRIO_NUM := 61
}
