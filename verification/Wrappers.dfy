/** A value that may be missing. */
module Wrappers {
  datatype Option<+T> = None | Some(value: T)
}

/** The range of a C `int`. */
module CInts {
  const INT_MAX: int := 0x7fff_ffff
  const INT_MIN: int := -0x8000_0000
}
