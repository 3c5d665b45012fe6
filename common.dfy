/** Small shared definitions: bytes, a Result type for exceptions the
    scripts raise, and the outcome of reading a file. */
module Common {

  /** One byte of a file, as Python's `bytes` iterates it. */
  newtype byte = x: int | 0 <= x < 256

  /** A value, or the exception that Python would have raised instead. */
  datatype Result<+T, +E> = Success(value: T) | Failure(error: E)

  /** The exceptions the modelled code lets escape. */
  datatype PyError = ValueError

  /** What opening and reading a file produced. */
  datatype FileRead<+T> = Missing | Unreadable(reason: string) | Contents(value: T)

  /** `s.startswith(prefix)` */
  predicate StartsWith(s: string, prefix: string) {
    |prefix| <= |s| && s[..|prefix|] == prefix
  }

  /** `s.endswith(suffix)` */
  predicate EndsWith(s: string, suffix: string) {
    |suffix| <= |s| && s[|s| - |suffix|..] == suffix
  }
}
