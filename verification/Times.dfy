/** Times as the tools' arguments give them, in nanoseconds. */
module Times {
  const SECOND := 1_000_000_000
  const HOUR := 3600 * SECOND

  /** An optional argument: not given, not readable, or a time. */
  datatype Time = Absent | Unreadable | At(nanos: int)
}
