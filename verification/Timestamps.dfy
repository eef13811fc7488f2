/** Timestamps as they come in: a readable one, one that cannot be read, or null. */
module Timestamps {
  import opened Wrappers

  datatype Stamp = Null | Unreadable | At(ms: int)

  /** The source builds a date from the value.  A date built from null is the epoch, so a
      null timestamp reads as time zero and only an unreadable one is rejected. */
  function ParseTimestamp(s: Stamp): Option<int> {
    match s
    case Null => Some(0)
    case Unreadable => None
    case At(ms) => Some(ms)
  }
}
