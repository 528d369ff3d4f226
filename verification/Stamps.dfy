/** Times as they come out of stored text. */
module Stamps {
  /** No text, text that is no time, or a time in milliseconds. */
  datatype Stamp = Absent | Unreadable | At(ms: int)
}
