/** Results of operations that can throw, and values that may be missing. */
module Outcomes {

  datatype Option<+T> = None | Some(value: T)

  /** The source throws one sanitized error per operation, so a thrown outcome carries nothing. */
  datatype Outcome<+T> = Threw | Returned(value: T)
}
