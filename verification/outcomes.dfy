/** Failure-carrying values for the ingestion client.

    The client's loop body catches nothing: an exception raised while one
    line is processed ends the whole session.  `Result` records which
    exception ended it, instead of a precondition that pretends it cannot
    happen. */
module Outcomes {

  /** The conventional Some/None datatype: `None` is the "unset" case. */
  datatype Option<+T> = None | Some(value: T)

  /** The exceptions the loop body can raise. */
  datatype Exception =
    | IndexError  // a positional token past the end of a split line
    | ValueError  // int() of a token that is not a decimal integer, or a row key the CSV writer has no column for

  /** Either the value computed or the exception that escaped. */
  datatype Result<+T> = Ok(value: T) | Raised(exc: Exception)
}
