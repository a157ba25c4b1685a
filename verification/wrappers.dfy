/** Option and Result datatypes shared by the scraper and the spreadsheet cleaner. */
module Wrappers {

  /** A value that may be absent, such as an HTML attribute that is not set. */
  datatype Option<+T> = None | Some(value: T)

  /** The outcome of a step that can fail with a human-readable message. */
  datatype Result<+T> = Ok(value: T) | Err(error: string)
}
