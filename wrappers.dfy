/** Small failure-carrying datatypes shared by the other modules. */
module Wrappers {

  /** A value that may be absent; `None` plays the part of JavaScript's `NaN`
      for a parse that found no digits. */
  datatype Option<+T> = None | Some(value: T)

  /** The outcome of one HTTP request as the component sees it: either the
      response payload, or a failure (connection error or non-success status). */
  datatype Reply<+T> = Ok(data: T) | Failed
}
