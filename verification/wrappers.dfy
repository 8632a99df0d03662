/** Failure-carrying wrappers shared by every module of the model.
    `Option` stands for Python's `None`-or-value; `Result` for a call that
    either returns or raises (the error text is the exception's message). */
module Wrappers {

  datatype Option<+T> = None | Some(value: T) {
    function GetOr(default: T): T {
      match this
      case Some(v) => v
      case None => default
    }
  }

  datatype Result<+T> = Ok(value: T) | Err(message: string)
}
