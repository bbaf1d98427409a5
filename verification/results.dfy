/** Failure-carrying return values shared by the whole model.
    `Option` stands for Python's `None`-or-value, `Result` for a value or
    a raised exception whose message is kept as text. */
module Results {

  datatype Option<+T> = None | Some(value: T) {
    function GetOr(default: T): T {
      match this
      case Some(v) => v
      case None => default
    }
  }

  datatype Result<+T> = Ok(value: T) | Err(error: string)
}
