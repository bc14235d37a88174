/** Option and Result values, used wherever the Python code returns None or raises. */
module Results {

  datatype Option<+T> = None | Some(value: T) {
    function GetOr(default: T): T {
      match this
      case Some(v) => v
      case None => default
    }
  }

  /** The exceptions the modelled Python code can raise. */
  datatype Error =
    | ValueError
    | KeyError(key: string)
    | IndexError
    | TypeError
    | NotADirectoryError
    | OcrFailure

  datatype Result<+T> = Ok(value: T) | Err(error: Error)
}
