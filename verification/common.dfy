/** Shared value types: optional values, results, and the Python exceptions
    the email program raises, each with the text that `str(e)` would give. */
module Common {

  datatype Option<T> = None | Some(value: T)

  /** A raised Python exception: its class and its message. */
  datatype Failure =
    | ValueError(msg: string)
    | FileNotFoundError(msg: string)
    | OverflowError(msg: string)
    | TypeError(msg: string)
    | KeyError(msg: string)
    | Exception(msg: string)

  /** The outcome of an operation that either returns a value or raises. */
  datatype Result<T> = Ok(value: T) | Err(error: Failure)

  /** What `re.sub` and `decode_header` raise when handed `None`. */
  const NoneTypeMessage := "expected string or bytes-like object, got 'NoneType'"

  /** `raise Exception(f"{prefix}: {e}")` around a caught exception `e`. */
  function Wrap(prefix: string, e: Failure): (f: Failure)
    ensures f.Exception? && f.msg == prefix + ": " + e.msg
  {
    Exception(prefix + ": " + e.msg)
  }
}
