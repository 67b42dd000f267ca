/** Small wrapper types shared by the tool models. */
module Common {

  /** A value that may be absent: a dictionary key that is missing, an empty cell. */
  datatype Option<T> = None | Some(value: T)

  /**
   * The outcome of a call into a library that may raise: either its value, or the
   * text `str(e)` of the exception it raised.
   */
  datatype Result<T> = Ok(value: T) | Raised(message: string)

  /**
   * The argument a tool's `_run` receives: a dictionary from keys to string
   * values, or anything that is not a dictionary.
   */
  datatype Arg = NotADict | Dict(entries: map<string, string>)
}
