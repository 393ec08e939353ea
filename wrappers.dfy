/** Small result types shared by the model. */
module Wrappers {

  /** An optional value: Python's `None` or a value. */
  datatype Option<T> = None | Some(value: T)

  /**
   * The outcome of an operation that may fail with a dictionary lookup error:
   * `KeyError(key)` stands for Python raising `KeyError` on `key`.
   */
  datatype Outcome<T> = Ok(value: T) | KeyError(key: string)
}
