/** Option and Result, the failure-compatible wrappers used by every module. */
module Wrappers {

  /** A value that may be absent (`undefined` or `null` in the source). */
  datatype Option<+T> = None | Some(value: T) {
    predicate IsFailure() { None? }

    function PropagateFailure<U>(): Option<U>
      requires None?
    {
      None
    }

    function Extract(): T
      requires Some?
    {
      value
    }
  }

  /** The outcome of an operation that may throw in the source. */
  datatype Result<+T, +E> = Ok(value: T) | Err(error: E) {
    predicate IsFailure() { Err? }

    function PropagateFailure<U>(): Result<U, E>
      requires Err?
    {
      Err(error)
    }

    function Extract(): T
      requires Ok?
    {
      value
    }
  }
}

/** The error kinds the system raises. */
module Errors {

  datatype Error =
    | NotFound(key: string)                     // the store has no value under `key`
    | DecodeError(key: string)                  // the value under `key` is not of the expected shape
    | EntryNotFound(namespaceKey: string, entryKey: string)
    | InvalidJson                               // text that `JSON.parse` rejects
    | MalformedCategory                         // category payload without a truthy `id` or `name`
    | DuplicateCategory(name: string)
    | PropertyOfNull                            // reading `.schema` of a `null` shortcut object
    | UnknownSchemaVersion
    | ValidationFailed
}
