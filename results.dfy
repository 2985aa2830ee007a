/** Failure-carrying values used in place of the Python exceptions. */
module Results {

  /** A value that may be missing (Python's `None`). */
  datatype Option<+T> = None | Some(value: T)

  /** A computed value, or the error that was raised instead. */
  datatype Result<+T, +E> = Ok(value: T) | Err(error: E)

  /** Completion of a procedure that returns nothing: it returned, or it raised `error`. */
  datatype Outcome<+E> = Pass | Fail(error: E)
}

/** What the hooks see of a finished subprocess. */
module Process {

  /** Exit status and standard output of one command. */
  datatype Reply = Reply(code: int, out: string)
}
