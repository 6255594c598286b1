/** Option and Result, and the Python exceptions that can escape the update run. */
module Wrappers {

  datatype Option<+T> = None | Some(value: T)

  datatype Result<+T, +E> = Ok(value: T) | Err(error: E) {
    predicate IsFailure() { Err? }

    function PropagateFailure<U>(): Result<U, E>
      requires Err?
    {
      Err(error)
    }

    function Extract(): T
      requires Ok?
    {
      value
    }
  }

  /** The exceptions that leave `main`.
      IndexError: a manifest with too few fields, or a `Version:` line without a second word;
      ValueError: `int()` of a string that is not an integer (the interpreter exits with
      status 1 on either);
      FileNotFound: `shutil.move` of a staged file that is not there. That is an IOError, which
      the lock handler around `main` catches: the process reports another running instance and
      exits with status 254 (Pipeline.ProcessExit). */
  datatype Crash = IndexError | ValueError | FileNotFound(name: string)
}
