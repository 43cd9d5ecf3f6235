/** Failure-compatible result types shared by every solver.

    The C++ code signals every failure (a failed CHECK, an exception thrown by
    the standard library such as std::stoll's invalid_argument or
    vector::at's out_of_range) by throwing. The model folds all of them into
    the single value `Err`: no caller in the repository distinguishes them. */
module Wrappers {

  datatype Option<+T> = None | Some(value: T)

  datatype Result<+T> = Ok(value: T) | Err {

    predicate IsFailure() {
      Err?
    }

    function PropagateFailure<U>(): Result<U>
      requires Err?
    {
      Err
    }

    function Extract(): T
      requires Ok?
    {
      value
    }
  }
}
