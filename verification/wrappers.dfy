/** Failure-carrying results used by every operation that can raise in the
    original program (an assertion, a division by zero, a table whose
    columns disagree in length). */
module Wrappers {

  datatype Option<+T> = None | Some(value: T)

  datatype Result<+R, +E> = Ok(value: R) | Err(error: E) {
    predicate IsFailure() {
      Err?
    }

    function PropagateFailure<U>(): Result<U, E>
      requires Err?
    {
      Err(error)
    }

    function Extract(): R
      requires Ok?
    {
      value
    }
  }

  /** Everything the trial generator can fail with. */
  datatype Error =
    | ZeroPairs              // n_trials == 1: the target divides by n_trials - 1 == 0
    | TrialCountTooSmall     // configuration validation: fewer than two trials
    | ProportionOutOfRange   // configuration validation: target outside [0, 1]
    | RepetitionsNotPositive // configuration validation: no candidate may be drawn
    | MissingReference       // the reference stream is empty, so its first flag cannot be read
    | FirstTrialNotReference // the first reference flag is false
    | EmptyStimulusStream    // the stimulus stream is empty, so memory cannot be loaded
    | ColumnLengthMismatch   // the table's columns differ in length
}
