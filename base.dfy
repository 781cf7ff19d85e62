/** Shared result types: form answers, failures and the Go-style (value, error) returns. */
module Base {

  /** What an interactive form hands back: the submitted value, or nothing when the
      user left it (Esc / Ctrl-C make `RunStyledForm` return an error). */
  datatype Answer<T> = Cancelled | Submitted(value: T)

  /** The error conditions the store operations report. */
  datatype Failure =
    | InputCancelled            // a form was left without submitting
    | EmptyName                 // "... name cannot be empty"
    | DuplicateName(name: string)  // "... '<name>' already exists"
    | EmptyEnvVar               // "environment variable cannot be empty"
    | EnvVarWithoutEquals       // "environment variable must include '='"
    | InvalidPlatform           // "invalid platform selection"
    | NotFound(name: string)    // "... '<name>' not found"
    | Declined                  // a confirmation answered "Cancel"

  /** A check or an operation that only succeeds or fails. */
  datatype Outcome = Pass | Fail(error: Failure)

  /** A value or the error that replaced it. */
  datatype Result<T> = Ok(value: T) | Err(error: Failure)

  datatype Option<T> = None | Some(value: T)

  /** Puts an operation's result in place of the value it was computed from: the new
      value on success, the old one together with the failure otherwise. */
  method Settle<T>(current: T, result: Result<T>) returns (outcome: Outcome, next: T)
    ensures result.Ok? ==> outcome == Pass && next == result.value
    ensures result.Err? ==> outcome == Fail(result.error) && next == current
  {
    match result
    case Ok(v) =>
      outcome, next := Pass, v;
    case Err(e) =>
      outcome, next := Fail(e), current;
  }
}
