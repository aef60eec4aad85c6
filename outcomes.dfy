/** Outcomes of calls that, in the original scripts, either return a value or raise.
    The string carried by `Fails` is the text of the exception (`str(e)`). */
module Outcomes {

  datatype Option<+T> = None | Some(value: T)

  datatype Result<+T> = Ok(value: T) | Fails(cause: string)
}
