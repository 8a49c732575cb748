/** Outcomes of the assembler's operations. The Python code signals failure by
    raising exceptions; here every partial operation returns a `Result`. */
module Errors {

  datatype Option<+T> = None | Some(value: T)

  /** The two exception classes the assembler's own `except` clauses tell apart:
      a ValueError raised by a check, and an IndexError from a missing operand. */
  datatype Exc = ValueError | IndexError

  /** A raised exception, with the 1-based source line when the code attaches one. */
  datatype Error = Error(exc: Exc, line: Option<nat>)

  datatype Result<+T> = Ok(value: T) | Err(error: Error) {
    predicate IsFailure() { Err? }

    function PropagateFailure<U>(): Result<U>
      requires Err?
    {
      Err(error)
    }

    function Extract(): T
      requires Ok?
    {
      value
    }
  }

  /** An exception raised without a line number. */
  function Raise<T>(e: Exc): Result<T> {
    Err(Error(e, None))
  }

  /** `words[k]`, which raises IndexError when the list is too short. */
  function Arg(words: seq<string>, k: nat): (r: Result<string>)
    ensures r.Ok? <==> k < |words|
    ensures r.Ok? ==> r.value == words[k]
    ensures r.Err? ==> r.error == Error(IndexError, None)
  {
    if k < |words| then Ok(words[k]) else Raise(IndexError)
  }
}
