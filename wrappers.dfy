/** Error and result types. `ProgramError` lists the errors the core returns;
    `Panic` stands for an abort (a failed `assert!`, an out-of-range slice or
    split, an `unwrap` of an error), which ends the call like an error does. */
module Wrappers {

  datatype ProgramError =
    | InvalidAccountData
    | IllegalOwner
    | InvalidInstructionData
    | AccountBorrowFailed
    | ArithmeticOverflow
    | PriceConversion
    | Panic

  datatype Option<+T> = None | Some(value: T)

  datatype Result<+T> = Ok(value: T) | Err(error: ProgramError) {
    predicate IsFailure() {
      Err?
    }

    function PropagateFailure<U>(): Result<U>
      requires Err?
    {
      Err(error)
    }

    function Extract(): T
      requires Ok?
    {
      value
    }
  }

  /** `require!(condition, error)`. */
  function Require(condition: bool, error: ProgramError): (r: Result<()>)
    ensures r.Ok? <==> condition
    ensures r.Err? ==> r.error == error
  {
    if condition then Ok(()) else Err(error)
  }
}
