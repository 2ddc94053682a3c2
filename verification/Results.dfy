/** Failure-compatible results shared by every module, with one type for all ways a
    stage can stop: a VM error, a fatal runtime error, or a code generator panic. */
module Results {
  datatype Option<+T> = None | Some(value: T)

  datatype Fault =
    | StackOverflow
    | StackUnderflow
    | NotEnoughArguments
    | InvalidOpcode
    | EndOfCode
    | UnexpectedEof
    | TypeMismatch
    | OutOfBounds
    | DivisionByZero
    | IntegerRange
    | UnknownLabel
    | DuplicateLabel
    | UnknownName
    | ArityMismatch
    | InvalidSchema
    | InvalidString
    | MainNotFound
    | InvalidSymbol
    | NoEnclosingLoop
    | NotImplemented
    | Undefined       // the C code would read or write outside an object, or overflow 32 bits
    | OutOfFuel

  datatype Result<+T> = Ok(value: T) | Err(fault: Fault) {
    predicate IsFailure() { Err? }

    function PropagateFailure<U>(): Result<U>
      requires Err?
    {
      Err(fault)
    }

    function Extract(): T
      requires Ok?
    {
      value
    }
  }

  function Need(condition: bool, fault: Fault): Result<()> {
    if condition then Ok(()) else Err(fault)
  }
}
