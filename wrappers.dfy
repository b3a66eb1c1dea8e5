/** Failure-compatible result types shared by every module of the model.

    The C# code reports failures by throwing; the UDP worker that calls
    ProcessRequest catches every exception, logs it and drops the datagram.
    The model returns a `Result` instead, naming the .NET exception. */
module Wrappers {

  /** The .NET exceptions the modelled code can let escape. */
  datatype Exception =
    | EndOfStream         // BinaryReader read past the end of its stream
    | IndexOutOfRange     // array index outside the array
    | ArgumentOutOfRange  // negative count, bad index, negative stream position
    | Argument            // byte array of the wrong length, offset + count too large
    | ArgumentNull        // null passed where an object is required
    | NullReference       // member access through a null reference
    | Overflow            // array allocated with a negative length
    | FileNotFound        // file missing when it is opened or its length is asked

  /** A value that may be absent (a C# null reference). */
  datatype Option<+T> = None | Some(value: T)

  /** A value, or the exception that was thrown instead. */
  datatype Result<+T> = Ok(value: T) | Throw(exception: Exception) {
    predicate IsFailure() { Throw? }

    function PropagateFailure<U>(): Result<U>
      requires Throw?
    {
      Throw(exception)
    }

    function Extract(): T
      requires Ok?
    {
      value
    }
  }

  /** `r` fails exactly when `s` does, and otherwise holds the same value (the exception
      itself may differ: the UDP worker treats them all alike). */
  predicate SameOutcome<T(==)>(r: Result<T>, s: Result<T>) {
    (r.Ok? <==> s.Ok?) && (r.Ok? ==> r.value == s.value)
  }

  /** What a cursor-based read yields: the value and the cursor position after it. */
  datatype Read<+T> = Read(value: T, next: nat)

  /** The value part of a read, or its exception. */
  function ValueOf<T>(r: Result<Read<T>>): Result<T> {
    match r
    case Ok(rd) => Ok(rd.value)
    case Throw(e) => Throw(e)
  }

  function Min(a: int, b: int): int { if a <= b then a else b }
}
