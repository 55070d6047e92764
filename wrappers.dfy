// Option and Result types shared by the model, and the Java exception
// kinds that the modelled code raises.

module Wrappers {

  datatype Option<T> = None | Some(value: T)

  /** The Java exception a modelled operation would raise. */
  datatype Error =
    | IllegalArgument   // IllegalArgumentException
    | IllegalState      // IllegalStateException
    | IndexOutOfBounds  // IndexOutOfBoundsException / ArrayIndexOutOfBoundsException
    | NullPointer       // NullPointerException
    | Runtime           // RuntimeException
    | DrawsExhausted    // the model ran out of random draws supplied by the caller
    | NoProgress        // the Java loop would never end

  datatype Result<T> = Ok(value: T) | Fail(error: Error)
  {
    predicate IsOk() { Ok? }
  }

  /** Outcome of an operation that returns nothing (a Java void method). */
  datatype Outcome = Done | Failed(error: Error)
}
