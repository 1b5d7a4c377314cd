/** Small value types shared by the whole engine: optional values, the outcome of an
    operation that can fail, and the failures the engine can run into. */
module Basics {

  /** Python's `None` or a value. */
  datatype Option<T> = None | Some(value: T) {
    function GetOr(default: T): T {
      if Some? then value else default
    }
  }

  /** The ways an operation of the engine aborts with an exception. */
  datatype EngineError =
    | RegionCountMismatch          // ValueError raised by recombine when region lists differ in length
    | EmptyAlphabet                // numpy cannot draw symbols from an empty alphabet
    | ZeroRecombinationWeight      // the weights sum to zero: the normalisation divides by zero
    | IndexOutOfRange              // a read past the end of a parent's sequence (IndexError)

  /** Either the operation's value or the error that aborted it. */
  datatype Outcome<T> = Ok(value: T) | Err(error: EngineError)

  function Min(a: int, b: int): int { if a <= b then a else b }
  function Max(a: int, b: int): int { if a >= b then a else b }
  function Abs(x: int): nat { if x < 0 then -x else x }
}
