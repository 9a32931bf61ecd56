/** What reading from the front of a sequence of bytes comes to: as a function of the bytes, and as the
    outcome of a method that advances a stream. */
module Parsing {
  import opened Messages

  datatype Parsed<+T, +F> = Ok(value: T, rest: Bytes) | Fail(failure: F) {
    predicate IsFailure() { Fail? }

    function PropagateFailure<U>(): Parsed<U, F>
      requires Fail?
    {
      Fail(failure)
    }

    function Extract(): Parsed<T, F>
      requires Ok?
    {
      this
    }
  }

  datatype Outcome<+T, +F> = Value(value: T) | Failed(failure: F) {
    predicate IsFailure() { Failed? }

    function PropagateFailure<U>(): Outcome<U, F>
      requires Failed?
    {
      Failed(failure)
    }

    function Extract(): T
      requires Value?
    {
      value
    }
  }

  /** The method did what the function says, and the stream goes on behind the bytes it took. */
  ghost predicate Agrees<T, F>(p: Parsed<T, F>, r: Outcome<T, F>, after: Bytes) {
    if p.Ok? then r == Value(p.value) && after == p.rest else r == Failed(p.failure)
  }

  /** The outcome without what is left of the bytes. */
  function OutcomeOf<T, F>(p: Parsed<T, F>): Outcome<T, F> {
    if p.Ok? then Value(p.value) else Failed(p.failure)
  }
}
