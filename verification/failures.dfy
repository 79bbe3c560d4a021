/** Why a run of the history engine stops, and the two wrappers that carry
those reasons.

The Go code never returns an error from its string processing: a missing
delimiter makes a slice expression or a `strings.Split(..)[1]` panic, which
aborts the whole run before anything is written. Here each such panic is an
explicit `Err` carrying the reason, or a `None` where the caller only needs
to know that the text was not there.
 */
module Failures {

  /** Why a run aborted before appending anything to the history. */
  datatype Failure =
    /** the fresh definition text has no `(` (the `Index(ddl, "(")` slice panics) */
    | MissingParen
    /** the previous capture has no `(`, or no `ENGINE` after it */
    | MalformedPrevious
    /** the fresh capture has no `(`, or no `ENGINE` after it */
    | MalformedCurrent
    /** an element line that needs an identifying token has no backtick */
    | UnquotedLine(line: string)
    /** an added key line whose `(` … `)` column slice is out of bounds */
    | BadKeyColumns(line: string)

  /** A text that may be missing: a name cut out of a line, a column list, an
      element block. `None` is the input on which the Go slice would panic. */
  datatype Option<+T> = None | Some(value: T)

  /** The outcome of one step of a run: its value, or the reason the Go code
      would have panicked. Usable with `:-`, so the first reason met ends the
      run. */
  datatype Result<+T> = Ok(value: T) | Err(failure: Failure) {

    predicate IsFailure() {
      Err?
    }

    function PropagateFailure<U>(): Result<U>
      requires Err?
    {
      Err(failure)
    }

    function Extract(): T
      requires Ok?
    {
      value
    }
  }
}
