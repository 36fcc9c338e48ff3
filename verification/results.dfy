/** Failure-compatible wrappers shared by the writer model.

    `WriterError` lists every way an operation of the writer can raise:
    the two `XMLSyntaxError` conditions of the source and the two Python
    runtime errors its name parsing and tag popping can raise. */
module Results {

  datatype Option<+T> = None | Some(value: T)

  datatype WriterError =
    /** `end(tag)` named a different element than the one it closed. */
    | TagMismatch(openTag: string, endTag: string)
    /** `declaration()` after the root element has been started. */
    | LateDeclaration
    /** An empty name (IndexError) or a `{uri` name without a closing brace (ValueError). */
    | MalformedName(name: string)
    /** `end()` with no open element (IndexError from popping an empty list). */
    | NothingOpen

  datatype Result<+T> = Ok(value: T) | Err(error: WriterError) {

    predicate IsFailure() {
      Err?
    }

    function PropagateFailure<U>(): Result<U>
      requires Err?
    {
      Err(error)
    }

    function Extract(): T
      requires Ok?
    {
      value
    }
  }
}
