/** Option/Result wrappers and the error values the configuration loader can return. */
module Outcomes {

  datatype Option<+T> = None | Some(value: T)

  /** The errors `LoadFile` can surface, one constructor per error site. */
  datatype Error =
    /** The target is not a non-nil pointer to a struct. */
    | InvalidTarget
    /** A non-blank, non-comment line without '='; carries the trimmed line. */
    | MalformedLine(line: string)
    /** strconv reports that the text is not in the function's syntax. */
    | SyntaxError(func: string, input: string)
    /** strconv reports that the number does not fit in 64 bits. */
    | RangeError(func: string, input: string)
    /** A tagged field whose kind has no coercion; carries the kind's name. */
    | Unsupported(kind: string)
    /** Opening or reading the file failed for a reason other than absence. */
    | FileError(message: string)

  datatype Result<+T> = Ok(value: T) | Err(error: Error) {
    predicate IsFailure() {
      Err?
    }

    function PropagateFailure<U>(): Result<U>
      requires Err?
    {
      Err(error)
    }

    function Extract(): T
      requires Ok?
    {
      value
    }
  }
}
