/**
 * The exceptions of the to-do list application, with the messages the
 * application builds for them, and the result types that carry them.
 */
module Errors {

  datatype Option<+T> = None | Some(value: T)

  datatype Error =
    | InvalidItemStatus(message: string)
    | InvalidDateTimeFormat(message: string)
    | InvalidItemTitle(message: string)
    | ListItemAlreadyExists(message: string)
    | ListItemNotFound(message: string)
    | InvalidOption(message: string)
      // Enum.valueOf on a name that is not one of the constants
    | UnknownStatusName(name: string)
      // a null timestamp dereferenced while an item is written to the table
    | NullTimestamp
      // the console has no further line (Scanner.nextLine fails)
    | EndOfInput

  /** A value, or the exception that was thrown instead. */
  datatype Result<+T> = Ok(value: T) | Err(error: Error) {
    predicate IsFailure() { Err? }
    function PropagateFailure<U>(): Result<U> requires Err? { Err(error) }
    function Extract(): T requires Ok? { value }
  }

  /** A void call: it returned normally, or threw. */
  datatype Outcome = Pass | Fail(error: Error) {
    predicate IsFailure() { Fail? }
    function PropagateFailure(): Outcome requires Fail? { this }
  }

  function NotFoundMessage(title: string): string {
    "Item '" + title + "' cannot be found"
  }

  function AlreadyExistsMessage(title: string): string {
    "An item with name '" + title + "' already exists"
  }

  function InvalidTitleMessage(title: string): string {
    "Item title '" + title + "' is invalid."
  }
}
