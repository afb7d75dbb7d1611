/** Vocabulary shared by the event-management model: identifiers, values that
    Java represents by possibly-null references, and operation outcomes. */
module Common {

  /** A value Java would hold in a reference that may be null. */
  datatype Option<+T> = None | Some(value: T)

  /** A result or the error that blocked it (a thrown exception in Java). */
  datatype Result<+R, +E> = Success(value: R) | Failure(error: E)

  /** Success without a value (a `void` method that returned) or an error. */
  datatype Outcome<+E> = Pass | Fail(error: E)

  /** Primary keys of the event and user tables (Java `Long`). */
  type EventId = int
  type UserId = int

  /** A Java `String` field, which may hold null. */
  type Text = Option<string>

  /** One element of a Java `byte[]` (signed, 8 bits). */
  newtype byte = b: int | -128 <= b < 128

  /** One Bean Validation constraint's contribution to the violations of an
      object: its message when the constraint is violated, nothing otherwise. */
  function Report(satisfied: bool, message: string): (r: set<string>)
    ensures message in r <==> !satisfied
    ensures r <= {message}
  {
    if satisfied then {} else {message}
  }
}
