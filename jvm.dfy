/** Values shared by every module of the model: optional values, the exceptions the
    modelled Kotlin code can raise, and throwables with their class hierarchy. */
module Jvm {

  datatype Option<+T> = None | Some(value: T)

  /** The runtime exceptions that the modelled code raises itself
      (a failed `!!` or cast, `lastElement()` on an empty stack, the fail-fast
      iterator of `java.util.Vector`, an array index past the end). */
  datatype Failure =
    | NullPointer
    | ClassCast
    | NoSuchElement
    | ConcurrentModification
    | ArrayIndexOutOfBounds

  /** The value a Kotlin function returns, or the exception it throws. */
  datatype Result<+T> = Ok(value: T) | Throws(failure: Failure)

  /** The outcome of a Kotlin function returning `Unit`. */
  datatype Outcome = Completed | Raised(failure: Failure)

  /** A throwable: its own class name and the names of all its superclasses. */
  datatype Throwable = Throwable(className: string, superclasses: set<string>)

  /** Kotlin's `e is C`: true when C is the class of `e` or one of its superclasses. */
  predicate IsInstance(e: Throwable, cls: string)
  {
    cls == e.className || cls in e.superclasses
  }
}
