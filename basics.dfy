/** Small value wrappers shared by every module of the model. */
module Basics {

  /** An optional value (std::optional, a map lookup that may miss). */
  datatype Option<+T> = None | Some(value: T)

  /** The outcome of an operation that can throw in the original program. */
  datatype Result<+T, +E> = Success(value: T) | Failure(error: E)

  /**
   * A field of a C++ object that a constructor or a transition may leave
   * uninitialised.  `Unassigned` stands for an indeterminate value: the model
   * never invents one; `AsRead` makes explicit what a read of it compares
   * equal to.
   */
  datatype Slot<+T> = Assigned(value: T) | Unassigned

  /**
   * What a comparison sees when the program reads a slot: the value of an
   * assigned slot; for a slot that was never set, `seen`, which the program
   * does not decide (`None`: the contents equal no value of `T`).  The
   * model takes `seen` as a parameter wherever the C++ reads such a field.
   */
  function AsRead<T>(slot: Slot<T>, seen: Option<T>): (r: Option<T>)
    ensures slot.Assigned? ==> r == Some(slot.value)
    ensures slot.Unassigned? ==> r == seen
  {
    match slot
    case Assigned(v) => Some(v)
    case Unassigned => seen
  }
}
