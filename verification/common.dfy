/** Values shared by every part of the model: Java's `Optional`/null, results
    that are either a value or a thrown exception, and bytes. */
module Common {

  /** `Optional<T>`, and also a Java reference that may be null. */
  datatype Option<+T> = None | Some(value: T)

  /** A call that returns a value or throws. */
  datatype Result<+T, +E> = Success(value: T) | Failure(error: E) {
    predicate IsFailure() {
      Failure?
    }

    function PropagateFailure<U>(): Result<U, E>
      requires Failure?
    {
      Failure(error)
    }

    function Extract(): T
      requires Success?
    {
      value
    }
  }

  /** The unit value, for calls that return nothing (`void`). */
  datatype Unit = Unit

  /** A byte as stored in a `byte[]`; Java's signed bytes are kept as their
      unsigned bit pattern. */
  newtype byte = x: int | 0 <= x < 256

  function Min(a: int, b: int): (r: int)
    ensures r <= a && r <= b && (r == a || r == b)
  {
    if a <= b then a else b
  }
}
