/** Models of the few `java.util` and `java.lang` values the library consumes. */
module Java {

  /** `java.util.Optional`: a value that is either present or absent. */
  datatype Optional<+T> = Absent | Present(value: T)

  /** A `java.lang.Throwable`, identified by its class name and its message. */
  datatype Throwable = Throwable(className: string, message: string)

  /** What calling a caller-supplied closure that may throw produces:
      the value it returned, or the exception it threw. */
  datatype Attempt<+T> = Returned(value: T) | Threw(exception: Throwable)

  /** A Java reference that may be null. */
  datatype Nullable<+T> = Null | NonNull(value: T)

  /** Exceptions the library itself throws. */
  function NoSuchElementException(message: string): Throwable {
    Throwable("java.util.NoSuchElementException", message)
  }

  function ClassCastException(message: string): Throwable {
    Throwable("java.lang.ClassCastException", message)
  }

  function IllegalArgumentException(message: string): Throwable {
    Throwable("java.lang.IllegalArgumentException", message)
  }

  /** `new AssertionError(message)`. */
  function AssertionError(message: string): Throwable {
    Throwable("java.lang.AssertionError", message)
  }

  /** `new IndexOutOfBoundsException()`, built without a message (modelled as ""). */
  function IndexOutOfBoundsException(): Throwable {
    Throwable("java.lang.IndexOutOfBoundsException", "")
  }
}
