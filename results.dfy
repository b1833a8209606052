/** The library's own result types: `Option` (`Some`/`None`), `Either` (`Left`/`Right`)
    and `Try` (`Success`/`Failure`). The Java classes keep an unused field set to null
    (None's value, Left's right side, Success's exception, ...); each constructor here
    carries only the field that is meaningful. */
module Results {
  import opened Java

  datatype Option<+T> = None | Some(value: T)

  datatype Either<+L, +R> = Left(left: L) | Right(right: R)

  datatype Try<+T> = Success(value: T) | Failure(exception: Throwable)
}
