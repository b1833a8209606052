/** The operations of `Try`, `Success` and `Failure`. A caller closure that may throw
    returns an `Attempt`. */
module TryOps {
  import opened Java
  import opened Results
  import EitherOps
  import OptionOps

  predicate IsSuccess<T>(t: Try<T>) {
    t.Success?
  }

  predicate IsFailure<T>(t: Try<T>) {
    t.Failure?
  }

  /** `Try.apply(supplier)`: the supplier's value in `Success`, the exception it threw
      in `Failure`. */
  function Apply<T>(supplier: Attempt<T>): (t: Try<T>)
    ensures t.Success? <==> supplier.Returned?
    ensures t.Success? ==> t.value == supplier.value
    ensures t.Failure? ==> t.exception == supplier.exception
  {
    match supplier
    case Returned(v) => Success(v)
    case Threw(e) => Failure(e)
  }

  /** `failed()`: a `Failure`'s exception in `Success`; on `Success`, a `Failure` with a
      `NoSuchElementException` (the documentation names `UnsupportedOperationException`). */
  function Failed<T>(t: Try<T>): (f: Try<Throwable>)
    ensures f.Success? <==> t.Failure?
    ensures f.Success? ==> f.value == t.exception
    ensures f.Failure? ==> f.exception == NoSuchElementException("This object isn't instance of Failure")
  {
    if IsFailure(t) then Success(t.exception)
    else Failure(NoSuchElementException("This object isn't instance of Failure"))
  }

  /** `filter(p)`. */
  function Filter<T>(t: Try<T>, p: T -> bool): (f: Try<T>)
    ensures f.Success? <==> (t.Success? && p(t.value))
    ensures f == t || f == Failure(AssertionError("Predicate Failure"))
    ensures t.Failure? ==> f == t
    ensures t.Success? && p(t.value) ==> f == t
  {
    if IsSuccess(t) && !p(t.value) then Failure(AssertionError("Predicate Failure")) else t
  }

  /** `flatMap(f)`. */
  function FlatMap<T, U>(t: Try<T>, f: T -> Try<U>): (r: Try<U>)
    ensures t.Failure? ==> r == Failure(t.exception)
  {
    if IsSuccess(t) then f(t.value) else Failure(t.exception)
  }

  /** `Try.flatten(t)` is `flatMap(identity)`. */
  function Flatten<U>(t: Try<Try<U>>): (r: Try<U>)
    ensures t.Success? ==> r == t.value
    ensures t.Failure? ==> r == Failure(t.exception)
  {
    FlatMap(t, x => x)
  }

  /** `map(f)`: on `Success(v)` it is `Try.apply(() -> f(v))`, so an exception thrown by
      f becomes a `Failure`. */
  function Map<T, U>(t: Try<T>, f: T -> Attempt<U>): (r: Try<U>)
    ensures t.Failure? ==> r == Failure(t.exception)
    ensures t.Success? ==> r == Apply(f(t.value))
  {
    if IsSuccess(t) then Apply(f(t.value)) else Failure(t.exception)
  }

  /** `flatMap` obeys the monad laws, and `map` is `flatMap` through `Try.apply`. */
  lemma FlatMapLaws<T, U, V>(t: Try<T>, v: T, f: T -> Try<U>, g: U -> Try<V>, h: T -> Attempt<U>)
    ensures FlatMap(Success(v), f) == f(v)
    ensures FlatMap(t, x => Success(x)) == t
    ensures FlatMap(FlatMap(t, f), g) == FlatMap(t, x => FlatMap(f(x), g))
    ensures Map(t, h) == FlatMap(t, x => Apply(h(x)))
    ensures Map(t, x => Returned(x)) == t
  {
  }

  /** `fold(fa, fb)`: fb on `Success`, fa on `Failure`. An exception thrown by fb is not
      handed to fa (the documentation says it is): it comes out unchanged. */
  function Fold<T, U>(t: Try<T>, fa: Throwable -> Attempt<U>, fb: T -> Attempt<U>): (r: Attempt<U>)
    ensures t.Success? ==> r == fb(t.value)
    ensures t.Failure? ==> r == fa(t.exception)
  {
    if IsSuccess(t) then fb(t.value) else fa(t.exception)
  }

  /** `get()`. */
  function Get<T>(t: Try<T>): (a: Attempt<T>)
    ensures a.Returned? <==> t.Success?
    ensures a.Returned? ==> a.value == t.value
    ensures a.Threw? ==> a.exception == NoSuchElementException("This object isn't instance of Success")
  {
    if IsSuccess(t) then Returned(t.value)
    else Threw(NoSuchElementException("This object isn't instance of Success"))
  }

  /** `getOrElse(Supplier zero)`. */
  function GetOrElse<T>(t: Try<T>, zero: () -> T): (r: T)
    ensures t.Success? ==> r == t.value
    ensures t.Failure? ==> r == zero()
  {
    if IsSuccess(t) then t.value else zero()
  }

  /** `getOrElse(T zero)`. */
  function GetOrElseValue<T>(t: Try<T>, zero: T): (r: T)
    ensures t.Success? ==> r == t.value
    ensures t.Failure? ==> r == zero
  {
    if IsSuccess(t) then t.value else zero
  }

  /** `Try.apply` and `fold` are inverse: folding back into an outcome restores the
      supplier's outcome, and a fold to a plain value is `getOrElse`. */
  lemma ApplyFoldRoundTrip<T>(s: Attempt<T>, t: Try<T>, z: T)
    ensures Fold(Apply(s), e => Threw(e), v => Returned(v)) == s
    ensures Fold(t, _ => Returned(z), v => Returned(v)) == Returned(GetOrElseValue(t, z))
    ensures Get(t).Returned? ==> Get(t).value == GetOrElse(t, () => z)
  {
  }

  /** `orElse(zero)`. */
  function OrElse<T>(t: Try<T>, zero: () -> Try<T>): (r: Try<T>)
    ensures t.Success? ==> r == t
    ensures t.Failure? ==> r == zero()
  {
    if IsSuccess(t) then t else zero()
  }

  /** `recover(f)`: a `Failure(e)` becomes `Try.apply(() -> f(e))`. */
  function Recover<T>(t: Try<T>, f: Throwable -> Attempt<T>): (r: Try<T>)
    ensures t.Success? ==> r == t
    ensures t.Failure? ==> r == Apply(f(t.exception))
  {
    if IsFailure(t) then Apply(f(t.exception)) else t
  }

  /** `recoverWith(f)`: a `Failure(e)` becomes `f(e)`. */
  function RecoverWith<T>(t: Try<T>, f: Throwable -> Try<T>): (r: Try<T>)
    ensures t.Success? ==> r == t
    ensures t.Failure? ==> r == f(t.exception)
  {
    if IsFailure(t) then f(t.exception) else t
  }

  /** `transform(s, f)`. */
  function Transform<T, U>(t: Try<T>, s: T -> Try<U>, f: Throwable -> Try<U>): (r: Try<U>)
    ensures t.Success? ==> r == s(t.value)
    ensures t.Failure? ==> r == f(t.exception)
  {
    if IsSuccess(t) then s(t.value) else f(t.exception)
  }

  /** `transform` covers both `flatMap` and `recoverWith`; `recover` is `recoverWith`
      through `Try.apply`; `orElse` is `recoverWith` ignoring the exception. */
  lemma TransformLaws<T, U>(t: Try<T>, s: T -> Try<U>, f: Throwable -> Try<T>, g: Throwable -> Attempt<T>, z: () -> Try<T>)
    ensures FlatMap(t, s) == Transform(t, s, e => Failure(e))
    ensures RecoverWith(t, f) == Transform(t, v => Success(v), f)
    ensures Recover(t, g) == RecoverWith(t, e => Apply(g(e)))
    ensures OrElse(t, z) == RecoverWith(t, _ => z())
  {
  }

  /** `toEither()`. */
  function ToEither<T>(t: Try<T>): (e: Either<Throwable, T>)
    ensures e.Right? <==> t.Success?
    ensures t.Success? ==> e == Right(t.value)
    ensures t.Failure? ==> e == Left(t.exception)
  {
    if IsSuccess(t) then Right(t.value) else Left(t.exception)
  }

  /** `toOptional()`. */
  function ToOptional<T>(t: Try<T>): (o: Optional<T>)
    ensures o.Present? <==> t.Success?
    ensures o.Present? ==> o.value == t.value
  {
    if IsSuccess(t) then Present(t.value) else Absent
  }

  /** `toOption()`. */
  function ToOption<T>(t: Try<T>): (o: Option<T>)
    ensures o.Some? <==> t.Success?
    ensures o.Some? ==> o.value == t.value
  {
    if IsSuccess(t) then Some(t.value) else None
  }

  /** The conversions agree with each other; `Either.toTry` undoes `toEither` exactly on
      `Success` and on the one `Failure` it produces itself (any other exception is
      replaced by its `ClassCastException`), and likewise in the other direction. */
  lemma ConversionLaws<T>(t: Try<T>, e: Either<Throwable, T>)
    ensures ToOption(t) == OptionOps.From(ToOptional(t))
    ensures ToOption(t) == EitherOps.ToOption(ToEither(t))
    ensures EitherOps.ToTry(ToEither(t)) == t <==>
      (t.Success? || t.exception == ClassCastException(EitherOps.NotRight))
    ensures ToEither(EitherOps.ToTry(e)) == e <==>
      (e.Right? || e.left == ClassCastException(EitherOps.NotRight))
  {
  }

  /** `productCollection()`: the value on `Success`, nothing on `Failure`. */
  function ProductCollection<T>(t: Try<T>): (s: seq<T>)
    ensures |s| <= 1
    ensures t.Success? ==> s == [t.value]
    ensures t.Failure? ==> s == []
  {
    if IsSuccess(t) then [t.value] else []
  }

  /** `productArity()`: 1 on `Success`, 0 on `Failure`. */
  function ProductArity<T>(t: Try<T>): (n: int)
    ensures n == |ProductCollection(t)|
    ensures n == 1 <==> t.Success?
  {
    if IsFailure(t) then 0 else 1
  }

  /** `productElement(n)`: the value at index 0 of a `Success`; otherwise
      `IndexOutOfBoundsException`. */
  function ProductElement<T>(t: Try<T>, n: int): (a: Attempt<T>)
    ensures a.Returned? <==> 0 <= n < ProductArity(t)
    ensures a.Returned? ==> a.value == ProductCollection(t)[n] == t.value
    ensures a.Threw? ==> a.exception == IndexOutOfBoundsException()
  {
    if IsSuccess(t) && n == 0 then Returned(t.value) else Threw(IndexOutOfBoundsException())
  }

  /** `Success.toString()` / `Failure.toString()`, given how the value and the
      exception render. */
  function ToString<T>(t: Try<T>, show: T -> string, showException: Throwable -> string): (s: string)
    ensures t.Success? ==> s == "Success(" + show(t.value) + ")"
    ensures t.Failure? ==> s == "Failure(" + showException(t.exception) + ")"
  {
    match t
    case Success(v) => "Success(" + show(v) + ")"
    case Failure(e) => "Failure(" + showException(e) + ")"
  }

  /** The flags of the two cases. */
  lemma FlagsBehaviour<T>(v: T, e: Throwable)
    ensures IsSuccess(Success(v)) && !IsFailure(Success(v))
    ensures IsFailure<T>(Failure(e)) && !IsSuccess<T>(Failure(e))
  {
  }
}
