/** The operations of `Option`, `Some` and `None`. */
module OptionOps {
  import opened Java
  import opened Results
  import EitherOps

  /** `Some.apply(value)`: null is refused with `IllegalArgumentException`. */
  function SomeApply<T>(value: Nullable<T>): (a: Attempt<Option<T>>)
    ensures value.Null? <==> a.Threw?
    ensures a.Threw? ==> a.exception == IllegalArgumentException("value can not be null")
    ensures value.NonNull? ==> a == Returned(Some(value.value))
  {
    match value
    case Null => Threw(IllegalArgumentException("value can not be null"))
    case NonNull(v) => Returned(Some(v))
  }

  /** `None.unit()`. */
  function Unit<T>(): (o: Option<T>)
    ensures IsEmpty(o)
  {
    None
  }

  /** `isEmpty()`: false for `Some`, true for `None`. */
  predicate IsEmpty<T>(o: Option<T>) {
    o.None?
  }

  /** `Some.isEmpty()` is false and `None.isEmpty()` is true. */
  lemma IsEmptyBehaviour<T>(v: T)
    ensures !IsEmpty(Some(v)) && IsEmpty(Unit<T>())
  {
  }

  /** `Option.from(elem)`. */
  function From<T>(elem: Optional<T>): (o: Option<T>)
    ensures o.Some? <==> elem.Present?
    ensures o.Some? ==> o.value == elem.value
  {
    if elem.Present? then Some(elem.value) else Unit()
  }

  /** `toOptional()`. */
  function ToOptional<T>(o: Option<T>): (e: Optional<T>)
    ensures e.Present? <==> o.Some?
    ensures e.Present? ==> e.value == o.value
  {
    if !IsEmpty(o) then Present(o.value) else Absent
  }

  /** `from` and `toOptional` are inverse to each other. */
  lemma FromToOptionalRoundTrip<T>(elem: Optional<T>, o: Option<T>)
    ensures ToOptional(From(elem)) == elem
    ensures From(ToOptional(o)) == o
  {
  }

  /** `get()`. */
  function Get<T>(o: Option<T>): (a: Attempt<T>)
    ensures a.Returned? <==> o.Some?
    ensures a.Returned? ==> a.value == o.value
    ensures a.Threw? ==> a.exception == NoSuchElementException("No value present")
  {
    if !IsEmpty(o) then Returned(o.value) else Threw(NoSuchElementException("No value present"))
  }

  /** `contains(elem)`: true exactly on `Some(elem)`. */
  function Contains<T(==)>(o: Option<T>, elem: T): (b: bool)
    ensures b <==> o == Some(elem)
  {
    !IsEmpty(o) && elem == o.value
  }

  /** `exist(p)`. */
  function Exist<T>(o: Option<T>, p: T -> bool): (b: bool)
    ensures b ==> o.Some?
    ensures o.Some? ==> (b <==> p(o.value))
  {
    !IsEmpty(o) && p(o.value)
  }

  /** `forall(p)`. */
  function Forall<T>(o: Option<T>, p: T -> bool): (b: bool)
    ensures o.None? ==> b
    ensures o.Some? ==> (b <==> p(o.value))
  {
    (!IsEmpty(o) && p(o.value)) || IsEmpty(o)
  }

  /** `exist` and `forall` are dual; `contains(e)` is `exist(x == e)`. */
  lemma ExistForallDuality<T>(o: Option<T>, p: T -> bool, e: T)
    ensures Exist(o, p) == !Forall(o, x => !p(x))
    ensures Contains(o, e) == Exist(o, x => x == e)
  {
  }

  /** `filter(p)`: a `Some` failing p becomes `None`, everything else is kept. */
  function Filter<T>(o: Option<T>, p: T -> bool): (f: Option<T>)
    ensures f.Some? <==> Exist(o, p)
    ensures f.Some? ==> f == o
  {
    if !IsEmpty(o) && !p(o.value) then Unit() else o
  }

  /** `filterNot(p)` is `filter(p.negate())`. */
  function FilterNot<T>(o: Option<T>, p: T -> bool): (f: Option<T>)
    ensures f.Some? <==> (o.Some? && !p(o.value))
    ensures f.Some? ==> f == o
  {
    Filter(o, x => !p(x))
  }

  /** Filtering twice is filtering once; `filter` and `filterNot` split a `Some`. */
  lemma FilterLaws<T>(o: Option<T>, p: T -> bool)
    ensures Filter(Filter(o, p), p) == Filter(o, p)
    ensures o.Some? ==> (Filter(o, p) == o <==> FilterNot(o, p) == None)
  {
  }

  /** `flatMap(op)`. */
  function FlatMap<T, U>(o: Option<T>, op: T -> Option<U>): (r: Option<U>)
    ensures o.None? ==> r == None
  {
    if !IsEmpty(o) then op(o.value) else Unit()
  }

  /** `Option.flatten(option)` is `flatMap(identity)`. */
  function Flatten<T>(oo: Option<Option<T>>): (r: Option<T>)
    ensures oo.Some? ==> r == oo.value
    ensures oo.None? ==> r == None
  {
    FlatMap(oo, x => x)
  }

  /** `map(op)` is `flatMap(op.andThen(Some::apply))`; with no null in the model the
      `Some.apply` step always succeeds. */
  function Map<T, U>(o: Option<T>, op: T -> U): (r: Option<U>)
    ensures r.Some? <==> o.Some?
    ensures r.Some? ==> r.value == op(o.value)
  {
    FlatMap(o, x => Some(op(x)))
  }

  /** `flatMap` obeys the monad laws; `map` the functor laws. */
  lemma FlatMapLaws<T, U, V>(o: Option<T>, v: T, f: T -> Option<U>, g: U -> Option<V>, h: T -> U, k: U -> V)
    ensures FlatMap(Some(v), f) == f(v)
    ensures FlatMap(o, x => Some(x)) == o
    ensures FlatMap(FlatMap(o, f), g) == FlatMap(o, x => FlatMap(f(x), g))
    ensures Map(o, x => x) == o
    ensures Map(Map(o, h), k) == Map(o, x => k(h(x)))
  {
  }

  /** `fold(zero, op)`. */
  function Fold<T, U>(o: Option<T>, zero: U, op: T -> U): (r: U)
    ensures o.None? ==> r == zero
    ensures o.Some? ==> r == op(o.value)
  {
    if !IsEmpty(o) then op(o.value) else zero
  }

  /** `getOrElse(zero)`. */
  function GetOrElse<T>(o: Option<T>, zero: () -> T): (r: T)
    ensures o.Some? ==> r == o.value
    ensures o.None? ==> r == zero()
  {
    if !IsEmpty(o) then o.value else zero()
  }

  /** `orElse(zero)`. */
  function OrElse<T>(o: Option<T>, zero: () -> Option<T>): (r: Option<T>)
    ensures o.Some? ==> r == o
    ensures o.None? ==> r == zero()
  {
    if !IsEmpty(o) then o else zero()
  }

  /** `fold`, `getOrElse` and `orElse` agree: the zero on `None`, the value side on `Some`. */
  lemma FoldLaws<T>(o: Option<T>, zero: () -> T, alt: () -> Option<T>)
    ensures GetOrElse(o, zero) == Fold(o, zero(), x => x)
    ensures OrElse(o, alt) == Fold(o, alt(), x => Some(x))
  {
  }

  /** `toList()`. */
  function ToList<T>(o: Option<T>): (s: seq<T>)
    ensures |s| == if o.Some? then 1 else 0
    ensures o.Some? ==> s[0] == o.value
  {
    if !IsEmpty(o) then [o.value] else []
  }

  /** `toLeft(right)`. */
  function ToLeft<T, U>(o: Option<T>, right: () -> U): (e: Either<T, U>)
    ensures e.Left? <==> o.Some?
  {
    if !IsEmpty(o) then Left(o.value) else Right(right())
  }

  /** `toRight(left)`. */
  function ToRight<T, U>(o: Option<T>, left: () -> U): (e: Either<U, T>)
    ensures e.Right? <==> o.Some?
  {
    if !IsEmpty(o) then Right(o.value) else Left(left())
  }

  /** `toLeft` and `toRight` mirror each other, and `Either.toOption` undoes `toRight`. */
  lemma ToEitherLaws<T, U>(o: Option<T>, z: () -> U)
    ensures ToLeft(o, z) == EitherOps.Swap(ToRight(o, z))
    ensures EitherOps.ToOption(ToRight(o, z)) == o
    ensures o.Some? ==> ToLeft(o, z) == Left(o.value)
    ensures o.None? ==> ToRight(o, z) == Left(z())
  {
  }

  /** `productCollection()`: the value on `Some`, nothing on `None`. */
  function ProductCollection<T>(o: Option<T>): (s: seq<T>)
    ensures |s| <= 1
    ensures o.Some? ==> s == [o.value]
    ensures o.None? ==> s == []
  {
    if !IsEmpty(o) then [o.value] else []
  }

  /** `productArity()`, inherited: the size of the product collection. */
  function ProductArity<T>(o: Option<T>): (n: int)
    ensures n == |ProductCollection(o)|
    ensures n == 1 <==> o.Some?
    ensures n == 0 <==> o.None?
  {
    |ProductCollection(o)|
  }

  /** `productElement(n)`, inherited: `productCollection().get(n)`, which raises
      `IndexOutOfBoundsException` outside `0 <= n < productArity()`. */
  function ProductElement<T>(o: Option<T>, n: int): (a: Attempt<T>)
    ensures a.Returned? <==> 0 <= n < ProductArity(o)
    ensures a.Returned? ==> a.value == ProductCollection(o)[n] == o.value
    ensures a.Threw? ==> a.exception == IndexOutOfBoundsException()
  {
    var c := ProductCollection(o);
    if 0 <= n < |c| then Returned(c[n]) else Threw(IndexOutOfBoundsException())
  }

  /** The product collection is the option's list view. */
  lemma ProductCollectionIsList<T>(o: Option<T>)
    ensures ProductCollection(o) == ToList(o)
  {
  }

  /** `Some.toString()` / `None.toString()`, given how the value renders. */
  function ToString<T>(o: Option<T>, show: T -> string): (s: string)
    ensures o.None? ==> s == "None"
    ensures o.Some? ==> s == "Some(" + show(o.value) + ")"
  {
    match o
    case None => "None"
    case Some(v) => "Some(" + show(v) + ")"
  }
}
