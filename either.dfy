/** The operations of `Either`, `Left` and `Right`. */
module EitherOps {
  import opened Java
  import opened Results

  const NotRight := "This object isn't instance of Right"
  const NotLeft := "This object isn't instance of Left"

  /** `Left.apply(l)`: the same as `new Left(l)`. */
  function LeftApply<L, R>(l: L): (e: Either<L, R>)
    ensures e.Left? && e.left == l
  {
    Left(l)
  }

  /** `Right.apply(r)`: the same as `new Right(r)`. */
  function RightApply<L, R>(r: R): (e: Either<L, R>)
    ensures e.Right? && e.right == r
  {
    Right(r)
  }

  /** `Left.get()`. */
  function LeftGet<L, R>(e: Either<L, R>): L
    requires e.Left?
  {
    e.left
  }

  /** `Right.get()`. */
  function RightGet<L, R>(e: Either<L, R>): R
    requires e.Right?
  {
    e.right
  }

  predicate IsLeft<L, R>(e: Either<L, R>) {
    e.Left?
  }

  predicate IsRight<L, R>(e: Either<L, R>) {
    e.Right?
  }

  /** A `Left` stores its value and answers isLeft; a `Right` likewise; `get` returns
      the stored value. */
  lemma SidesBehaviour<L, R>(l: L, r: R)
    ensures IsLeft(LeftApply<L, R>(l)) && !IsRight(LeftApply<L, R>(l)) && LeftGet(LeftApply<L, R>(l)) == l
    ensures IsRight(RightApply<L, R>(r)) && !IsLeft(RightApply<L, R>(r)) && RightGet(RightApply<L, R>(r)) == r
  {
  }

  /** `contains(r)`: true only on a `Right` whose value equals r. */
  function Contains<L, R(==)>(e: Either<L, R>, r: R): (b: bool)
    ensures b <==> e == Right(r)
  {
    IsRight(e) && r == e.right
  }

  /** `exists(p)`. */
  function Exists<L, R>(e: Either<L, R>, p: R -> bool): (b: bool)
    ensures b ==> e.Right?
    ensures e.Right? ==> (b <==> p(e.right))
  {
    IsRight(e) && p(e.right)
  }

  /** `forall(p)`. */
  function Forall<L, R>(e: Either<L, R>, p: R -> bool): (b: bool)
    ensures e.Left? ==> b
    ensures e.Right? ==> (b <==> p(e.right))
  {
    (IsRight(e) && p(e.right)) || IsLeft(e)
  }

  /** `exists` and `forall` are dual, and `contains(r)` is `exists(x == r)`. */
  lemma ExistsForallDuality<L, R>(e: Either<L, R>, p: R -> bool, r: R)
    ensures Exists(e, p) == !Forall(e, x => !p(x))
    ensures Contains(e, r) == Exists(e, x => x == r)
  {
  }

  /** `filterOrElse(p, zero)`: a `Right` failing p becomes `Left(zero())`. */
  function FilterOrElse<L, R>(e: Either<L, R>, p: R -> bool, zero: () -> L): (f: Either<L, R>)
    ensures f.Right? <==> Exists(e, p)
    ensures f.Right? || e.Left? ==> f == e
    ensures e.Right? && !p(e.right) ==> f == Left(zero())
  {
    if (IsRight(e) && p(e.right)) || IsLeft(e) then e else Left(zero())
  }

  /** `flatMap(f)`. */
  function FlatMap<L, R, R1>(e: Either<L, R>, f: R -> Either<L, R1>): (g: Either<L, R1>)
    ensures e.Left? ==> g == Left(e.left)
    ensures e.Right? ==> g == f(e.right)
  {
    if IsRight(e) then f(e.right) else Left(e.left)
  }

  /** `fold(fl, fr)`. */
  function Fold<L, R, T>(e: Either<L, R>, fl: L -> T, fr: R -> T): T {
    if IsRight(e) then fr(e.right) else fl(e.left)
  }

  /** `getOrElse(zero)`. */
  function GetOrElse<L, R>(e: Either<L, R>, zero: () -> R): R {
    if IsRight(e) then e.right else zero()
  }

  /** `map(f)`. */
  function Map<L, R, T>(e: Either<L, R>, f: R -> T): (g: Either<L, T>)
    ensures g.Right? <==> e.Right?
    ensures e.Right? ==> g == Right(f(e.right))
    ensures e.Left? ==> g == Left(e.left)
  {
    if IsRight(e) then Right(f(e.right)) else Left(e.left)
  }

  /** `map` is `flatMap` into a `Right`, and `fold` applies fr on the right, fl on the
      left; `getOrElse` is a fold. */
  lemma MapFoldLaws<L, R, T>(e: Either<L, R>, f: R -> T, fl: L -> T, zero: () -> R)
    ensures Map(e, f) == FlatMap(e, x => Right(f(x)))
    ensures Fold(e, fl, f) == match e case Left(l) => fl(l) case Right(r) => f(r)
    ensures GetOrElse(e, zero) == Fold(e, _ => zero(), x => x)
  {
  }

  /** `flatMap` is right-biased: `Right` is a left and right identity, and `flatMap`
      is associative. */
  lemma FlatMapLaws<L, R, R1, R2>(e: Either<L, R>, r: R, f: R -> Either<L, R1>, g: R1 -> Either<L, R2>)
    ensures FlatMap(Right(r), f) == f(r)
    ensures FlatMap(e, x => Right(x)) == e
    ensures FlatMap(FlatMap(e, f), g) == FlatMap(e, x => FlatMap(f(x), g))
  {
  }

  /** `Either.joinLeft`. */
  function JoinLeft<L, R>(e: Either<Either<L, R>, R>): Either<L, R> {
    if IsLeft(e) && IsLeft(e.left) then Left(e.left.left)
    else if IsLeft(e) && IsRight(e.left) then Right(e.left.right)
    else Right(e.right)
  }

  /** `Either.joinRight`. */
  function JoinRight<L, R>(e: Either<L, Either<L, R>>): Either<L, R> {
    if IsRight(e) && IsLeft(e.right) then Left(e.right.left)
    else if IsRight(e) && IsRight(e.right) then Right(e.right.right)
    else Left(e.left)
  }

  /** `joinRight` is `flatMap(identity)`, `joinLeft` its mirror image, and swapping on
      both levels turns one into the other. */
  lemma JoinLaws<L, R>(e: Either<Either<L, R>, R>, d: Either<L, Either<L, R>>)
    ensures JoinRight(d) == FlatMap(d, x => x)
    ensures JoinLeft(e) == Fold(e, x => x, r => Right(r))
    ensures JoinLeft(e) == Swap(JoinRight(Map(Swap(e), x => Swap(x))))
  {
  }

  /** `swap()`. */
  function Swap<L, R>(e: Either<L, R>): (s: Either<R, L>)
    ensures s.Left? <==> e.Right?
  {
    if IsLeft(e) then Right(e.left) else Left(e.right)
  }

  /** Swapping moves the value to the other side, and swapping twice restores it. */
  lemma SwapInvolution<L, R>(e: Either<L, R>)
    ensures Swap(Swap(e)) == e
    ensures e.Left? ==> Swap(e) == Right(e.left)
    ensures e.Right? ==> Swap(e) == Left(e.right)
  {
  }

  /** `left()`: this object on a `Left`, `ClassCastException` on a `Right`. */
  function LeftProjection<L, R>(e: Either<L, R>): (a: Attempt<Either<L, R>>)
    ensures a.Returned? <==> e.Left?
    ensures a.Returned? ==> a.value == e
    ensures a.Threw? ==> a.exception == ClassCastException(NotLeft)
  {
    if IsLeft(e) then Returned(e) else Threw(ClassCastException(NotLeft))
  }

  /** `right()`: this object on a `Right`, `ClassCastException` on a `Left`. */
  function RightProjection<L, R>(e: Either<L, R>): (a: Attempt<Either<L, R>>)
    ensures a.Returned? <==> e.Right?
    ensures a.Returned? ==> a.value == e
    ensures a.Threw? ==> a.exception == ClassCastException(NotRight)
  {
    if IsRight(e) then Returned(e) else Threw(ClassCastException(NotRight))
  }

  /** `toOptional()`. */
  function ToOptional<L, R>(e: Either<L, R>): (o: Optional<R>)
    ensures o.Present? <==> e.Right?
  {
    if IsRight(e) then Present(e.right) else Absent
  }

  /** `toOption()`. */
  function ToOption<L, R>(e: Either<L, R>): (o: Option<R>)
    ensures o.Some? <==> e.Right?
  {
    if IsRight(e) then Some(e.right) else None
  }

  /** `toList()`. */
  function ToList<L, R>(e: Either<L, R>): (s: seq<R>)
    ensures |s| <= 1
  {
    if IsRight(e) then [e.right] else []
  }

  /** `toTry()`. */
  function ToTry<L, R>(e: Either<L, R>): (t: Try<R>)
    ensures t.Success? <==> e.Right?
  {
    if IsRight(e) then Success(e.right) else Failure(ClassCastException(NotRight))
  }

  /** The conversions keep the right value and drop the left one: `toTry` gives
      `Success` on `Right` and the fixed `ClassCastException` on `Left`. */
  lemma ConversionsAgree<L, R>(e: Either<L, R>)
    ensures e.Right? ==> ToTry(e) == Success(e.right) && ToOption(e) == Some(e.right)
                         && ToOptional(e) == Present(e.right) && ToList(e) == [e.right]
    ensures e.Left? ==> ToTry(e) == Failure(ClassCastException(NotRight)) && ToOption(e) == None
                        && ToOptional(e) == Absent && ToList(e) == []
  {
  }

  /** `productArity()` is always 1. */
  function ProductArity<L, R>(e: Either<L, R>): (n: int)
    ensures n == 1
  {
    1
  }

  /** `productElement(n)`: the stored value (tagged with its side) at index 0,
      `IndexOutOfBoundsException` elsewhere. */
  function ProductElement<L, R>(e: Either<L, R>, n: int): (a: Attempt<Either<L, R>>)
    ensures a.Returned? <==> n == 0
    ensures a.Returned? ==> a.value == e
    ensures a.Threw? ==> a.exception == IndexOutOfBoundsException()
  {
    if n == 0 then (if IsRight(e) then Returned(Right(e.right)) else Returned(Left(e.left)))
    else Threw(IndexOutOfBoundsException())
  }

  /** `Left.toString()` / `Right.toString()`, given how the stored value renders. */
  function ToString<L, R>(e: Either<L, R>, showLeft: L -> string, showRight: R -> string): (s: string)
    ensures e.Left? ==> s == "Left(" + showLeft(e.left) + ")"
    ensures e.Right? ==> s == "Right(" + showRight(e.right) + ")"
  {
    match e
    case Left(l) => "Left(" + showLeft(l) + ")"
    case Right(r) => "Right(" + showRight(r) + ")"
  }
}
