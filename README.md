# ej-lambda: partial functions and result types, in Dafny

This project models two libraries of ej-lambda:

- the Scala-style **partial-function algebra** of `cc.domovoi.lambda.function`, with
  its near-identical copy `cc.domovoi.ej.lambda.function` and the factory class
  `PartialFunctions`;
- the **result types** `Option`/`Some`/`None`, `Either`/`Left`/`Right` and
  `Try`/`Success`/`Failure` of `cc.domovoi.collection.util`.

## Partial functions

A partial function has a domain test, `isDefinedAt`, and two ways to run it:
`apply` and `applyOrElse(a, zero)`. Its shape is the datatype `Protocol.PF`, with one
constructor per variant:

- `Pair`, built by `PartialFunctions.of`;
- the `empty()` function;
- `OrElse`;
- `AndThen`;
- `Unlifted`.

`Lift`/`Unlift` convert to and from `Combinators.OptFn`. That is a function returning
`Optional`, and `Lifted(pf)` is one of its constructors, so the `instanceof Lifted`
short-cut in `unlifted` becomes a pattern match.

**The fallback-marker protocol.** `OrElse`, `AndThen`, `Lifted` and `runWith` call
`applyOrElse(a, checkFallback())` and compare the result with a private marker
object. The model makes that marker a constructor, `Res.Fell`, so it can never be
confused with a real value. `applyOrElse`'s fallback is a `Zero`, which is one of:

- the marker function;
- a plain function;
- a partial function, whose unguarded `apply` is used; this is how `OrElse.apply`
  passes `f2`.

The model proves four things about this protocol:

- Marker-based evaluation agrees with the naive reading "if defined then apply else
  zero" (`Protocol.MarkerAgreesWithNaive`).
- No guard runs twice in one call. Each guard is identified by its position in the tree, and the sequence of positions a call evaluates has no repeats (`Evaluation.EachGuardAtMostOnce`).
- The naive reading would run the same guard twice (`Evaluation.NaiveReadingEvaluatesTwice`).
- The marker never escapes a fallback other than `checkFallback()`
  (`Protocol.ApplyOrElse`).

**Overrides.** Dynamic dispatch of the overridden `orElse` and `andThen` is written as
the functions `OrElseWith` and `AndThenWith`, which match on the receiver:

- `empty().orElse(g)` is `g`;
- `OrElse.orElse` re-associates to the right;
- `OrElse.andThen` distributes over both branches.

**Quirks kept from the code.**

- `of(p, m).apply` never checks `p`.
- `OrElse.apply(a)` is `f1.applyOrElse(a, f2)`. On a chain without `end()`, the last
  branch's mapper therefore runs where its guard is false
  (`Combinators.LastBranchUnguarded`).
- `AndThen`'s domain ignores the continuation's domain.

**One carrier type.** All inputs and outputs share one carrier type `T`. Dafny
datatypes cannot hide `AndThen`'s intermediate type, so the continuation `k` is stored
as a partial function, and only its `apply` is used.

## Result types

The result types are the datatypes `Results.Option`, `Results.Either` and
`Results.Try`. The operations on them are functions in `OptionOps`, `EitherOps` and
`TryOps`. Each has contracts, plus lemmas relating them: duality, monad laws,
conversions, round trips.

Java exceptions are modelled as values:

- `Java.Throwable` is a class name and a message.
- A caller's closure that may throw returns `Java.Attempt`, either `Returned(v)` or
  `Threw(e)`.
- An operation that throws returns `Threw(e)` with the exact exception class and
  message the code uses.
- A Java `null` argument is `Java.Nullable`.

**Where the model follows the code rather than the Javadoc.**

- `Try.fold` does not redirect an exception thrown by `fb` to `fa`, although its doc
  says it does. `TryOps.Fold` returns `fb`'s `Threw` unchanged.
- `Try.failed` on a `Success` throws `NoSuchElementException`. The doc names
  `UnsupportedOperationException`.

## Model

Operation functions whose meaning is stated by a lemma have no row of their own. A row
for a `…Behaviour`, `…Laws` or `…Agree` lemma stands for the operation functions it
states, with the source lines in that row:

- `Protocol.IsDefinedAt` and `Protocol.Apply`: the rows `Protocol.EmptyBehaviour`,
  `Protocol.OrElseBehaviour`, `Protocol.AndThenBehaviour`, `Protocol.UnliftedApply`,
  `Protocol.MarkerAgreesWithNaive`, and the factory rows for `Pair`.
- `Combinators.OrElseWith`: `Combinators.OrElseWithBehaviour` and
  `Combinators.EmptyOverrides`; `Combinators.AndThenWith`: `Combinators.AndThenWithBehaviour`.
- `Combinators.End`: `Combinators.EndBehaviour`; `Combinators.Compose`:
  `Combinators.ComposeBehaviour`.
- `Combinators.Lift` and `Combinators.Call`: `Combinators.LiftBehaviour`;
  `Combinators.Unlift`: `Combinators.UnliftBehaviour`, `Combinators.UnliftOfLift`,
  `Combinators.LiftOfUnlift`; `Combinators.RunWith`: `Combinators.RunWithBehaviour`.
- `Combinators.OrElseOf`, `Combinators.OrElseFrom`, `Combinators.AndThenOf`,
  `Combinators.AndThenFrom`: the rows of the same name with `Behaviour`;
  `Combinators.OrEndWith` and `Combinators.OrDefault`: `Combinators.OrEndWithBehaviour`;
  `Combinators.Cond` and `Combinators.CondOpt`: `Combinators.CondBehaviour`.
- `Factories.Of`, `Factories.From`, `Factories.FromAll`, `Factories.WithEnd`: the rows
  of the same name with `Behaviour`; `Factories.FromWithEnd` and
  `Factories.FromAllWithEnd`: `Factories.FromWithEndBehaviour`.
- `EitherOps.IsLeft`, `EitherOps.IsRight`, `EitherOps.LeftGet`, `EitherOps.RightGet`:
  `EitherOps.SidesBehaviour`; `EitherOps.Fold` and `EitherOps.GetOrElse`:
  `EitherOps.MapFoldLaws`; `EitherOps.JoinLeft` and `EitherOps.JoinRight`:
  `EitherOps.JoinLaws`.
- `OptionOps.IsEmpty`: `OptionOps.IsEmptyBehaviour`.
- `TryOps.IsSuccess` and `TryOps.IsFailure`: `TryOps.FlagsBehaviour`.

| member | source | states |
|---|---|---|
| Protocol.ZeroApply | src/main/java/cc/domovoi/lambda/function/PartialFunctionCompanion.java:35-54 | the marker comes out of a fallback exactly when that fallback is `checkFallback()` |
| Protocol.ApplyOrElse | src/main/java/cc/domovoi/lambda/function/PartialFunctionCompanion.java:131-139 | whatever the variant, `applyOrElse` yields the marker only when it was given `checkFallback()` as its fallback |
| Protocol.MarkerAgreesWithNaive | src/main/java/cc/domovoi/lambda/function/PartialFunction.java:97-103 | for every variant and fallback, the marker-based `applyOrElse` equals "if `isDefinedAt(a)` then `apply(a)` else `zero(a)`" |
| Protocol.FallsThroughOutsideDomain | src/main/java/cc/domovoi/lambda/function/PartialFunctionCompanion.java:52-54 | outside the domain `applyOrElse` is the fallback's result; probing with `checkFallback()` gives the marker iff the input is outside the domain |
| Protocol.CheckFallbackIsMarker | src/main/java/cc/domovoi/ej/lambda/function/PartialFunctionCompanion.java:9-28 | `checkFallback()` is defined everywhere and returns the marker; `fallbackOccurred` recognises exactly the marker |
| Protocol.EmptyBehaviour | src/main/java/cc/domovoi/ej/lambda/function/PartialFunctionCompanion.java:34-46 | `empty()` is never defined, its `apply` raises `MatchError` carrying the input, and its `applyOrElse` is the fallback |
| Protocol.OrElseBehaviour | src/main/java/cc/domovoi/lambda/function/PartialFunctionCompanion.java:121-139 | `OrElse`'s domain is the union; `apply` is `f1`'s value where `f1` is defined and `f2`'s unguarded `apply` otherwise; `applyOrElse` hands the fallback to `f2` only |
| Protocol.AndThenBehaviour | src/main/java/cc/domovoi/lambda/function/PartialFunctionCompanion.java:171-189 | `AndThen` has `pf`'s domain, applies `k` to `pf`'s result, and outside `pf`'s domain `applyOrElse` is the fallback |
| Protocol.AbstractApply | src/main/java/cc/domovoi/ej/lambda/function/AbstractPartialFunction.java:27-30 | `applyOrElse(t, empty())` never yields the marker and equals `apply(t)` in the domain, `MatchError(t)` outside it |
| Protocol.UnliftedApply | src/main/java/cc/domovoi/ej/lambda/function/PartialFunctionCompanion.java:175-192 | `Unlifted(f).apply` is the inherited `applyOrElse(a, empty())`: `f(a)`'s content, or `MatchError(a)` when `f(a)` is empty |
| Combinators.OrElseWithBehaviour | src/main/java/cc/domovoi/lambda/function/PartialFunction.java:42-44 | `p.orElse(that)`, whichever override runs, is defined on the union; where `p` is defined it gives `p`'s result, elsewhere `that`'s |
| Combinators.ReassociationPreservesBehaviour | src/main/java/cc/domovoi/lambda/function/PartialFunctionCompanion.java:141-144 | `OrElse(f1, f2).orElse(h)` is `OrElse(f1, f2.orElse(h))` and behaves like the left-nested chain at every input |
| Combinators.OrElseWithKeepsRightLeaning | src/main/java/cc/domovoi/ej/lambda/function/PartialFunctionCompanion.java:112-115 | chaining with `orElse` keeps every `OrElse` node's left branch free of `OrElse` |
| Combinators.EndBehaviour | src/main/java/cc/domovoi/lambda/function/PartialFunction.java:105-113 | `end()` keeps the domain and the covered outputs and raises `MatchError` on an uncovered input |
| Combinators.LastBranchUnguarded | src/main/java/cc/domovoi/lambda/function/PartialFunctionCompanion.java:126-129 | on an input no branch covers, `p.orElseOf(g, m).apply` still returns `m(a)`; after `end()` it raises `MatchError` |
| Combinators.AndThenWithBehaviour | src/main/java/cc/domovoi/lambda/function/PartialFunction.java:46-59 | `andThen(k)`, including `OrElse`'s distributing override, keeps the domain and maps `a` to `k(this(a))`; `applyOrElse` likewise |
| Combinators.ComposeBehaviour | src/main/java/cc/domovoi/lambda/function/PartialFunction.java:73-77 | `f.compose(g)` has `g`'s domain and maps `a` to `f(g(a))` |
| Combinators.LiftBehaviour | src/main/java/cc/domovoi/lambda/function/PartialFunction.java:79-87 | `lift()(a)` is present iff `isDefinedAt(a)` and then holds `apply(a)` |
| Combinators.LiftedPresentIffNoFallback | src/main/java/cc/domovoi/lambda/function/PartialFunctionCompanion.java:200-208 | `Lifted(pf).apply(a)` is empty exactly when `pf.applyOrElse(a, checkFallback())` fell through |
| Combinators.UnliftBehaviour | src/main/java/cc/domovoi/lambda/function/PartialFunctionCompanion.java:219-228 | `Unlifted(f)` is defined iff `f(a)` is present, and `apply` returns its content |
| Combinators.UnliftOfLift | src/main/java/cc/domovoi/lambda/function/PartialFunctionCompanion.java:96-102 | `unlifted(pf.lift())` is `pf` itself for every non-empty `pf` and behaves like `pf` for `empty()` |
| Combinators.LiftOfUnlift | src/main/java/cc/domovoi/lambda/function/PartialFunctionCompanion.java:230-233 | `Unlifted(f).lift()` returns `f` itself |
| Combinators.RunWithBehaviour | src/main/java/cc/domovoi/lambda/function/PartialFunction.java:125-135 | `runWith(action)(x)` returns `isDefinedAt(x)` and passes `apply(x)` to the action only when defined |
| Combinators.EmptyOverrides | src/main/java/cc/domovoi/lambda/function/PartialFunctionCompanion.java:72-93 | `empty().orElse(g)` is `g`, `empty().andThen(k)` is `empty()`, `empty().lift()` is always empty, and `empty().runWith` is always false |
| Combinators.OrElseOfBehaviour | src/main/java/cc/domovoi/lambda/function/PartialFunction.java:146-148 | `orElseOf(p, m)` is defined on the union with `p`, and the first branch wins where both hold |
| Combinators.OrElseFromBehaviour | src/main/java/cc/domovoi/ej/lambda/function/PartialFunction.java:63-65 | `orElseFrom(f)` is defined on the union with where `f` is present, and this function wins where both hold |
| Combinators.AndThenOfBehaviour | src/main/java/cc/domovoi/lambda/function/PartialFunction.java:173-188 | `andThenOf` / `andThenFrom` keep this function's domain and feed its result to the second function |
| Combinators.OrEndWithBehaviour | src/main/java/cc/domovoi/lambda/function/PartialFunction.java:196-208 | `orEndWith(b)` / `orDefault(s)` are defined everywhere and return `b` / `s()` exactly where this function is undefined |
| Combinators.CondBehaviour | src/main/java/cc/domovoi/lambda/function/PartialFunctionCompanion.java:246-265 | `cond(x, pf)` is `pf(x)` when defined and false otherwise, stated for a boolean carrier; `condOpt(x, pf)` is present iff `pf` is defined at `x`, and then holds `pf(x)` |
| Factories.OfBehaviour | src/main/java/cc/domovoi/ej/lambda/function/PartialFunctions.java:33-45 | `of(p, m)` has domain `p` and an unguarded `apply` of `m`; its `applyOrElse` does respect `p` |
| Factories.FromBehaviour | src/main/java/cc/domovoi/ej/lambda/function/PartialFunctions.java:55-57 | `from(f)` is defined iff `f(a)` is present and returns its content |
| Factories.FromAllBehaviour | src/main/java/cc/domovoi/ej/lambda/function/PartialFunctions.java:67-69 | `fromAll([])` is `empty()`; otherwise it is defined where some function is present, and the first such function in order supplies the result |
| Factories.FromAllRightLeaning | src/main/java/cc/domovoi/ej/lambda/function/PartialFunctions.java:67-69 | reducing with `orElse` builds a chain whose `OrElse` nodes lean to the right |
| Factories.WithEndBehaviour | src/main/java/cc/domovoi/ej/lambda/function/PartialFunctions.java:80-82 | `withEnd(p, m)` has domain `p`; `apply` is `m(a)` when `p(a)` and `MatchError` otherwise |
| Factories.FromWithEndBehaviour | src/main/java/cc/domovoi/ej/lambda/function/PartialFunctions.java:92-106 | `fromWithEnd` / `fromAllWithEnd` keep the domain of `from` / `fromAll` and raise `MatchError` on an uncovered input |
| Evaluation.EachGuardAtMostOnce | src/main/java/cc/domovoi/lambda/function/PartialFunctionCompanion.java:13-33 | the guard positions one `applyOrElse` or `apply` evaluates are pairwise distinct and belong to the function or its fallback, so no guard runs twice |
| Evaluation.AndThenSkipsContinuation | src/main/java/cc/domovoi/lambda/function/PartialFunctionCompanion.java:181-189 | outside `pf`'s domain, `AndThen.applyOrElse` evaluates `pf`'s probe and then the fallback, and none of `k`'s guards |
| Evaluation.NaiveReadingEvaluatesTwice | src/main/java/cc/domovoi/lambda/function/PartialFunction.java:97-103 | for a covered input of `OrElse(of(g, m), f2)`, the marker route evaluates `g` once, while "isDefinedAt then apply" evaluates the same guard position twice |
| Scenarios.HalvesOneToFive | src/test/java/cc/domovoi/lambda/test/PartialFunctionTest.java:16-38 | the `of`/`orElseOf`/`end` chain and the `from`/`orElseFrom`/`end` chain both split 1..5 into "less than 3" and "larger than / equal 3" |
| Scenarios.ClassifyOneToFive | src/test/java/cc/domovoi/lambda/test/PartialFunctionTest.java:40-52 | the `orEndWith` chain maps 1..5 to less, less, equal, larger, larger |
| Scenarios.PolarityScenario | src/test/java/cc/domovoi/lambda/test/PartialFunctionTest.java:54-64 | the positive/negative `end()` chain returns its two strings on 1 and -1 and raises `MatchError(0)` on 0 |
| Scenarios.SignScenario | src/test/java/cc/domovoi/lambda/test/PartialFunctionTest.java:66-73 | the sign chain of the `andThen` test maps 5 to 1 and -5 to -1 and raises `MatchError(0)` on 0 |
| Scenarios.AndThenAndComposeScenario | src/test/java/cc/domovoi/lambda/test/PartialFunctionTest.java:66-82 | `andThen` and `compose` of the sign and describe chains send 42 to "elem is 1" and -42 to "elem is -1" |
| EitherOps.LeftApply | src/main/java/cc/domovoi/collection/util/Left.java:11-23 | `Left.apply(l)` is a left holding `l` |
| EitherOps.RightApply | src/main/java/cc/domovoi/collection/util/Right.java:11-23 | `Right.apply(r)` is a right holding `r` |
| EitherOps.SidesBehaviour | src/main/java/cc/domovoi/collection/util/Right.java:17-33 | each side reports itself through `isLeft`/`isRight`, and `get` returns the stored value |
| EitherOps.Contains | src/main/java/cc/domovoi/collection/util/Either.java:44-46 | `contains(r)` holds exactly for `Right(r)` |
| EitherOps.Exists | src/main/java/cc/domovoi/collection/util/Either.java:55-57 | false on a left, `p(x)` on `Right(x)` |
| EitherOps.Forall | src/main/java/cc/domovoi/collection/util/Either.java:118-120 | true on a left, `p(x)` on `Right(x)` |
| EitherOps.ExistsForallDuality | src/main/java/cc/domovoi/collection/util/Either.java:44-57 | `exists(p)` is `!forall(!p)`, and `contains(r)` is `exists(== r)` |
| EitherOps.FilterOrElse | src/main/java/cc/domovoi/collection/util/Either.java:72-78 | the result is a right iff the input is a right satisfying `p`; a kept right and every left are unchanged; a right failing `p` becomes `Left(zero())` |
| EitherOps.FlatMap | src/main/java/cc/domovoi/collection/util/Either.java:87-93 | a left passes through unchanged; `Right(x)` becomes `f(x)` |
| EitherOps.FlatMapLaws | src/main/java/cc/domovoi/collection/util/Either.java:87-93 | `flatMap` satisfies the three monad laws with `Right` as unit |
| EitherOps.Map | src/main/java/cc/domovoi/collection/util/Either.java:218-224 | `Right(x)` becomes `Right(f(x))`, a left is unchanged |
| EitherOps.MapFoldLaws | src/main/java/cc/domovoi/collection/util/Either.java:87-145 | `map(f)` is `flatMap(Right ∘ f)`; `fold` applies `fl` on a left and `fr` on a right; `getOrElse` is a fold |
| EitherOps.JoinLaws | src/main/java/cc/domovoi/collection/util/Either.java:155-183 | `joinRight` is `flatMap(identity)`, `joinLeft` is the fold that flattens a left, and `joinLeft` is `joinRight` mirrored by `swap` |
| EitherOps.Swap | src/main/java/cc/domovoi/collection/util/Either.java:231-237 | `swap` changes the side |
| EitherOps.SwapInvolution | src/main/java/cc/domovoi/collection/util/Either.java:231-237 | `swap` moves the value to the other side, and swapping twice restores the original |
| EitherOps.LeftProjection | src/main/java/cc/domovoi/collection/util/Either.java:190-196 | `left()` returns the either itself on a left and raises `ClassCastException` otherwise |
| EitherOps.RightProjection | src/main/java/cc/domovoi/collection/util/Either.java:203-209 | `right()` returns the either itself on a right and raises `ClassCastException` otherwise |
| EitherOps.ToOptional | src/main/java/cc/domovoi/collection/util/Either.java:246-252 | present iff right |
| EitherOps.ToOption | src/main/java/cc/domovoi/collection/util/Either.java:254-261 | `Some` iff right |
| EitherOps.ToList | src/main/java/cc/domovoi/collection/util/Either.java:270-276 | at most one element |
| EitherOps.ToTry | src/main/java/cc/domovoi/collection/util/Either.java:278-284 | `Success` iff right |
| EitherOps.ConversionsAgree | src/main/java/cc/domovoi/collection/util/Either.java:246-284 | a right converts to `Success`/`Some`/present/singleton of its value; a left to `Failure(ClassCastException("This object isn't instance of Right"))`/`None`/empty/empty list |
| EitherOps.ProductArity | src/main/java/cc/domovoi/collection/util/Either.java:300-303 | always 1 |
| EitherOps.ProductElement | src/main/java/cc/domovoi/collection/util/Either.java:305-316 | index 0 yields the held value, tagged with its side, any other index raises `IndexOutOfBoundsException` |
| EitherOps.ToString | src/main/java/cc/domovoi/collection/util/Left.java:35-38 | renders `Left(…)` / `Right(…)` |
| OptionOps.SomeApply | src/main/java/cc/domovoi/collection/util/Some.java:9-14 | `Some.apply(null)` raises `IllegalArgumentException`; a non-null value gives `Some` of it |
| OptionOps.Unit | src/main/java/cc/domovoi/collection/util/None.java:9-11 | `None.unit()` is empty |
| OptionOps.IsEmptyBehaviour | src/main/java/cc/domovoi/collection/util/None.java:13-16 | `Some.isEmpty` is false and `None.isEmpty` is true |
| OptionOps.From | src/main/java/cc/domovoi/collection/util/Option.java:20-27 | a present `Optional` of `v` gives `Some(v)`, an empty one `None` |
| OptionOps.ToOptional | src/main/java/cc/domovoi/collection/util/Option.java:126-133 | `Some(v)` gives a present `Optional` of `v`, `None` an empty one |
| OptionOps.FromToOptionalRoundTrip | src/main/java/cc/domovoi/collection/util/Option.java:20-27 | `from` and `toOptional` are mutually inverse |
| OptionOps.Get | src/main/java/cc/domovoi/collection/util/Option.java:29-36 | returns the value on `Some`, raises `NoSuchElementException("No value present")` on `None` |
| OptionOps.Contains | src/main/java/cc/domovoi/collection/util/Option.java:38-40 | holds exactly for `Some(elem)` |
| OptionOps.Exist | src/main/java/cc/domovoi/collection/util/Option.java:42-44 | false on `None`, `p(v)` on `Some(v)` |
| OptionOps.Forall | src/main/java/cc/domovoi/collection/util/Option.java:81-83 | true on `None`, `p(v)` on `Some(v)` |
| OptionOps.ExistForallDuality | src/main/java/cc/domovoi/collection/util/Option.java:38-44 | `exist(p)` is `!forall(!p)`, and `contains(e)` is `exist(== e)` |
| OptionOps.Filter | src/main/java/cc/domovoi/collection/util/Option.java:46-53 | keeps `Some(v)` unchanged iff `p(v)`, otherwise `None` |
| OptionOps.FilterNot | src/main/java/cc/domovoi/collection/util/Option.java:55-57 | the result is a `Some` iff the input is `Some(v)` with `!p(v)`, and a kept `Some` is the input unchanged |
| OptionOps.FilterLaws | src/main/java/cc/domovoi/collection/util/Option.java:46-57 | `filter` is idempotent, and on a `Some` exactly one of `filter` / `filterNot` keeps it |
| OptionOps.FlatMap | src/main/java/cc/domovoi/collection/util/Option.java:59-66 | `None` stays `None` |
| OptionOps.Flatten | src/main/java/cc/domovoi/collection/util/Option.java:68-70 | `flatten(Some(o))` is `o`, `flatten(None)` is `None` |
| OptionOps.Map | src/main/java/cc/domovoi/collection/util/Option.java:100-102 | `Some(v)` becomes `Some(op(v))`, `None` stays `None` |
| OptionOps.FlatMapLaws | src/main/java/cc/domovoi/collection/util/Option.java:59-102 | `flatMap` satisfies the three monad laws and `map` the two functor laws |
| OptionOps.Fold | src/main/java/cc/domovoi/collection/util/Option.java:72-79 | `None` folds to the zero, `Some(v)` to `op(v)` |
| OptionOps.GetOrElse | src/main/java/cc/domovoi/collection/util/Option.java:91-98 | the value on `Some`, the supplier's value on `None` |
| OptionOps.OrElse | src/main/java/cc/domovoi/collection/util/Option.java:108-115 | unchanged on `Some`, the supplier's option on `None` |
| OptionOps.FoldLaws | src/main/java/cc/domovoi/collection/util/Option.java:72-115 | `getOrElse` and `orElse` are folds |
| OptionOps.ToList | src/main/java/cc/domovoi/collection/util/Option.java:153-160 | one element holding the value on `Some`, empty on `None` |
| OptionOps.ProductCollection | src/main/java/cc/domovoi/collection/util/Option.java:176-184 | `[v]` on `Some(v)`, empty on `None` |
| OptionOps.ProductArity | src/main/java/cc/domovoi/collection/util/Product.java:18-21 | the size of the product collection: 1 on `Some`, 0 on `None` |
| OptionOps.ProductElement | src/main/java/cc/domovoi/collection/util/Product.java:23-26 | `productCollection().get(n)`: `v` at index 0 of `Some(v)`; any other index, and every index of `None`, raises `IndexOutOfBoundsException` |
| OptionOps.ProductCollectionIsList | src/main/java/cc/domovoi/collection/util/Option.java:153-184 | the product collection equals `toList()` |
| OptionOps.ToLeft | src/main/java/cc/domovoi/collection/util/Option.java:135-142 | a left iff `Some` |
| OptionOps.ToRight | src/main/java/cc/domovoi/collection/util/Option.java:144-151 | a right iff `Some` |
| OptionOps.ToEitherLaws | src/main/java/cc/domovoi/collection/util/Option.java:135-151 | `toLeft` is `toRight` swapped, `toRight` then `toOption` restores the option, and the supplier fills the other side |
| OptionOps.ToString | src/main/java/cc/domovoi/collection/util/Some.java:21-24 | renders `Some(…)` / `None` |
| TryOps.Apply | src/main/java/cc/domovoi/collection/util/Try.java:47-53 | `Success(v)` when the supplier returns `v`, `Failure(e)` when it throws `e` |
| TryOps.Failed | src/main/java/cc/domovoi/collection/util/Try.java:55-68 | `Failure(e)` becomes `Success(e)`; a `Success` becomes `Failure(NoSuchElementException)` |
| TryOps.Filter | src/main/java/cc/domovoi/collection/util/Try.java:76-82 | a success survives iff `p` holds and is then unchanged; a success failing `p` becomes `Failure(AssertionError("Predicate Failure"))`; a failure passes through unchanged |
| TryOps.FlatMap | src/main/java/cc/domovoi/collection/util/Try.java:91-97 | a failure propagates unchanged |
| TryOps.Flatten | src/main/java/cc/domovoi/collection/util/Try.java:107-109 | `Success(t)` flattens to `t`, a failure propagates |
| TryOps.Map | src/main/java/cc/domovoi/collection/util/Try.java:186-193 | a failure propagates; on `Success(v)` the result is `Try.apply(f(v))`, so an exception from `f` becomes a failure |
| TryOps.FlatMapLaws | src/main/java/cc/domovoi/collection/util/Try.java:91-193 | `flatMap` satisfies the three monad laws; `map` is `flatMap` through `Try.apply`, and mapping the identity changes nothing |
| TryOps.Fold | src/main/java/cc/domovoi/collection/util/Try.java:111-127 | `fb` on a success, `fa` on a failure; an exception from `fb` propagates |
| TryOps.Get | src/main/java/cc/domovoi/collection/util/Try.java:147-153 | the value on success, `NoSuchElementException` on failure |
| TryOps.GetOrElse | src/main/java/cc/domovoi/collection/util/Try.java:163-169 | the value on success, the supplier's value on failure |
| TryOps.GetOrElseValue | src/main/java/cc/domovoi/collection/util/Try.java:171-177 | the value on success, the given default on failure |
| TryOps.ApplyFoldRoundTrip | src/main/java/cc/domovoi/collection/util/Try.java:47-127 | folding `Try.apply(s)` back into returned/thrown restores `s`; `getOrElse` and `get` agree with `fold` |
| TryOps.OrElse | src/main/java/cc/domovoi/collection/util/Try.java:201-207 | unchanged on success, the supplier's try on failure |
| TryOps.Recover | src/main/java/cc/domovoi/collection/util/Try.java:216-222 | unchanged on success, `Try.apply(f(e))` on `Failure(e)` |
| TryOps.RecoverWith | src/main/java/cc/domovoi/collection/util/Try.java:231-237 | unchanged on success, `f(e)` on `Failure(e)` |
| TryOps.Transform | src/main/java/cc/domovoi/collection/util/Try.java:283-289 | `s(v)` on `Success(v)`, `f(e)` on `Failure(e)` |
| TryOps.TransformLaws | src/main/java/cc/domovoi/collection/util/Try.java:201-289 | `flatMap`, `recoverWith`, `recover` and `orElse` are all instances of `transform` |
| TryOps.ToEither | src/main/java/cc/domovoi/collection/util/Try.java:244-250 | `Success(v)` gives `Right(v)`, `Failure(e)` gives `Left(e)` |
| TryOps.ToOptional | src/main/java/cc/domovoi/collection/util/Try.java:257-263 | `Success(v)` gives a present `Optional` of `v`, a failure an empty one |
| TryOps.ToOption | src/main/java/cc/domovoi/collection/util/Try.java:265-272 | `Success(v)` gives `Some(v)`, a failure `None` |
| TryOps.ConversionLaws | src/main/java/cc/domovoi/collection/util/Try.java:244-272 | the three conversions agree; `toEither` then `Either.toTry` restores a try exactly when it is a success or already carries that `ClassCastException`, and likewise the other way |
| TryOps.ProductCollection | src/main/java/cc/domovoi/collection/util/Try.java:324-331 | `[v]` on `Success(v)`, empty on a failure |
| TryOps.ProductArity | src/main/java/cc/domovoi/collection/util/Try.java:306-313 | 1 on success, 0 on failure, the size of the product collection |
| TryOps.ProductElement | src/main/java/cc/domovoi/collection/util/Try.java:315-322 | index 0 of `Success(v)` yields `v`; any other index, and every index of a failure, raises `IndexOutOfBoundsException` |
| TryOps.ToString | src/main/java/cc/domovoi/collection/util/Success.java:24-27 | renders `Success(…)` / `Failure(…)` |
| TryOps.FlagsBehaviour | src/main/java/cc/domovoi/collection/util/Failure.java:14-22 | `isSuccess` / `isFailure` report the variant |

## Left out

- `Promise`: asynchronous completion over `CompletableFuture` is not part of this model.
- `EJCollector`, `EJLambda` and both `EJFunction` files: thin wrappers over the JDK with no logic of their own.
- `MatchError`: its message is built by reflection. The model keeps only the input it carries.
- `equals`, `hashCode` and `Product`/`ProductLike` equality: these compare hash codes and use Java object semantics. Dafny's structural equality stands in for them.
- `Either.productCollection`: it holds the `null` of the unused side, which the model has no value for.
- `Option.orNull` and `Option.nonEmpty`, and `foreach` on every type: they exist only to return `null` or to run side effects.
- Java `null` is modelled only where an operation tests for it (`Some.apply`). Elsewhere, values are non-null.
- Caller-supplied functions are total and pure. The exceptions are those the source wraps in a `try`, or whose exception it propagates into a result; those return `Attempt`.
- Combinators.UnliftOfLift: `new Unlifted(lifted)` built directly around a `Lifted` cannot be represented, because `Unlifted` holds only a plain function. Only `unlifted(...)`, which unwraps it, is modelled.
- The marker partial function `fallback_pf` is not a value of `PF`. It can be passed only as a fallback, which is how the source uses it.
- All inputs and outputs share one carrier type. `AndThen`'s continuation is stored as a partial function, and the unchecked casts in `andThen`/`compose` that reject a plain `Function` at run time are not modelled.
- Stack depth, laziness and performance remarks in the Javadoc, and `Serializable`, are not modelled.
- `IndexOutOfBoundsException` is modelled with an empty message. `Either` and `Try` pass none; for `Option` the message the JDK list builds is not modelled.
- OptionOps.FlatMap and TryOps.FlatMap: each contract states only the case that does not call the caller's function. The other case is the left-identity clause of the `FlatMapLaws` lemma beside it.
- Combinators.Cond: `cond` is stated for a partial function over booleans. With one carrier type, its input must then also be a boolean, while the Java method takes any input type.
- EitherOps.ProductElement: Java returns the held value as an untyped `Object`. The model encodes that `Object` as the value tagged with its side, that is, the either itself.
