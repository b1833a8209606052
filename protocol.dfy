/**
 * The partial-function protocol: a closed set of immutable node kinds, each with a
 * domain test (`isDefinedAt`), an application step (`apply`) and the primary entry
 * point `applyOrElse`, together with the fallback marker that composite nodes use to
 * learn whether an inner function fell through.
 *
 * One carrier type `T` serves as both input and output type, so that `AndThen` can
 * store its continuation as a partial function without an existential type.
 */
module Protocol {
  import opened Java

  /** A partial function over `T`. */
  datatype PF<!T> =
    | Pair(guard: T -> bool, mapper: T -> T)   // `PartialFunctions.of(isDefinedAt, apply)`
    | Empty                                    // `PartialFunctionCompanion.empty()`
    | OrElse(f1: PF<T>, f2: PF<T>)             // tries f1, falls back to f2
    | AndThen(pf: PF<T>, k: PF<T>)             // pf's domain, k applied to pf's result
    | Unlifted(f: T -> Optional<T>)            // defined where f's result is present

  /** The fallback argument `zero` of `applyOrElse`: the check fallback (whose result is
      the marker itself), a plain function, or a partial function whose unguarded
      `apply` is used as the fallback. */
  datatype Zero<!T> = CheckFallback | Fn(g: T -> T) | Pf(q: PF<T>)

  /** What `applyOrElse` yields: a value, the marker (the inner function fell through
      to the check fallback), or a `MatchError` raised on the given input. Because the
      marker is a constructor of its own, no value can ever be mistaken for it. */
  datatype Res<T> = Hit(value: T) | Fell | Raised(input: T)

  /** What `apply` yields: a value, or a `MatchError` carrying the unmatched input. */
  datatype Outcome<+R, +X> = Ok(value: R) | MatchErr(input: X)

  /** `fallbackOccurred(z)`: the result is the marker. */
  predicate FallbackOccurred<T>(z: Res<T>) {
    z.Fell?
  }

  /** Number of nodes; the termination measure of the evaluation functions. */
  function Size<T>(p: PF<T>): (n: nat)
    ensures n >= 1
  {
    match p
    case OrElse(f1, f2) => 1 + Size(f1) + Size(f2)
    case AndThen(pf, k) => 1 + Size(pf) + Size(k)
    case _ => 1
  }

  function ZeroSize<T>(zero: Zero<T>): nat {
    match zero
    case Pf(q) => Size(q)
    case _ => 0
  }

  /** An `apply` outcome seen as an `applyOrElse` result. */
  function AsRes<T>(o: Outcome<T, T>): (r: Res<T>)
    ensures !FallbackOccurred(r)
  {
    match o
    case Ok(v) => Hit(v)
    case MatchErr(x) => Raised(x)
  }

  /** An `applyOrElse` result that is not the marker, seen as an `apply` outcome. */
  function AsOutcome<T>(r: Res<T>): Outcome<T, T>
    requires !FallbackOccurred(r)
  {
    match r
    case Hit(v) => Ok(v)
    case Raised(x) => MatchErr(x)
  }

  /** `isDefinedAt(a)`. */
  function IsDefinedAt<T>(p: PF<T>, a: T): bool {
    match p
    case Pair(guard, _) => guard(a)
    case Empty => false
    case OrElse(f1, f2) => IsDefinedAt(f1, a) || IsDefinedAt(f2, a)
    case AndThen(pf, _) => IsDefinedAt(pf, a)
    case Unlifted(f) => f(a).Present?
  }

  /** `apply(a)`. A pair applies its mapper unguarded; `empty()` raises `MatchError(a)`;
      `OrElse` is `f1.applyOrElse(a, f2)`, so f2's unguarded `apply` is the fallback;
      `AndThen` is `k.apply(pf.apply(a))`; `Unlifted` inherits `applyOrElse(a, empty())`. */
  function Apply<T>(p: PF<T>, a: T): Outcome<T, T>
    decreases Size(p), 1
  {
    match p
    case Pair(_, mapper) => Ok(mapper(a))
    case Empty => MatchErr(a)
    case OrElse(f1, f2) => AsOutcome(ApplyOrElse(f1, a, Pf(f2)))
    case AndThen(pf, k) =>
      (match Apply(pf, a)
       case Ok(b) => Apply(k, b)
       case MatchErr(x) => MatchErr(x))
    case Unlifted(f) =>
      (match f(a)
       case Present(v) => Ok(v)
       case Absent => MatchErr(a))     // `empty().apply(a)`
  }

  /** Calling the fallback `zero` on `a`. The check fallback is defined everywhere and
      returns the marker. */
  function ZeroApply<T>(zero: Zero<T>, a: T): (r: Res<T>)
    ensures FallbackOccurred(r) <==> zero.CheckFallback?
    decreases ZeroSize(zero), 2
  {
    match zero
    case CheckFallback => Fell
    case Fn(g) => Hit(g(a))
    case Pf(q) => AsRes(Apply(q, a))
  }

  /** `applyOrElse(a, zero)`. Pairs, `empty()` and `AndThen`'s guard step use the default
      "if defined then apply else zero"; `OrElse` and `AndThen` probe their inner function
      with the check fallback and test the result for the marker; `Unlifted` calls its
      function once and runs `zero` only when the result is absent. The marker comes out
      only when `zero` is the check fallback. */
  function ApplyOrElse<T>(p: PF<T>, a: T, zero: Zero<T>): (r: Res<T>)
    ensures FallbackOccurred(r) ==> zero.CheckFallback?
    decreases Size(p) + ZeroSize(zero), 0
  {
    match p
    case Pair(guard, mapper) => if guard(a) then Hit(mapper(a)) else ZeroApply(zero, a)
    case Empty => ZeroApply(zero, a)
    case OrElse(f1, f2) =>
      var z := ApplyOrElse(f1, a, CheckFallback);
      if !FallbackOccurred(z) then z else ApplyOrElse(f2, a, zero)
    case AndThen(pf, k) =>
      var z := ApplyOrElse(pf, a, CheckFallback);
      (match z
       case Hit(b) => AsRes(Apply(k, b))
       case Fell => ZeroApply(zero, a)
       case Raised(x) => Raised(x))
    case Unlifted(f) =>
      (match f(a)
       case Present(v) => Hit(v)
       case Absent => ZeroApply(zero, a))
  }

  /** The marker protocol agrees with the naive reading of `applyOrElse`: the result is
      `apply(a)` where the function is defined, and `zero(a)` elsewhere. */
  lemma {:induction false} MarkerAgreesWithNaive<T>(p: PF<T>, a: T, zero: Zero<T>)
    ensures ApplyOrElse(p, a, zero)
         == if IsDefinedAt(p, a) then AsRes(Apply(p, a)) else ZeroApply(zero, a)
    decreases Size(p)
  {
    match p
    case Pair(_, _) =>
    case Empty =>
    case OrElse(f1, f2) =>
      MarkerAgreesWithNaive(f1, a, CheckFallback);
      MarkerAgreesWithNaive(f1, a, Pf(f2));
      MarkerAgreesWithNaive(f2, a, zero);
    case AndThen(pf, k) =>
      MarkerAgreesWithNaive(pf, a, CheckFallback);
    case Unlifted(_) =>
  }

  /** Outside the domain `applyOrElse` runs the fallback and nothing else; probing with
      the check fallback yields the marker exactly when the function is not defined. */
  lemma FallsThroughOutsideDomain<T>(p: PF<T>, a: T, zero: Zero<T>)
    ensures !IsDefinedAt(p, a) ==> ApplyOrElse(p, a, zero) == ZeroApply(zero, a)
    ensures FallbackOccurred(ApplyOrElse(p, a, CheckFallback)) <==> !IsDefinedAt(p, a)
  {
    MarkerAgreesWithNaive(p, a, zero);
    MarkerAgreesWithNaive(p, a, CheckFallback);
  }

  /** `checkFallback()` is defined at every input and returns the marker itself, and
      `fallbackOccurred` recognises exactly the marker. */
  lemma CheckFallbackIsMarker<T>(a: T, z: Res<T>)
    ensures ZeroApply(CheckFallback, a) == Fell
    ensures FallbackOccurred(z) <==> z == Fell
  {
  }

  /** `empty()` is defined nowhere, its `apply` raises `MatchError` on the input, and its
      `applyOrElse` is its fallback. */
  lemma EmptyBehaviour<T>(a: T, zero: Zero<T>)
    ensures !IsDefinedAt(Empty, a)
    ensures Apply(Empty, a) == MatchErr(a)
    ensures ApplyOrElse(Empty, a, zero) == ZeroApply(zero, a)
  {
  }

  /** `OrElse`: its domain is the union; `apply` gives f1's outcome where f1 is defined
      and f2's unguarded `apply` everywhere else, even where f2 is not defined either. */
  lemma OrElseBehaviour<T>(f1: PF<T>, f2: PF<T>, a: T, zero: Zero<T>)
    ensures IsDefinedAt(OrElse(f1, f2), a) == (IsDefinedAt(f1, a) || IsDefinedAt(f2, a))
    ensures Apply(OrElse(f1, f2), a)
         == if IsDefinedAt(f1, a) then Apply(f1, a) else Apply(f2, a)
    ensures ApplyOrElse(OrElse(f1, f2), a, zero)
         == if IsDefinedAt(f1, a) then AsRes(Apply(f1, a)) else ApplyOrElse(f2, a, zero)
  {
    MarkerAgreesWithNaive(f1, a, Pf(f2));
    MarkerAgreesWithNaive(f1, a, CheckFallback);
  }

  /** `AndThen`: pf's domain, k's domain ignored; `apply` is `k.apply(pf.apply(a))`, and
      `applyOrElse` returns `zero(a)` where pf is not defined. */
  lemma AndThenBehaviour<T>(pf: PF<T>, k: PF<T>, a: T, zero: Zero<T>)
    ensures IsDefinedAt(AndThen(pf, k), a) == IsDefinedAt(pf, a)
    ensures Apply(AndThen(pf, k), a)
         == match Apply(pf, a) case Ok(b) => Apply(k, b) case MatchErr(x) => MatchErr(x)
    ensures !IsDefinedAt(pf, a) ==> ApplyOrElse(AndThen(pf, k), a, zero) == ZeroApply(zero, a)
  {
    MarkerAgreesWithNaive(pf, a, CheckFallback);
  }

  /** The `apply` that `OrElse` and `Unlifted` inherit from `AbstractPartialFunction` is
      `applyOrElse(t, empty())`: the value where defined, `MatchError(t)` elsewhere. */
  lemma AbstractApply<T>(p: PF<T>, t: T)
    ensures !FallbackOccurred(ApplyOrElse(p, t, Pf(Empty)))
    ensures AsOutcome(ApplyOrElse(p, t, Pf(Empty)))
         == if IsDefinedAt(p, t) then Apply(p, t) else MatchErr(t)
  {
    MarkerAgreesWithNaive(p, t, Pf(Empty));
  }

  /** `Unlifted(f).apply(a)` is exactly the inherited `applyOrElse(a, empty())`: f's
      present value, or `MatchError(a)`. */
  lemma UnliftedApply<T>(f: T -> Optional<T>, a: T)
    ensures Apply(Unlifted(f), a) == AsOutcome(ApplyOrElse(Unlifted(f), a, Pf(Empty)))
    ensures Apply(Unlifted(f), a) == match f(a) case Present(v) => Ok(v) case Absent => MatchErr(a)
  {
  }
}
