/**
 * The combinators of the protocol: `orElse` and `andThen` with the overrides of
 * `empty()` and `OrElse`, `compose`, `end`, the builder sugar (`orElseOf`,
 * `orElseFrom`, `andThenOf`, `andThenFrom`, `orEndWith`, `orDefault`), the
 * `lift`/`unlift` adapters, `runWith`, `cond` and `condOpt`.
 */
module Combinators {
  import opened Java
  import opened Protocol

  /** A function returning an optional result: either the `Lifted` adapter around a
      partial function, or any other function. */
  datatype OptFn<!T> = Lifted(pf: PF<T>) | Plain(f: T -> Optional<T>)

  /** Calling an optional-returning function. `Lifted.apply` probes its partial function
      with the check fallback and returns empty exactly when the marker comes back. */
  function Call<T>(fn: OptFn<T>, a: T): Outcome<Optional<T>, T> {
    match fn
    case Plain(f) => Ok(f(a))
    case Lifted(pf) =>
      (match ApplyOrElse(pf, a, CheckFallback)
       case Hit(z) => Ok(Present(z))
       case Fell => Ok(Absent)
       case Raised(x) => MatchErr(x))
  }

  /** `Optional.of` applied to an `apply` outcome. */
  function PresentOf<T>(o: Outcome<T, T>): Outcome<Optional<T>, T> {
    match o
    case Ok(v) => Ok(Present(v))
    case MatchErr(x) => MatchErr(x)
  }

  /** `k.apply` applied to an `apply` outcome; a `MatchError` propagates. */
  function Then<T>(o: Outcome<T, T>, k: PF<T>): Outcome<T, T> {
    match o
    case Ok(b) => Apply(k, b)
    case MatchErr(x) => MatchErr(x)
  }

  /** p and q agree at a: same domain test, same `apply`, same `applyOrElse` for the
      given fallback. */
  ghost predicate SameAt<T>(p: PF<T>, q: PF<T>, a: T, zero: Zero<T>) {
    && IsDefinedAt(p, a) == IsDefinedAt(q, a)
    && Apply(p, a) == Apply(q, a)
    && ApplyOrElse(p, a, zero) == ApplyOrElse(q, a, zero)
  }

  // ---------------------------------------------------------------- orElse

  /** `p.orElse(that)`: `empty()` returns `that` itself, an `OrElse` node re-associates
      to the right, every other node builds `OrElse(p, that)`. */
  function OrElseWith<T>(p: PF<T>, that: PF<T>): PF<T> {
    match p
    case Empty => that
    case OrElse(f1, f2) => OrElse(f1, OrElseWith(f2, that))
    case _ => OrElse(p, that)
  }

  /** `orElse` has the union domain, this function wins where both are defined, and
      `apply` falls to `that`'s `apply` elsewhere. */
  lemma {:induction false} OrElseWithBehaviour<T>(p: PF<T>, that: PF<T>, a: T, zero: Zero<T>)
    ensures IsDefinedAt(OrElseWith(p, that), a) == (IsDefinedAt(p, a) || IsDefinedAt(that, a))
    ensures Apply(OrElseWith(p, that), a)
         == if IsDefinedAt(p, a) then Apply(p, a) else Apply(that, a)
    ensures ApplyOrElse(OrElseWith(p, that), a, zero)
         == if IsDefinedAt(p, a) then AsRes(Apply(p, a)) else ApplyOrElse(that, a, zero)
  {
    match p
    case Empty =>
      MarkerAgreesWithNaive(that, a, zero);
    case OrElse(f1, f2) =>
      OrElseWithBehaviour(f2, that, a, zero);
      OrElseBehaviour(f1, OrElseWith(f2, that), a, zero);
      OrElseBehaviour(f1, f2, a, zero);
    case _ =>
      OrElseBehaviour(p, that, a, zero);
  }

  /** The right re-association `OrElse(f1, f2).orElse(h) = OrElse(f1, f2.orElse(h))`
      behaves exactly like the left-nested `OrElse(OrElse(f1, f2), h)`. */
  lemma ReassociationPreservesBehaviour<T>(f1: PF<T>, f2: PF<T>, h: PF<T>, a: T, zero: Zero<T>)
    ensures OrElseWith(OrElse(f1, f2), h) == OrElse(f1, OrElseWith(f2, h))
    ensures SameAt(OrElseWith(OrElse(f1, f2), h), OrElse(OrElse(f1, f2), h), a, zero)
  {
    OrElseWithBehaviour(OrElse(f1, f2), h, a, zero);
    OrElseBehaviour(OrElse(f1, f2), h, a, zero);
  }

  /** `OrElse` nodes whose first branch is never itself an `OrElse`: a chain of n
      branches is a right-leaning spine of depth n. */
  predicate RightLeaning<T>(p: PF<T>) {
    match p
    case OrElse(f1, f2) => !f1.OrElse? && RightLeaning(f2)
    case _ => true
  }

  /** Chaining with `orElse` keeps a right-leaning chain right-leaning. */
  lemma {:induction false} OrElseWithKeepsRightLeaning<T>(p: PF<T>, that: PF<T>)
    requires RightLeaning(p) && RightLeaning(that)
    ensures RightLeaning(OrElseWith(p, that))
  {
    match p
    case OrElse(f1, f2) => OrElseWithKeepsRightLeaning(f2, that);
    case _ =>
  }

  /** `end()` is `orElse(empty())`. */
  function End<T>(p: PF<T>): PF<T> {
    OrElseWith(p, Empty)
  }

  /** `end()` keeps the domain and the covered outputs; on an input no branch covers,
      `apply` raises `MatchError` with that input. */
  lemma EndBehaviour<T>(p: PF<T>, a: T)
    ensures IsDefinedAt(End(p), a) == IsDefinedAt(p, a)
    ensures Apply(End(p), a) == if IsDefinedAt(p, a) then Apply(p, a) else MatchErr(a)
  {
    OrElseWithBehaviour(p, Empty, a, CheckFallback);
  }

  /** Without `end()` the last branch's mapper runs where its guard is false; with it,
      the same input raises `MatchError`. */
  lemma LastBranchUnguarded<T>(p: PF<T>, guard: T -> bool, mapper: T -> T, a: T)
    requires !IsDefinedAt(p, a) && !guard(a)
    ensures !IsDefinedAt(OrElseOf(p, guard, mapper), a)
    ensures Apply(OrElseOf(p, guard, mapper), a) == Ok(mapper(a))
    ensures Apply(End(OrElseOf(p, guard, mapper)), a) == MatchErr(a)
  {
    OrElseBehaviour(p, Pair(guard, mapper), a, CheckFallback);
    EndBehaviour(OrElseOf(p, guard, mapper), a);
  }

  // ---------------------------------------------------------------- andThen / compose

  /** `p.andThen(k)`: `empty()` returns itself, an `OrElse` node distributes over both
      branches, every other node builds `AndThen(p, k)`. */
  function AndThenWith<T>(p: PF<T>, k: PF<T>): PF<T> {
    match p
    case Empty => Empty
    case OrElse(f1, f2) => OrElse(AndThenWith(f1, k), AndThenWith(f2, k))
    case _ => AndThen(p, k)
  }

  /** `andThen(k)` keeps this function's domain, whatever k's domain is, and maps a to
      `k.apply(this.apply(a))`; `applyOrElse` runs the fallback where this function is
      not defined. */
  lemma {:induction false} AndThenWithBehaviour<T>(p: PF<T>, k: PF<T>, a: T, zero: Zero<T>)
    ensures IsDefinedAt(AndThenWith(p, k), a) == IsDefinedAt(p, a)
    ensures Apply(AndThenWith(p, k), a) == Then(Apply(p, a), k)
    ensures ApplyOrElse(AndThenWith(p, k), a, zero)
         == if IsDefinedAt(p, a) then AsRes(Then(Apply(p, a), k)) else ZeroApply(zero, a)
  {
    match p
    case Empty =>
    case OrElse(f1, f2) =>
      AndThenWithBehaviour(f1, k, a, zero);
      AndThenWithBehaviour(f2, k, a, zero);
      OrElseBehaviour(AndThenWith(f1, k), AndThenWith(f2, k), a, zero);
      OrElseBehaviour(f1, f2, a, zero);
      MarkerAgreesWithNaive(AndThenWith(f2, k), a, zero);
    case _ =>
      AndThenBehaviour(p, k, a, zero);
      MarkerAgreesWithNaive(AndThen(p, k), a, zero);
  }

  /** `compose(before)` builds `AndThen(before, this)`. */
  function Compose<T>(p: PF<T>, before: PF<T>): PF<T> {
    AndThen(before, p)
  }

  /** `f.compose(g)` has g's domain and `apply` equal to `f.apply(g.apply(a))`. */
  lemma ComposeBehaviour<T>(f: PF<T>, g: PF<T>, a: T)
    ensures IsDefinedAt(Compose(f, g), a) == IsDefinedAt(g, a)
    ensures Apply(Compose(f, g), a) == Then(Apply(g, a), f)
  {
  }

  // ---------------------------------------------------------------- lift / unlift

  /** `lift()`: `empty()` gives the always-empty function, `Unlifted(f)` gives f back,
      every other node gives `Lifted(p)`. */
  function Lift<T>(p: PF<T>): OptFn<T> {
    match p
    case Empty => Plain(_ => Absent)
    case Unlifted(f) => Plain(f)
    case _ => Lifted(p)
  }

  /** `unlifted(f)`: a `Lifted` adapter gives back its partial function, anything else
      is wrapped in `Unlifted`. */
  function Unlift<T>(fn: OptFn<T>): PF<T> {
    match fn
    case Lifted(pf) => pf
    case Plain(f) => Unlifted(f)
  }

  /** `lift()(a)` is present iff the function is defined at a, and then holds `apply(a)`. */
  lemma LiftBehaviour<T>(p: PF<T>, a: T)
    ensures Call(Lift(p), a) == if IsDefinedAt(p, a) then PresentOf(Apply(p, a)) else Ok(Absent)
  {
    MarkerAgreesWithNaive(p, a, CheckFallback);
  }

  /** `Lifted(pf).apply(a)` is present exactly when pf did not fall through. */
  lemma LiftedPresentIffNoFallback<T>(pf: PF<T>, a: T)
    ensures Call(Lifted(pf), a) == Ok(Absent) <==> FallbackOccurred(ApplyOrElse(pf, a, CheckFallback))
  {
  }

  /** `unlift(f)` is defined iff `f(a)` is present and applies to its content;
      `MatchError` where it is absent. */
  lemma UnliftBehaviour<T>(f: T -> Optional<T>, a: T)
    ensures IsDefinedAt(Unlift(Plain(f)), a) == f(a).Present?
    ensures Apply(Unlift(Plain(f)), a) == match f(a) case Present(v) => Ok(v) case Absent => MatchErr(a)
  {
  }

  /** `unlift(lift(pf))` returns pf itself for every node but `empty()`, and in every
      case something that behaves as pf. */
  lemma UnliftOfLift<T>(p: PF<T>, a: T, zero: Zero<T>)
    ensures !p.Empty? ==> Unlift(Lift(p)) == p
    ensures SameAt(Unlift(Lift(p)), p, a, zero)
  {
  }

  /** `lift(unlift(f))` returns f itself for a function that is not a `Lifted` adapter,
      and `Unlifted(f).lift()` is f. */
  lemma LiftOfUnlift<T>(f: T -> Optional<T>)
    ensures Lift(Unlift(Plain(f))) == Plain(f)
    ensures Lift(Unlifted(f)) == Plain(f)
  {
  }

  // ---------------------------------------------------------------- runWith

  /** What `runWith(action)(x)` does: the boolean it returns, and the value handed to
      `action` (absent when `action` is not run). */
  datatype Run<+T> = Run(defined: bool, actionArg: Optional<T>)

  /** `runWith(action)(x)`; for `empty()` the constant-false function. */
  function RunWith<T>(p: PF<T>, x: T): Outcome<Run<T>, T> {
    match p
    case Empty => Ok(Run(false, Absent))
    case _ =>
      (match ApplyOrElse(p, x, CheckFallback)
       case Hit(z) => Ok(Run(true, Present(z)))
       case Fell => Ok(Run(false, Absent))
       case Raised(e) => MatchErr(e))
  }

  /** `runWith(action)(x)` returns `isDefinedAt(x)` and hands `action` the value `apply(x)`
      only when defined. */
  lemma RunWithBehaviour<T>(p: PF<T>, x: T)
    ensures !IsDefinedAt(p, x) ==> RunWith(p, x) == Ok(Run(false, Absent))
    ensures IsDefinedAt(p, x) ==>
      RunWith(p, x) == match Apply(p, x) case Ok(v) => Ok(Run(true, Present(v))) case MatchErr(e) => MatchErr(e)
  {
    MarkerAgreesWithNaive(p, x, CheckFallback);
  }

  /** `empty()` overrides: `orElse(g)` returns g itself, `andThen(k)` returns the empty
      function itself, `lift()` is always empty and `runWith` always returns false. */
  lemma EmptyOverrides<T>(g: PF<T>, k: PF<T>, a: T)
    ensures OrElseWith(Empty, g) == g
    ensures AndThenWith(Empty, k) == Empty
    ensures Call(Lift(Empty), a) == Ok(Absent)
    ensures RunWith(Empty, a) == Ok(Run(false, Absent))
  {
  }

  // ---------------------------------------------------------------- builders

  /** `orElseOf(isDefinedAt, apply)` builds `OrElse(this, of(isDefinedAt, apply))`. */
  function OrElseOf<T>(p: PF<T>, guard: T -> bool, mapper: T -> T): PF<T> {
    OrElse(p, Pair(guard, mapper))
  }

  /** `orElseFrom(f)` builds `OrElse(this, from(f))`. */
  function OrElseFrom<T>(p: PF<T>, fn: OptFn<T>): PF<T> {
    OrElse(p, Unlift(fn))
  }

  /** `andThenOf(isDefinedAt, apply)` builds `AndThen(this, of(isDefinedAt, apply))`. */
  function AndThenOf<T>(p: PF<T>, guard: T -> bool, mapper: T -> T): PF<T> {
    AndThen(p, Pair(guard, mapper))
  }

  /** `andThenFrom(f)` builds `AndThen(this, from(f))`. */
  function AndThenFrom<T>(p: PF<T>, fn: OptFn<T>): PF<T> {
    AndThen(p, Unlift(fn))
  }

  /** `orEndWith(b)` appends the always-true branch returning b. */
  function OrEndWith<T>(p: PF<T>, b: T): PF<T> {
    OrElse(p, Pair(_ => true, _ => b))
  }

  /** `orDefault(s)` appends the always-true branch returning `s.get()`. */
  function OrDefault<T>(p: PF<T>, s: () -> T): PF<T> {
    OrElse(p, Pair(_ => true, _ => s()))
  }

  /** `orElseOf(p, m)` is defined on this domain and where p holds; this function wins
      where both are defined. */
  lemma OrElseOfBehaviour<T>(p: PF<T>, guard: T -> bool, mapper: T -> T, a: T)
    ensures IsDefinedAt(OrElseOf(p, guard, mapper), a) == (IsDefinedAt(p, a) || guard(a))
    ensures IsDefinedAt(OrElseOf(p, guard, mapper), a) ==>
      Apply(OrElseOf(p, guard, mapper), a) == if IsDefinedAt(p, a) then Apply(p, a) else Ok(mapper(a))
  {
    OrElseBehaviour(p, Pair(guard, mapper), a, CheckFallback);
  }

  /** `orElseFrom(f)` is defined on this domain and where the unlifted f is defined. */
  lemma OrElseFromBehaviour<T>(p: PF<T>, fn: OptFn<T>, a: T)
    ensures IsDefinedAt(OrElseFrom(p, fn), a) == (IsDefinedAt(p, a) || IsDefinedAt(Unlift(fn), a))
    ensures Apply(OrElseFrom(p, fn), a) == if IsDefinedAt(p, a) then Apply(p, a) else Apply(Unlift(fn), a)
  {
    OrElseBehaviour(p, Unlift(fn), a, CheckFallback);
  }

  /** `andThenOf` / `andThenFrom` keep this function's domain. */
  lemma AndThenOfBehaviour<T>(p: PF<T>, guard: T -> bool, mapper: T -> T, fn: OptFn<T>, a: T)
    ensures IsDefinedAt(AndThenOf(p, guard, mapper), a) == IsDefinedAt(p, a)
    ensures Apply(AndThenOf(p, guard, mapper), a)
         == match Apply(p, a) case Ok(b) => Ok(mapper(b)) case MatchErr(x) => MatchErr(x)
    ensures IsDefinedAt(AndThenFrom(p, fn), a) == IsDefinedAt(p, a)
    ensures Apply(AndThenFrom(p, fn), a) == Then(Apply(p, a), Unlift(fn))
  {
  }

  /** `orEndWith(b)` and `orDefault(s)` are defined at every input and return b / `s()`
      exactly on the inputs this function does not cover. */
  lemma OrEndWithBehaviour<T>(p: PF<T>, b: T, s: () -> T, a: T)
    ensures IsDefinedAt(OrEndWith(p, b), a) && IsDefinedAt(OrDefault(p, s), a)
    ensures Apply(OrEndWith(p, b), a) == if IsDefinedAt(p, a) then Apply(p, a) else Ok(b)
    ensures Apply(OrDefault(p, s), a) == if IsDefinedAt(p, a) then Apply(p, a) else Ok(s())
  {
    OrElseBehaviour(p, Pair(_ => true, _ => b), a, CheckFallback);
    OrElseBehaviour(p, Pair(_ => true, _ => s()), a, CheckFallback);
  }

  // ---------------------------------------------------------------- cond / condOpt

  /** `cond(x, pf)` is `pf.applyOrElse(x, constFalse())`. */
  function Cond(x: bool, pf: PF<bool>): Outcome<bool, bool> {
    AsOutcome(ApplyOrElse(pf, x, Fn(_ => false)))
  }

  /** `condOpt(x, pf)` is `pf.lift().apply(x)`. */
  function CondOpt<T>(x: T, pf: PF<T>): Outcome<Optional<T>, T> {
    Call(Lift(pf), x)
  }

  /** `cond` is false outside the domain and pf's outcome inside it; `condOpt` is
      present iff pf is defined at x. */
  lemma CondBehaviour<T>(x: bool, pf: PF<bool>, y: T, qf: PF<T>)
    ensures Cond(x, pf) == if IsDefinedAt(pf, x) then Apply(pf, x) else Ok(false)
    ensures CondOpt(y, qf) == if IsDefinedAt(qf, y) then PresentOf(Apply(qf, y)) else Ok(Absent)
  {
    MarkerAgreesWithNaive(pf, x, Fn(_ => false));
    LiftBehaviour(qf, y);
  }
}
