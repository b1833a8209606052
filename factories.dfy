/**
 * The static factories: `of`, `from`, `fromAll`, `withEnd`, `fromWithEnd` and
 * `fromAllWithEnd`. (`empty`, `lift`, `unlift`, `cond` and `condOpt` delegate to the
 * companion and are `Protocol.Empty`, `Combinators.Lift`, `Combinators.Unlift`,
 * `Combinators.Cond` and `Combinators.CondOpt`.)
 */
module Factories {
  import opened Java
  import opened Protocol
  import opened Combinators

  /** `of(isDefinedAt, apply)`. */
  function Of<T>(guard: T -> bool, mapper: T -> T): PF<T> {
    Pair(guard, mapper)
  }

  /** `from(f)` is `unlift(f)`. */
  function From<T>(fn: OptFn<T>): PF<T> {
    Unlift(fn)
  }

  /** `fromAll(fs)`: every function goes through `from`, and the results are reduced
      from `empty()` with `orElse`, left to right. */
  function FromAll<T>(fs: seq<OptFn<T>>): PF<T> {
    if |fs| == 0 then Empty
    else OrElseWith(FromAll(fs[..|fs| - 1]), From(fs[|fs| - 1]))
  }

  /** `withEnd(isDefinedAt, apply)` is `of(isDefinedAt, apply).end()`. */
  function WithEnd<T>(guard: T -> bool, mapper: T -> T): PF<T> {
    End(Of(guard, mapper))
  }

  /** `fromWithEnd(f)` is `from(f).end()`. */
  function FromWithEnd<T>(fn: OptFn<T>): PF<T> {
    End(From(fn))
  }

  /** `fromAllWithEnd(fs)` is `fromAll(fs).end()`. */
  function FromAllWithEnd<T>(fs: seq<OptFn<T>>): PF<T> {
    End(FromAll(fs))
  }

  /** `of(p, m)` has domain p and `apply` m, with no guard in `apply`; its inherited
      `applyOrElse` does respect p. */
  lemma OfBehaviour<T>(guard: T -> bool, mapper: T -> T, a: T, zero: Zero<T>)
    ensures IsDefinedAt(Of(guard, mapper), a) == guard(a)
    ensures Apply(Of(guard, mapper), a) == Ok(mapper(a))
    ensures ApplyOrElse(Of(guard, mapper), a, zero)
         == if guard(a) then Hit(mapper(a)) else ZeroApply(zero, a)
  {
  }

  /** `from(f)` on a plain f is defined iff `f(a)` is present and yields its content. */
  lemma FromBehaviour<T>(f: T -> Optional<T>, a: T)
    ensures IsDefinedAt(From(Plain(f)), a) == f(a).Present?
    ensures f(a).Present? ==> Apply(From(Plain(f)), a) == Ok(f(a).value)
  {
  }

  /** `fromAll([])` is `empty()`; otherwise `fromAll(fs)` is defined where some `from(f)`
      is defined, and its result comes from the first such f in collection order. */
  lemma {:induction false} FromAllBehaviour<T>(fs: seq<OptFn<T>>, a: T)
    ensures |fs| == 0 ==> FromAll(fs) == Empty
    ensures IsDefinedAt(FromAll(fs), a)
        <==> exists i :: 0 <= i < |fs| && IsDefinedAt(From(fs[i]), a)
    ensures forall i :: 0 <= i < |fs| && IsDefinedAt(From(fs[i]), a)
                        && (forall j :: 0 <= j < i ==> !IsDefinedAt(From(fs[j]), a))
                        ==> Apply(FromAll(fs), a) == Apply(From(fs[i]), a)
  {
    if |fs| > 0 {
      var init, last := fs[..|fs| - 1], fs[|fs| - 1];
      FromAllBehaviour(init, a);
      OrElseWithBehaviour(FromAll(init), From(last), a, CheckFallback);
      if IsDefinedAt(FromAll(fs), a) {
        if IsDefinedAt(FromAll(init), a) {
          var i :| 0 <= i < |init| && IsDefinedAt(From(init[i]), a);
          assert fs[i] == init[i];
        } else {
          assert IsDefinedAt(From(fs[|fs| - 1]), a);
        }
      }
      forall i | 0 <= i < |fs| && IsDefinedAt(From(fs[i]), a)
                 && (forall j :: 0 <= j < i ==> !IsDefinedAt(From(fs[j]), a))
        ensures Apply(FromAll(fs), a) == Apply(From(fs[i]), a)
      {
        if i < |init| {
          assert init[i] == fs[i];
          assert forall j :: 0 <= j < i ==> init[j] == fs[j];
        } else {
          assert forall j :: 0 <= j < |init| ==> init[j] == fs[j];
        }
      }
    }
  }

  /** `fromAll` builds a right-leaning chain when every `from(f)` is right-leaning. */
  lemma {:induction false} FromAllRightLeaning<T>(fs: seq<OptFn<T>>)
    requires forall i :: 0 <= i < |fs| ==> RightLeaning(From(fs[i]))
    ensures RightLeaning(FromAll(fs))
  {
    if |fs| > 0 {
      FromAllRightLeaning(fs[..|fs| - 1]);
      OrElseWithKeepsRightLeaning(FromAll(fs[..|fs| - 1]), From(fs[|fs| - 1]));
    }
  }

  /** `withEnd(p, m).apply(a)` is `m(a)` where p holds and `MatchError` elsewhere. */
  lemma WithEndBehaviour<T>(guard: T -> bool, mapper: T -> T, a: T)
    ensures IsDefinedAt(WithEnd(guard, mapper), a) == guard(a)
    ensures Apply(WithEnd(guard, mapper), a) == if guard(a) then Ok(mapper(a)) else MatchErr(a)
  {
    EndBehaviour(Of(guard, mapper), a);
  }

  /** `fromWithEnd` / `fromAllWithEnd` keep the domain of `from` / `fromAll`, keep their
      covered outputs, and raise `MatchError` on an uncovered input. */
  lemma FromWithEndBehaviour<T>(fn: OptFn<T>, fs: seq<OptFn<T>>, a: T)
    ensures IsDefinedAt(FromWithEnd(fn), a) == IsDefinedAt(From(fn), a)
    ensures Apply(FromWithEnd(fn), a)
         == if IsDefinedAt(From(fn), a) then Apply(From(fn), a) else MatchErr(a)
    ensures IsDefinedAt(FromAllWithEnd(fs), a) == IsDefinedAt(FromAll(fs), a)
    ensures Apply(FromAllWithEnd(fs), a)
         == if IsDefinedAt(FromAll(fs), a) then Apply(FromAll(fs), a) else MatchErr(a)
  {
    EndBehaviour(From(fn), a);
    EndBehaviour(FromAll(fs), a);
  }
}
