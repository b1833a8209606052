/**
 * Which caller-supplied guards run during one evaluation, and in what order. A guard is
 * the predicate of a pair or the optional-returning function of an `Unlifted` node; it
 * is identified by its position, the path of child indexes from the root of the tree it
 * lives in. The traces follow the evaluation functions of `Protocol` step by step.
 */
module Evaluation {
  import opened Java
  import opened Protocol

  /** A node's position: child indexes from the root (0 = first child, 1 = second). */
  type Pos = seq<nat>

  /** The positions of the guard nodes of p, when p sits at `at`. */
  function Positions<T>(p: PF<T>, at: Pos): set<Pos> {
    match p
    case Pair(_, _) => {at}
    case Empty => {}
    case OrElse(f1, f2) => Positions(f1, at + [0]) + Positions(f2, at + [1])
    case AndThen(pf, k) => Positions(pf, at + [0]) + Positions(k, at + [1])
    case Unlifted(_) => {at}
  }

  function ZeroPositions<T>(zero: Zero<T>, at: Pos): set<Pos> {
    match zero
    case Pf(q) => Positions(q, at)
    case _ => {}
  }

  /** No position occurs twice. */
  predicate Distinct(s: seq<Pos>) {
    forall i, j | 0 <= i < j < |s| :: s[i] != s[j]
  }

  /** Every position of s lies in `within`. */
  predicate Inside(s: seq<Pos>, within: set<Pos>) {
    forall i | 0 <= i < |s| :: s[i] in within
  }

  /** Neither position is an ancestor of the other: their subtrees are disjoint. */
  predicate Apart(u: Pos, v: Pos) {
    !(u <= v) && !(v <= u)
  }

  /** Guards evaluated, in order, by `Apply(p, a)` with p at `at`. */
  function ApplyTrace<T>(p: PF<T>, at: Pos, a: T): seq<Pos>
    decreases Size(p), 1
  {
    match p
    case Pair(_, _) => []
    case Empty => []
    case OrElse(f1, f2) => AoeTrace(f1, at + [0], a, Pf(f2), at + [1])
    case AndThen(pf, k) =>
      ApplyTrace(pf, at + [0], a)
      + (match Apply(pf, a) case Ok(b) => ApplyTrace(k, at + [1], b) case MatchErr(_) => [])
    case Unlifted(_) => [at]
  }

  /** Guards evaluated by calling the fallback, whose partial function (if any) is at `zat`. */
  function ZeroTrace<T>(zero: Zero<T>, zat: Pos, a: T): seq<Pos>
    decreases ZeroSize(zero), 2
  {
    match zero
    case Pf(q) => ApplyTrace(q, zat, a)
    case _ => []
  }

  /** Guards evaluated, in order, by `ApplyOrElse(p, a, zero)`. */
  function AoeTrace<T>(p: PF<T>, at: Pos, a: T, zero: Zero<T>, zat: Pos): seq<Pos>
    decreases Size(p) + ZeroSize(zero), 0
  {
    match p
    case Pair(guard, _) => [at] + (if guard(a) then [] else ZeroTrace(zero, zat, a))
    case Empty => ZeroTrace(zero, zat, a)
    case OrElse(f1, f2) =>
      AoeTrace(f1, at + [0], a, CheckFallback, zat)
      + (if FallbackOccurred(ApplyOrElse(f1, a, CheckFallback)) then AoeTrace(f2, at + [1], a, zero, zat) else [])
    case AndThen(pf, k) =>
      AoeTrace(pf, at + [0], a, CheckFallback, zat)
      + (match ApplyOrElse(pf, a, CheckFallback)
         case Hit(b) => ApplyTrace(k, at + [1], b)
         case Fell => ZeroTrace(zero, zat, a)
         case Raised(_) => [])
    case Unlifted(f) => [at] + (if f(a).Present? then [] else ZeroTrace(zero, zat, a))
  }

  /** Guards evaluated by `isDefinedAt(a)`. */
  function DomainTrace<T>(p: PF<T>, at: Pos, a: T): seq<Pos> {
    match p
    case Pair(_, _) => [at]
    case Empty => []
    case OrElse(f1, f2) => DomainTrace(f1, at + [0], a) + (if IsDefinedAt(f1, a) then [] else DomainTrace(f2, at + [1], a))
    case AndThen(pf, _) => DomainTrace(pf, at + [0], a)
    case Unlifted(_) => [at]
  }

  // ---------------------------------------------------------------- positions

  lemma {:induction false} PositionsBelow<T>(p: PF<T>, at: Pos)
    ensures forall x | x in Positions(p, at) :: at <= x
  {
    match p
    case OrElse(f1, f2) => PositionsBelow(f1, at + [0]); PositionsBelow(f2, at + [1]);
    case AndThen(pf, k) => PositionsBelow(pf, at + [0]); PositionsBelow(k, at + [1]);
    case _ =>
  }

  lemma ZeroPositionsBelow<T>(zero: Zero<T>, zat: Pos)
    ensures forall x | x in ZeroPositions(zero, zat) :: zat <= x
  {
    if zero.Pf? {
      PositionsBelow(zero.q, zat);
    }
  }

  /** Two prefixes of one position are ordered. */
  lemma PrefixesOrdered(u: Pos, v: Pos, x: Pos)
    requires u <= x && v <= x
    ensures u <= v || v <= u
  {
    if |u| <= |v| {
      assert u == x[..|u|] == v[..|u|];
    } else {
      assert v == x[..|v|] == u[..|v|];
    }
  }

  /** Sets of positions under two apart roots are disjoint. */
  lemma Separate(s: set<Pos>, u: Pos, t: set<Pos>, v: Pos)
    requires forall x | x in s :: u <= x
    requires forall y | y in t :: v <= y
    requires Apart(u, v)
    ensures s !! t
  {
    forall x | x in s && x in t
      ensures false
    {
      PrefixesOrdered(u, v, x);
    }
  }

  lemma ApartChildren(at: Pos)
    ensures Apart(at + [0], at + [1])
  {
    assert (at + [0])[|at|] != (at + [1])[|at|];
  }

  lemma ApartExtend(at: Pos, zat: Pos, d: nat)
    requires Apart(at, zat)
    ensures Apart(at + [d], zat)
  {
    assert at <= at + [d];
    if zat <= at + [d] {
      PrefixesOrdered(at, zat, at + [d]);
      assert false;
    }
  }

  lemma DistinctAppend(s: seq<Pos>, t: seq<Pos>, within: set<Pos>, other: set<Pos>)
    requires Distinct(s) && Distinct(t)
    requires Inside(s, within) && Inside(t, other)
    requires within !! other
    ensures Distinct(s + t)
    ensures Inside(s + t, within + other)
  {
    forall i, j | 0 <= i < j < |s + t|
      ensures (s + t)[i] != (s + t)[j]
    {
      if j >= |s| && i < |s| {
        assert (s + t)[i] in within && (s + t)[j] in other;
      }
    }
  }

  // ---------------------------------------------------------------- each guard once

  /** One `applyOrElse` (or `apply`) never evaluates the same guard twice, however deep
      the composition, and evaluates only guards of the function and of its fallback;
      the fallback's tree is apart from the function's. */
  lemma {:induction false} EachGuardAtMostOnce<T>(p: PF<T>, at: Pos, a: T, zero: Zero<T>, zat: Pos)
    requires zero.Pf? ==> Apart(at, zat)
    ensures Distinct(AoeTrace(p, at, a, zero, zat))
    ensures Inside(AoeTrace(p, at, a, zero, zat), Positions(p, at) + ZeroPositions(zero, zat))
    ensures Distinct(ApplyTrace(p, at, a))
    ensures Inside(ApplyTrace(p, at, a), Positions(p, at))
    decreases Size(p) + ZeroSize(zero), 0
  {
    var zt := ZeroTrace(zero, zat, a);
    ZeroEachGuardOnce(zero, zat, a);
    ZeroPositionsBelow(zero, zat);
    match p
    case Pair(guard, _) =>
      if zero.Pf? {
        Separate({at}, at, ZeroPositions(zero, zat), zat);
      }
      DistinctAppend([at], if guard(a) then [] else zt, {at}, ZeroPositions(zero, zat));
    case Empty =>
    case OrElse(f1, f2) =>
      ApartChildren(at);
      PositionsBelow(f1, at + [0]);
      PositionsBelow(f2, at + [1]);
      EachGuardAtMostOnce(f1, at + [0], a, CheckFallback, zat);
      EachGuardAtMostOnce(f1, at + [0], a, Pf(f2), at + [1]);
      if zero.Pf? {
        ApartExtend(at, zat, 1);
        ApartExtend(at, zat, 0);
        Separate(Positions(f1, at + [0]), at + [0], ZeroPositions(zero, zat), zat);
      }
      EachGuardAtMostOnce(f2, at + [1], a, zero, zat);
      Separate(Positions(f1, at + [0]), at + [0], Positions(f2, at + [1]), at + [1]);
      var rest := if FallbackOccurred(ApplyOrElse(f1, a, CheckFallback)) then AoeTrace(f2, at + [1], a, zero, zat) else [];
      DistinctAppend(AoeTrace(f1, at + [0], a, CheckFallback, zat), rest,
                     Positions(f1, at + [0]), Positions(f2, at + [1]) + ZeroPositions(zero, zat));
    case AndThen(pf, k) =>
      ApartChildren(at);
      PositionsBelow(pf, at + [0]);
      PositionsBelow(k, at + [1]);
      Separate(Positions(pf, at + [0]), at + [0], Positions(k, at + [1]), at + [1]);
      if zero.Pf? {
        ApartExtend(at, zat, 0);
        Separate(Positions(pf, at + [0]), at + [0], ZeroPositions(zero, zat), zat);
      }
      EachGuardAtMostOnce(pf, at + [0], a, CheckFallback, zat);
      var rest := match ApplyOrElse(pf, a, CheckFallback)
        case Hit(b) => ApplyTrace(k, at + [1], b)
        case Fell => zt
        case Raised(_) => [];
      match ApplyOrElse(pf, a, CheckFallback) {
        case Hit(b) => EachGuardAtMostOnce(k, at + [1], b, CheckFallback, zat);
        case Fell =>
        case Raised(_) =>
      }
      DistinctAppend(AoeTrace(pf, at + [0], a, CheckFallback, zat), rest,
                     Positions(pf, at + [0]), Positions(k, at + [1]) + ZeroPositions(zero, zat));
      var after := match Apply(pf, a) case Ok(b) => ApplyTrace(k, at + [1], b) case MatchErr(_) => [];
      match Apply(pf, a) {
        case Ok(b) => EachGuardAtMostOnce(k, at + [1], b, CheckFallback, zat);
        case MatchErr(_) =>
      }
      DistinctAppend(ApplyTrace(pf, at + [0], a), after, Positions(pf, at + [0]), Positions(k, at + [1]));
    case Unlifted(f) =>
      if zero.Pf? {
        Separate({at}, at, ZeroPositions(zero, zat), zat);
      }
      DistinctAppend([at], if f(a).Present? then [] else zt, {at}, ZeroPositions(zero, zat));
  }

  lemma {:induction false} ZeroEachGuardOnce<T>(zero: Zero<T>, zat: Pos, a: T)
    ensures Distinct(ZeroTrace(zero, zat, a))
    ensures Inside(ZeroTrace(zero, zat, a), ZeroPositions(zero, zat))
    decreases ZeroSize(zero), 1
  {
    match zero
    case Pf(q) => EachGuardAtMostOnce(q, zat, a, CheckFallback, zat);
    case _ =>
  }

  /** `AndThen`'s `applyOrElse` evaluates none of k's guards where pf is not defined: its
      trace is pf's probe followed by the fallback's. */
  lemma AndThenSkipsContinuation<T>(pf: PF<T>, k: PF<T>, at: Pos, a: T, zero: Zero<T>, zat: Pos)
    requires !IsDefinedAt(pf, a)
    ensures AoeTrace(AndThen(pf, k), at, a, zero, zat)
         == AoeTrace(pf, at + [0], a, CheckFallback, zat) + ZeroTrace(zero, zat, a)
  {
    FallsThroughOutsideDomain(pf, a, zero);
  }

  /** The naive "if isDefinedAt then apply" reading of `OrElse(of(g, m), f2)` evaluates
      the guard g twice where g holds, while `applyOrElse` evaluates it once. */
  lemma NaiveReadingEvaluatesTwice<T>(g: T -> bool, m: T -> T, f2: PF<T>, at: Pos, a: T)
    requires g(a)
    ensures AoeTrace(OrElse(Pair(g, m), f2), at, a, CheckFallback, at) == [at + [0]]
    ensures DomainTrace(OrElse(Pair(g, m), f2), at, a) + ApplyTrace(OrElse(Pair(g, m), f2), at, a)
         == [at + [0], at + [0]]
    ensures !Distinct(DomainTrace(OrElse(Pair(g, m), f2), at, a) + ApplyTrace(OrElse(Pair(g, m), f2), at, a))
  {
    assert DomainTrace(OrElse(Pair(g, m), f2), at, a) == [at + [0]];
    assert ApplyTrace(OrElse(Pair(g, m), f2), at, a) == AoeTrace(Pair(g, m), at + [0], a, Pf(f2), at + [1]) == [at + [0]];
    var naive := DomainTrace(OrElse(Pair(g, m), f2), at, a) + ApplyTrace(OrElse(Pair(g, m), f2), at, a);
    assert naive[0] == naive[1];
  }
}
