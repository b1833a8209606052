/**
 * The concrete chains exercised by the repository's partial-function tests, over a
 * carrier that holds either an integer or a string.
 */
module Scenarios {
  import opened Protocol
  import opened Combinators
  import opened Factories
  import opened Java

  datatype Val = I(n: int) | S(s: string)

  /** `of(x < 3, "elem less than 3").orElseOf(x >= 3, "elem larger than / equal 3").end()`. */
  function Halves(): PF<Val> {
    End(OrElseOf(Of((x: Val) => x.I? && x.n < 3, _ => S(Less)), (x: Val) => x.I? && x.n >= 3, _ => S(AtLeast)))
  }

  /** The same split built from two Optional-returning functions with `from(...).orElseFrom(...).end()`. */
  function HalvesFrom(): PF<Val> {
    End(OrElseFrom(From(Plain((x: Val) => if x.I? && x.n < 3 then Present(S(Less)) else Absent)),
                   Plain((x: Val) => if x.I? && x.n >= 3 then Present(S(AtLeast)) else Absent)))
  }

  const Less := "elem less than 3"
  const AtLeast := "elem larger than / equal 3"

  /** Both chains send 1 and 2 to the first string and 3, 4 and 5 to the second. */
  lemma HalvesOneToFive()
    ensures forall n | 1 <= n <= 5 :: Apply(Halves(), I(n)) == Ok(S(if n < 3 then Less else AtLeast))
    ensures forall n | 1 <= n <= 5 :: Apply(HalvesFrom(), I(n)) == Ok(S(if n < 3 then Less else AtLeast))
  {
  }

  /** `of(x < 3, "elem less than 3").orElseOf(x > 3, "elem larger than 3").orEndWith("elem equal 3")`. */
  function Classify(): PF<Val> {
    OrEndWith(OrElseOf(Of((x: Val) => x.I? && x.n < 3, _ => S(Less)), (x: Val) => x.I? && x.n > 3, _ => S("elem larger than 3")),
              S("elem equal 3"))
  }

  /** Applied to 1..5 it yields the "less" string twice, "elem equal 3", then the "larger" string twice. */
  lemma ClassifyOneToFive()
    ensures Apply(Classify(), I(1)) == Ok(S(Less))
    ensures Apply(Classify(), I(2)) == Ok(S(Less))
    ensures Apply(Classify(), I(3)) == Ok(S("elem equal 3"))
    ensures Apply(Classify(), I(4)) == Ok(S("elem larger than 3"))
    ensures Apply(Classify(), I(5)) == Ok(S("elem larger than 3"))
  {
  }

  /** `of(x > 0, "elem is a positive number").orElseOf(x < 0, "elem is a negative number").end()`. */
  function Polarity(): PF<Val> {
    End(OrElseOf(Of((x: Val) => x.I? && x.n > 0, _ => S("elem is a positive number")),
                  (x: Val) => x.I? && x.n < 0, _ => S("elem is a negative number")))
  }

  /** 1 and -1 get their strings, and 0, which no branch covers, raises `MatchError(0)`. */
  lemma PolarityScenario()
    ensures Apply(Polarity(), I(1)) == Ok(S("elem is a positive number"))
    ensures Apply(Polarity(), I(-1)) == Ok(S("elem is a negative number"))
    ensures Apply(Polarity(), I(0)) == MatchErr(I(0))
  {
  }

  /** `of(x > 0, 1).orElseOf(x < 0, -1).end()`. */
  function Sign(): PF<Val> {
    End(OrElseOf(Of((x: Val) => x.I? && x.n > 0, _ => I(1)), (x: Val) => x.I? && x.n < 0, _ => I(-1)))
  }

  /** `apply(0)` raises `MatchError(0)`, `apply(5)` is 1 and `apply(-5)` is -1. */
  lemma SignScenario()
    ensures Apply(Sign(), I(0)) == MatchErr(I(0))
    ensures Apply(Sign(), I(5)) == Ok(I(1))
    ensures Apply(Sign(), I(-5)) == Ok(I(-1))
  {
  }

  /** `of(x == 1, "elem is 1").orElseOf(x == -1, "elem is -1").end()`. */
  function Describe(): PF<Val> {
    End(OrElseOf(Of((x: Val) => x == I(1), _ => S("elem is 1")), (x: Val) => x == I(-1), _ => S("elem is -1")))
  }

  /** `Sign().andThen(Describe())` and `Describe().compose(Sign())` map 42 to "elem is 1"
      and -42 to "elem is -1". */
  lemma AndThenAndComposeScenario()
    ensures Apply(AndThenWith(Sign(), Describe()), I(42)) == Ok(S("elem is 1"))
    ensures Apply(AndThenWith(Sign(), Describe()), I(-42)) == Ok(S("elem is -1"))
    ensures Apply(Compose(Describe(), Sign()), I(42)) == Ok(S("elem is 1"))
    ensures Apply(Compose(Describe(), Sign()), I(-42)) == Ok(S("elem is -1"))
  {
  }
}
