/**
 * The three unit types of the simulation and the cyclic dominance between
 * them: rock beats scissors, scissors beats paper, paper beats rock.
 */
module Kinds {

  /** A unit's type; the source keeps it as one of three strings. */
  datatype Kind = Rock | Paper | Scissors

  /** The conversion table of `Unit.interact`: `a` converts `b` on contact. */
  predicate Beats(a: Kind, b: Kind): (r: bool)
    ensures r ==> a != b
  {
    (a == Rock && b == Scissors) ||
    (a == Scissors && b == Paper) ||
    (a == Paper && b == Rock)
  }

  /**
   * The type a unit of type `k` chases in `Unit.move` (a separate table in the
   * source): it is exactly the one type `k` beats.
   */
  function Prey(k: Kind): (p: Kind)
    ensures Beats(k, p)
    ensures forall q :: Beats(k, q) ==> q == p
  {
    match k
    case Rock => Scissors
    case Paper => Rock
    case Scissors => Paper
  }

  /**
   * The type a unit of type `k` evades in `Unit.move`: it is exactly the one
   * type that beats `k`.
   */
  function Predator(k: Kind): (p: Kind)
    ensures Beats(p, k)
    ensures forall q :: Beats(q, k) ==> q == p
  {
    match k
    case Rock => Paper
    case Paper => Scissors
    case Scissors => Rock
  }

  /**
   * The type `loser` has after a unit of type `winner` interacts with it:
   * converted to `winner` when `winner` beats it, unchanged otherwise.
   */
  function Convert(winner: Kind, loser: Kind): (r: Kind)
    ensures r == loser || r == winner
    ensures r != loser <==> Beats(winner, loser)
  {
    if Beats(winner, loser) then winner else loser
  }

  /** Dominance is a 3-cycle: between two different types exactly one wins. */
  lemma CyclicDominance(a: Kind, b: Kind)
    ensures !Beats(a, a)
    ensures a != b ==> (Beats(a, b) <==> !Beats(b, a))
    ensures Prey(Prey(a)) == Predator(a) && Predator(Prey(a)) == a && Prey(Predator(a)) == a
  {
  }

  /**
   * An interaction changes the other unit only in the winning direction, and
   * of the two ordered interactions between two units at most one changes
   * anything.
   */
  lemma ConversionOnlyByWinner(a: Kind, b: Kind)
    ensures Convert(a, b) != b <==> Beats(a, b)
    ensures Convert(a, b) != b ==> Convert(a, b) == a && Convert(b, a) == a
    ensures Convert(a, a) == a
  {
  }
}
