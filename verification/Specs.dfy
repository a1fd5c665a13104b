/** The hard forks of the chain, ordered by activation. */
module Specs {
  datatype SpecId =
    | SHANGHAI
    | BERNOULLI
    | CURIE
    | DARWIN
    | EUCLID
    | FEYNMAN
    | GALILEO
    | TSUKI
    | TSUKI_V2
  {
    function Rank(): nat {
      match this
      case SHANGHAI => 1
      case BERNOULLI => 2
      case CURIE => 3
      case DARWIN => 4
      case EUCLID => 5
      case FEYNMAN => 6
      case GALILEO => 7
      case TSUKI => 8
      case TSUKI_V2 => 9
    }

    predicate IsEnabledIn(other: SpecId) {
      Rank() >= other.Rank()
    }
  }

  /** Every fork in the order of activation. */
  const FORKS: seq<SpecId> := [SHANGHAI, BERNOULLI, CURIE, DARWIN, EUCLID, FEYNMAN, GALILEO, TSUKI, TSUKI_V2]

  /** Every fork is listed, and enables exactly itself and the forks listed before it. */
  lemma ForksInOrder(spec: SpecId)
    ensures spec in FORKS
    ensures forall i, j :: 0 <= i < |FORKS| && 0 <= j < |FORKS| ==> (FORKS[i].IsEnabledIn(FORKS[j]) <==> j <= i)
  {
    var at := spec.Rank() - 1;
    assert FORKS[at] == spec;
    forall i, j | 0 <= i < |FORKS| && 0 <= j < |FORKS| ensures FORKS[i].IsEnabledIn(FORKS[j]) <==> j <= i {
      assert FORKS[i].Rank() == i + 1 && FORKS[j].Rank() == j + 1;
    }
  }
}
