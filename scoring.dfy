/** The best-survival-time rule. */
module Scoring {

  /** The best time after a round survived for `survived` seconds: replaced
      only on a strictly greater time. */
  function NewBest(best: real, survived: real): (r: real)
    ensures r >= best && r >= survived
    ensures r == best || r == survived
    ensures r != best <==> survived > best
  {
    if survived > best then survived else best
  }

  /** The best time after a series of rounds, oldest first. */
  function BestAfterRounds(best: real, rounds: seq<real>): real
  {
    if rounds == [] then best
    else NewBest(BestAfterRounds(best, rounds[..|rounds| - 1]), rounds[|rounds| - 1])
  }

  /** Over any series of rounds the best time never decreases and ends as the
      maximum of the starting value and every survived time. */
  lemma {:induction false} BestAfterRoundsIsMax(best: real, rounds: seq<real>)
    ensures BestAfterRounds(best, rounds) >= best
    ensures forall i | 0 <= i < |rounds| :: BestAfterRounds(best, rounds) >= rounds[i]
    ensures BestAfterRounds(best, rounds) == best
            || exists i | 0 <= i < |rounds| :: BestAfterRounds(best, rounds) == rounds[i]
  {
    if rounds != [] {
      var front := rounds[..|rounds| - 1];
      BestAfterRoundsIsMax(best, front);
      var b := BestAfterRounds(best, front);
      assert forall i | 0 <= i < |front| :: rounds[i] == front[i];
      if BestAfterRounds(best, rounds) != best && BestAfterRounds(best, rounds) != rounds[|rounds| - 1] {
        assert BestAfterRounds(best, rounds) == b;
        var i :| 0 <= i < |front| && b == front[i];
        assert BestAfterRounds(best, rounds) == rounds[i];
      }
    }
  }
}
