/**
 * The Monte Carlo tally of `simulate_win_probability`: sample an opponent hand
 * from the remaining deck, compare scores, count wins, ties and losses, and
 * turn the counts into rates.
 */
module Equity {
  import opened Wrappers
  import opened Cards

  /**
   * The hand evaluator: the score of a hand on a board. It is deterministic, and
   * a lower score is a stronger hand.
   */
  type Evaluator = (seq<Card>, seq<Card>) -> int

  datatype Outcome = Win | Tie | Loss

  datatype Counts = Counts(wins: nat, ties: nat, losses: nat)

  datatype Odds = Odds(winRate: real, tieRate: real, lossRate: real)

  /** One trial, from the player's side: the lower score wins, equal scores tie. */
  function Classify(myScore: int, opponentScore: int): Outcome {
    if myScore < opponentScore then Win
    else if myScore > opponentScore then Loss
    else Tie
  }

  function Flip(o: Outcome): Outcome {
    match o
    case Win => Loss
    case Tie => Tie
    case Loss => Win
  }

  /** Seen from the opponent's side, every trial has the opposite outcome. */
  lemma ClassifyAntisymmetric(myScore: int, opponentScore: int)
    ensures Classify(opponentScore, myScore) == Flip(Classify(myScore, opponentScore))
    ensures Classify(myScore, opponentScore) == Tie <==> myScore == opponentScore
  {
  }

  /** The counts after one more trial. */
  function Count(c: Counts, o: Outcome): (d: Counts)
    ensures d.wins + d.ties + d.losses == c.wins + c.ties + c.losses + 1
  {
    match o
    case Win => c.(wins := c.wins + 1)
    case Tie => c.(ties := c.ties + 1)
    case Loss => c.(losses := c.losses + 1)
  }

  /** The counts of a sequence of outcomes; every outcome is counted exactly once. */
  function Tally(outcomes: seq<Outcome>): (c: Counts)
    ensures c.wins + c.ties + c.losses == |outcomes|
  {
    if outcomes == [] then Counts(0, 0, 0)
    else Count(Tally(outcomes[..|outcomes| - 1]), outcomes[|outcomes| - 1])
  }

  /** Counting one more outcome is counting it onto the tally of the earlier ones. */
  lemma TallySnoc(outcomes: seq<Outcome>, o: Outcome)
    ensures Tally(outcomes + [o]) == Count(Tally(outcomes), o)
  {
    assert (outcomes + [o])[..|outcomes|] == outcomes;
  }

  /** When every trial has the same outcome, that outcome takes all the counts. */
  lemma {:induction false} TallyUniform(outcomes: seq<Outcome>, o: Outcome)
    requires forall k :: 0 <= k < |outcomes| ==> outcomes[k] == o
    ensures o == Win ==> Tally(outcomes) == Counts(|outcomes|, 0, 0)
    ensures o == Tie ==> Tally(outcomes) == Counts(0, |outcomes|, 0)
    ensures o == Loss ==> Tally(outcomes) == Counts(0, 0, |outcomes|)
  {
    if outcomes != [] {
      TallyUniform(outcomes[..|outcomes| - 1], o);
    }
  }

  /** The outcome of each trial, given the opponent hand drawn in it. */
  function Outcomes(myHand: seq<Card>, board: seq<Card>, hands: seq<seq<Card>>, score: Evaluator)
    : (os: seq<Outcome>)
    ensures |os| == |hands|
  {
    seq(|hands|, k requires 0 <= k < |hands| => Classify(score(myHand, board), score(hands[k], board)))
  }

  /** One more trial adds its outcome at the end. */
  lemma OutcomesSnoc(myHand: seq<Card>, board: seq<Card>, hands: seq<seq<Card>>, h: seq<Card>,
                     score: Evaluator)
    ensures Outcomes(myHand, board, hands + [h], score)
      == Outcomes(myHand, board, hands, score) + [Classify(score(myHand, board), score(h, board))]
  {
    assert (hands + [h])[|hands|] == h;
  }

  /**
   * Each rate is its count over the number of simulations; zero simulations
   * divide by zero. A negative number of simulations runs no trial and gives
   * rates of zero.
   */
  function WinRates(c: Counts, simulations: int): (r: Result<Odds>)
    ensures r.Err? <==> simulations == 0
    ensures r.Err? ==> r.error == ZeroDivision
    ensures r.Ok? && c == Counts(0, 0, 0) ==> r.value == Odds(0.0, 0.0, 0.0)
    ensures r.Ok? && c.wins + c.ties + c.losses == simulations ==>
      && 0.0 <= r.value.winRate <= 1.0
      && 0.0 <= r.value.tieRate <= 1.0
      && 0.0 <= r.value.lossRate <= 1.0
      && r.value.winRate + r.value.tieRate + r.value.lossRate == 1.0
  {
    if simulations == 0 then Err(ZeroDivision)
    else
      var n := simulations as real;
      var odds := Odds(c.wins as real / n, c.ties as real / n, c.losses as real / n);
      if simulations > 0 then
        RatesSumToOne(c.wins as real, c.ties as real, c.losses as real, n);
        Ok(odds)
      else
        Ok(odds)
  }

  lemma RatesSumToOne(w: real, t: real, l: real, n: real)
    requires n > 0.0 && w >= 0.0 && t >= 0.0 && l >= 0.0
    ensures w + t + l == n ==> w / n + t / n + l / n == 1.0
    ensures w + t + l == n ==> w / n <= 1.0 && t / n <= 1.0 && l / n <= 1.0
    ensures w / n >= 0.0 && t / n >= 0.0 && l / n >= 0.0
  {
    assert w / n + t / n + l / n == (w + t + l) / n;
  }

  /** A possible opponent hand: two different cards of the pool. */
  predicate IsOpponentHand(h: seq<Card>, pool: seq<Card>) {
    |h| == 2 && h[0] in pool && h[1] in pool && h[0] != h[1]
  }

  /**
   * `random.sample(pool, 2)`: two cards at two different positions of the pool,
   * in the order drawn; a pool of fewer than two cards is an error.
   */
  method SampleTwo(pool: seq<Card>) returns (r: Result<seq<Card>>)
    ensures r.Err? <==> |pool| < 2
    ensures r.Err? ==> r.error == SampleLargerThanPopulation
    ensures r.Ok? ==> exists i, j :: 0 <= i < |pool| && 0 <= j < |pool| && i != j && r.value == [pool[i], pool[j]]
    ensures r.Ok? ==> |r.value| == 2 && r.value[0] in pool && r.value[1] in pool
    ensures r.Ok? && Distinct(pool) ==> IsOpponentHand(r.value, pool)
  {
    if |pool| < 2 {
      return Err(SampleLargerThanPopulation);
    }
    assert 0 != 1 && 1 < |pool|;
    var i: nat, j: nat :| i < |pool| && j < |pool| && i != j;
    r := Ok([pool[i], pool[j]]);
  }

  /**
   * `simulate_win_probability`. `hands` is the opponent hand sampled in each trial.
   * The rates are those of the counted outcomes of those trials; every sampled
   * hand is two different cards that are neither in the player's hand nor on
   * the board. A negative `simulations` runs no trial (`range` is empty) and
   * returns rates of zero.
   */
  method SimulateWinProbability(myHand: seq<Card>, communityCards: seq<Card>, simulations: int,
                                score: Evaluator)
    returns (r: Result<Odds>, ghost hands: seq<seq<Card>>)
    ensures r.Err? ==> r.error == ZeroDivision || r.error == SampleLargerThanPopulation
    ensures r == Err(ZeroDivision) <==> simulations == 0
    ensures r == Err(SampleLargerThanPopulation) <==>
      simulations > 0 && |RemainingDeck(myHand + communityCards)| < 2
    ensures simulations < 0 ==> r == Ok(Odds(0.0, 0.0, 0.0))
    ensures r.Ok? ==>
      && |hands| == (if simulations > 0 then simulations else 0)
      && (forall k :: 0 <= k < |hands| ==> IsOpponentHand(hands[k], RemainingDeck(myHand + communityCards)))
      && r == WinRates(Tally(Outcomes(myHand, communityCards, hands, score)), simulations)
    ensures r.Ok? && simulations > 0 ==>
      && 0.0 <= r.value.winRate <= 1.0
      && 0.0 <= r.value.tieRate <= 1.0
      && 0.0 <= r.value.lossRate <= 1.0
      && r.value.winRate + r.value.tieRate + r.value.lossRate == 1.0
    ensures r.Ok? && simulations > 0 && (forall h :: IsOpponentHand(h, RemainingDeck(myHand + communityCards)) ==>
                        score(myHand, communityCards) < score(h, communityCards))
      ==> r == Ok(Odds(1.0, 0.0, 0.0))
    ensures r.Ok? && simulations > 0 && (forall h :: IsOpponentHand(h, RemainingDeck(myHand + communityCards)) ==>
                        score(myHand, communityCards) == score(h, communityCards))
      ==> r == Ok(Odds(0.0, 1.0, 0.0))
    ensures r.Ok? && simulations > 0 && (forall h :: IsOpponentHand(h, RemainingDeck(myHand + communityCards)) ==>
                        score(myHand, communityCards) > score(h, communityCards))
      ==> r == Ok(Odds(0.0, 0.0, 1.0))
  {
    var wins, ties, losses := 0, 0, 0;
    var remainingDeck := RemainingDeck(myHand + communityCards);
    assert Distinct(remainingDeck) by {
      RemainingDeckDistinct(myHand + communityCards);
    }
    hands := [];
    var trials: nat := if simulations > 0 then simulations else 0;  // the length of range(simulations)
    for t := 0 to trials
      invariant |hands| == t
      invariant t > 0 ==> |remainingDeck| >= 2
      invariant forall k :: 0 <= k < t ==> IsOpponentHand(hands[k], remainingDeck)
      invariant Tally(Outcomes(myHand, communityCards, hands, score)) == Counts(wins, ties, losses)
    {
      var sample := SampleTwo(remainingDeck);
      if sample.Err? {
        return Err(sample.error), hands;
      }
      var opponentHand := sample.value;
      var opponentScore := score(opponentHand, communityCards);
      var myScore := score(myHand, communityCards);
      ghost var before := Counts(wins, ties, losses);
      if myScore < opponentScore {
        wins := wins + 1;
      } else if myScore > opponentScore {
        losses := losses + 1;
      } else {
        ties := ties + 1;
      }
      assert Counts(wins, ties, losses) == Count(before, Classify(myScore, opponentScore));
      assert Tally(Outcomes(myHand, communityCards, hands + [opponentHand], score))
          == Counts(wins, ties, losses) by {
        OutcomesSnoc(myHand, communityCards, hands, opponentHand, score);
        TallySnoc(Outcomes(myHand, communityCards, hands, score), Classify(myScore, opponentScore));
      }
      hands := hands + [opponentHand];
    }
    r := WinRates(Counts(wins, ties, losses), simulations);
    if simulations > 0 {
      if forall h :: IsOpponentHand(h, remainingDeck) ==> score(myHand, communityCards) < score(h, communityCards) {
        DominantHandAlwaysWins(myHand, communityCards, hands, remainingDeck, score);
      }
      if forall h :: IsOpponentHand(h, remainingDeck) ==> score(myHand, communityCards) == score(h, communityCards) {
        EqualHandAlwaysTies(myHand, communityCards, hands, remainingDeck, score);
      }
      if forall h :: IsOpponentHand(h, remainingDeck) ==> score(myHand, communityCards) > score(h, communityCards) {
        DominatedHandAlwaysLoses(myHand, communityCards, hands, remainingDeck, score);
      }
    }
  }

  /** A player whose score beats every possible opponent hand wins every trial. */
  lemma {:induction false} DominantHandAlwaysWins(myHand: seq<Card>, board: seq<Card>,
                                                  hands: seq<seq<Card>>, pool: seq<Card>, score: Evaluator)
    requires hands != []
    requires forall k :: 0 <= k < |hands| ==> IsOpponentHand(hands[k], pool)
    requires forall h :: IsOpponentHand(h, pool) ==> score(myHand, board) < score(h, board)
    ensures WinRates(Tally(Outcomes(myHand, board, hands, score)), |hands|) == Ok(Odds(1.0, 0.0, 0.0))
  {
    var os := Outcomes(myHand, board, hands, score);
    TallyUniform(os, Win);
  }

  /** A player whose score equals that of every possible opponent hand ties every trial. */
  lemma {:induction false} EqualHandAlwaysTies(myHand: seq<Card>, board: seq<Card>,
                                               hands: seq<seq<Card>>, pool: seq<Card>, score: Evaluator)
    requires hands != []
    requires forall k :: 0 <= k < |hands| ==> IsOpponentHand(hands[k], pool)
    requires forall h :: IsOpponentHand(h, pool) ==> score(myHand, board) == score(h, board)
    ensures WinRates(Tally(Outcomes(myHand, board, hands, score)), |hands|) == Ok(Odds(0.0, 1.0, 0.0))
  {
    var os := Outcomes(myHand, board, hands, score);
    TallyUniform(os, Tie);
  }

  /** A player whose score is worse than that of every possible opponent hand loses every trial. */
  lemma {:induction false} DominatedHandAlwaysLoses(myHand: seq<Card>, board: seq<Card>,
                                                    hands: seq<seq<Card>>, pool: seq<Card>, score: Evaluator)
    requires hands != []
    requires forall k :: 0 <= k < |hands| ==> IsOpponentHand(hands[k], pool)
    requires forall h :: IsOpponentHand(h, pool) ==> score(myHand, board) > score(h, board)
    ensures WinRates(Tally(Outcomes(myHand, board, hands, score)), |hands|) == Ok(Odds(0.0, 0.0, 1.0))
  {
    var os := Outcomes(myHand, board, hands, score);
    TallyUniform(os, Loss);
  }

  /** Every sampled opponent hand is two different deck cards, none of them known. */
  lemma OpponentHandDisjoint(h: seq<Card>, known: seq<Card>)
    requires IsOpponentHand(h, RemainingDeck(known))
    ensures IsCard(h[0]) && IsCard(h[1]) && h[0] != h[1]
    ensures h[0] !in known && h[1] !in known
  {
    RemainingDeckMembership(known, h[0]);
    RemainingDeckMembership(known, h[1]);
  }
}
