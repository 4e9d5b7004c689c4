/**
 * The card-selection logic of `PokerCalculatorApp` without its widgets: the
 * player's hand and the community cards, filled by selecting cards, emptied by
 * undo and clear, and the condition under which the odds are recomputed.
 */
module Calculator {
  import opened Wrappers
  import opened Cards
  import opened Equity

  /** The number of simulations `calculate_odds` asks for. */
  const SIMULATIONS: nat := 1000

  /** The two selection lists, as a value. */
  datatype Selection = Selection(myHand: seq<Card>, communityCards: seq<Card>)

  /** The selection invariant: at most 2 hand cards, at most 5 board cards, no board before the hand is full. */
  predicate Valid(s: Selection) {
    && |s.myHand| <= 2
    && |s.communityCards| <= 5
    && (s.communityCards != [] ==> |s.myHand| == 2)
  }

  /** Both lists are at capacity; a further selection is ignored. */
  predicate Full(s: Selection) {
    |s.myHand| >= 2 && |s.communityCards| >= 5
  }

  /** The odds are shown exactly when the hand is complete and the flop is out. */
  predicate OddsReady(s: Selection) {
    |s.myHand| == 2 && |s.communityCards| >= 3
  }

  /** The selected cards in the order they were selected. */
  function Selected(s: Selection): seq<Card> {
    s.myHand + s.communityCards
  }

  /** `select_card`: fill the hand to 2 cards, then the board to 5, then ignore further cards. */
  function Select(s: Selection, card: Card): Selection {
    if |s.myHand| < 2 then s.(myHand := s.myHand + [card])
    else if |s.communityCards| < 5 then s.(communityCards := s.communityCards + [card])
    else s
  }

  /** `undo_selection`: drop the last board card if any, else the last hand card, else nothing. */
  function Undo(s: Selection): Selection {
    if s.communityCards != [] then s.(communityCards := s.communityCards[..|s.communityCards| - 1])
    else if s.myHand != [] then s.(myHand := s.myHand[..|s.myHand| - 1])
    else s
  }

  /** The selection after selecting `cards` one by one, starting from `s`. */
  function SelectAll(s: Selection, cards: seq<Card>): Selection {
    if cards == [] then s else Select(SelectAll(s, cards[..|cards| - 1]), cards[|cards| - 1])
  }

  function Min(a: nat, b: nat): nat {
    if a < b then a else b
  }

  /** Selecting keeps the invariant, and a selection that is not ignored adds the card last. */
  lemma SelectValid(s: Selection, card: Card)
    requires Valid(s)
    ensures Valid(Select(s, card))
    ensures Full(s) <==> Select(s, card) == s
    ensures !Full(s) ==> Selected(Select(s, card)) == Selected(s) + [card]
  {
    if |s.myHand| < 2 {
      assert s.communityCards == [];
    }
  }

  /** Undoing keeps the invariant and takes back the card selected last. */
  lemma UndoValid(s: Selection)
    requires Valid(s)
    ensures Valid(Undo(s))
    ensures Selected(s) != [] ==> Selected(Undo(s)) == Selected(s)[..|Selected(s)| - 1]
    ensures Selected(s) == [] ==> Undo(s) == s
  {
    if s.communityCards != [] {
      assert Selected(Undo(s)) == Selected(s)[..|Selected(s)| - 1];
    } else if s.myHand != [] {
      assert Selected(s) == s.myHand;
    }
  }

  /** Undo takes back a selection that was not ignored. */
  lemma UndoSelect(s: Selection, card: Card)
    requires Valid(s) && !Full(s)
    ensures Undo(Select(s, card)) == s
  {
    if |s.myHand| < 2 {
      assert s.communityCards == [];
      assert (s.myHand + [card])[..|s.myHand|] == s.myHand;
    } else {
      assert (s.communityCards + [card])[..|s.communityCards|] == s.communityCards;
    }
  }

  /**
   * From the empty selection, the first two selected cards form the hand and the
   * next five the board; later selections are ignored.
   */
  lemma {:induction false} SelectAllSplits(cards: seq<Card>)
    ensures SelectAll(Selection([], []), cards)
      == Selection(cards[..Min(|cards|, 2)], cards[Min(|cards|, 2)..Min(|cards|, 7)])
    ensures Valid(SelectAll(Selection([], []), cards))
  {
    if cards != [] {
      var n := |cards|;
      var prefix := cards[..n - 1];
      SelectAllSplits(prefix);
      assert prefix[..Min(n - 1, 2)] == cards[..Min(n - 1, 2)];
      assert prefix[Min(n - 1, 2)..Min(n - 1, 7)] == cards[Min(n - 1, 2)..Min(n - 1, 7)];
      if n <= 2 {
        assert cards[..n - 1] + [cards[n - 1]] == cards[..n];
      } else if n <= 7 {
        assert cards[2..n - 1] + [cards[n - 1]] == cards[2..n];
      }
    }
  }

  /** Every valid selection is what selecting its own cards from empty produces. */
  lemma ValidIsReachable(s: Selection)
    requires Valid(s)
    ensures SelectAll(Selection([], []), Selected(s)) == s
  {
    var cards := Selected(s);
    SelectAllSplits(cards);
    if s.communityCards == [] {
      assert cards == s.myHand;
    } else {
      assert cards[..2] == s.myHand;
      assert cards[2..|cards|] == s.communityCards;
    }
  }

  /** What the odds label shows after an action. */
  datatype OddsDisplay =
    | Unchanged                  // the label is left as it was
    | Blank                      // the label is reset to its empty text
    | Shown(odds: Result<Odds>)  // freshly simulated odds

  /** The calculator window's selection state. */
  class PokerCalculator {
    var myHand: seq<Card>
    var communityCards: seq<Card>

    function State(): Selection
      reads this
    {
      Selection(myHand, communityCards)
    }

    constructor ()
      ensures State() == Selection([], []) && Valid(State())
    {
      myHand := [];
      communityCards := [];
    }

    /**
     * `odds` is the result of simulating 1000 trials on the current selection with
     * opponent hands `hands`: the sampling error when fewer than two cards remain,
     * otherwise the rates of the tallied outcomes of those hands, each drawn from
     * the remaining deck.
     */
    ghost predicate Simulated(odds: Result<Odds>, hands: seq<seq<Card>>, score: Evaluator)
      reads this
    {
      if |RemainingDeck(Selected(State()))| < 2 then odds == Err(SampleLargerThanPopulation)
      else
        && |hands| == SIMULATIONS
        && (forall k :: 0 <= k < |hands| ==> IsOpponentHand(hands[k], RemainingDeck(Selected(State()))))
        && odds == WinRates(Tally(Outcomes(myHand, communityCards, hands, score)), SIMULATIONS)
    }

    /**
     * `calculate_odds`: simulate 1000 trials on the current selection. A valid
     * selection knows at most 7 cards, so at least 45 remain to sample from and
     * the odds always come back.
     */
    method CalculateOdds(score: Evaluator) returns (odds: Result<Odds>, ghost hands: seq<seq<Card>>)
      ensures Simulated(odds, hands, score)
      ensures Valid(State()) ==> odds.Ok?
      ensures odds.Ok? ==> odds.value.winRate + odds.value.tieRate + odds.value.lossRate == 1.0
    {
      odds, hands := SimulateWinProbability(myHand, communityCards, SIMULATIONS, score);
      if Valid(State()) {
        RemainingDeckAtLeast(myHand + communityCards);
      }
    }

    /**
     * `select_card`: the selection grows as `Select` says, and the odds are
     * recomputed exactly when the hand is complete and the flop is out, which
     * includes a selection ignored because both lists are full.
     */
    method SelectCard(card: Card, score: Evaluator) returns (display: OddsDisplay, ghost hands: seq<seq<Card>>)
      modifies this
      ensures State() == Select(old(State()), card)
      ensures old(Valid(State())) ==> Valid(State())
      ensures display.Shown? <==> OddsReady(State())
      ensures !display.Shown? ==> display == Unchanged
      ensures display.Shown? ==> Simulated(display.odds, hands, score)
      ensures display.Shown? && Valid(State()) ==> display.odds.Ok?
    {
      if |myHand| < 2 {
        myHand := myHand + [card];
      } else if |communityCards| < 5 {
        communityCards := communityCards + [card];
      }
      display, hands := Unchanged, [];
      if |myHand| == 2 && |communityCards| >= 3 {
        var odds;
        odds, hands := CalculateOdds(score);
        display := Shown(odds);
      }
    }

    /** `clear_selections`: both lists become empty and the odds label is reset. */
    method ClearSelections() returns (display: OddsDisplay)
      modifies this
      ensures State() == Selection([], []) && Valid(State())
      ensures display == Blank
    {
      myHand := [];
      communityCards := [];
      display := Blank;
    }

    /**
     * `undo_selection`: the selection shrinks as `Undo` says. With nothing to
     * undo the label is left alone; otherwise the odds are recomputed when still
     * ready and the label is reset when not.
     */
    method UndoSelection(score: Evaluator) returns (display: OddsDisplay, ghost hands: seq<seq<Card>>)
      modifies this
      ensures State() == Undo(old(State()))
      ensures old(Valid(State())) ==> Valid(State())
      ensures old(State()) == Selection([], []) ==> display == Unchanged
      ensures old(State()) != Selection([], []) ==>
        (display.Shown? <==> OddsReady(State())) && (!display.Shown? ==> display == Blank)
      ensures display.Shown? ==> Simulated(display.odds, hands, score)
      ensures display.Shown? && Valid(State()) ==> display.odds.Ok?
    {
      hands := [];
      if communityCards != [] {
        communityCards := communityCards[..|communityCards| - 1];
      } else if myHand != [] {
        myHand := myHand[..|myHand| - 1];
      } else {
        return Unchanged, hands;
      }
      if |myHand| == 2 && |communityCards| >= 3 {
        var odds;
        odds, hands := CalculateOdds(score);
        display := Shown(odds);
      } else {
        display := Blank;
      }
    }
  }
}
