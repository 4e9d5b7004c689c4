# Texas Hold'em odds calculator: deck, Monte Carlo tally and card selection

A Dafny model of the card logic of `pthoc.py`. The calculator lets a player pick
two hole cards and up to five community cards. Once the flop (three community
cards) is out, it estimates the chance of beating one random opponent by
sampling 1000 opponent hands.

The model has four modules:

- `Wrappers`: `Result`, and the Python exceptions the code can raise
  (`IndexError`, `KeyError`, the `ValueError` of `random.sample` on a pool that
  is too small, `ZeroDivisionError`). It also holds the sequence facts the other
  modules share.
- `Cards`: `RANKS`, `SUITS`, `SYMBOLS` and `DECK`. It defines the remaining deck
  (the deck without the known cards, in deck order) and `display_card`.
- `Equity`: `simulate_win_probability`. The opponent hand is drawn as two
  cards at two different positions of the remaining deck. Each trial is
  classified by comparing two integer scores, where the lower score wins. The
  outcomes are tallied, and the counts are turned into exact rational rates.
- `Calculator`: the two lists of `PokerCalculatorApp` (`my_hand`,
  `community_cards`) as fields of a class. The class has `select_card`,
  `undo_selection`, `clear_selections` and `calculate_odds`. It also models the
  rule for when the odds are recomputed. The pure transition functions
  `Select` and `Undo` on a `Selection` value specify the methods.

The hand evaluator (`evaluate_hand`, which wraps the `treys` library) is a
parameter `score: (seq<Card>, seq<Card>) -> int`. It is any deterministic
function where a lower score means a stronger hand. Randomness is a
nondeterministic choice (`:|`) of two distinct positions. `SimulateWinProbability`
returns, as a ghost out-parameter, the opponent hand drawn in each trial. Its
rates are then stated exactly as `WinRates(Tally(Outcomes(...)))` of those
hands.

Behaviour of the code worth noting:

- The remaining deck does not reject duplicate or unknown cards. Any known
  code is simply filtered out. Its length is `52 - |known|` only when the known
  cards are distinct deck cards (`RemainingDeckLength`). In general it is at
  least `52 - |known|` (`RemainingDeckAtLeast`).
- The simulation does not check the sizes of the hand or the board. Apart from
  errors raised inside the evaluator (left out below), it fails only in two
  ways. With zero simulations it divides by zero after the loop. With fewer
  than two remaining cards, the first sample raises `ValueError`.
- A negative number of simulations runs no trial, because `range` is empty.
  The rates are then all zero, so they do not sum to 1.
- No community cards are dealt for the opponent trials. Both hands are scored
  on the board as it is.
- Selecting a card when both lists are full still recomputes the odds.

## Model

| member | source | states |
|---|---|---|
| Cards.Deck | pthoc.py:6-9 | `DECK`: the rank-outer, suit-inner comprehension over `RANKS` and `SUITS`; it has 52 entries |
| Cards.DeckAt | pthoc.py:6-9 | `DECK` has 52 entries, and the entry at position 4r + s is rank r of `RANKS` followed by suit s of `SUITS` (rank-major order) |
| Cards.DeckDistinct | pthoc.py:6-9 | the 52 entries of `DECK` are pairwise distinct |
| Cards.DeckMembership | pthoc.py:6-9 | a code is in `DECK` if and only if it is one rank character followed by one suit character |
| Cards.Without | pthoc.py:26 | the list comprehension that keeps, in order, the entries of a list that are not among the known cards |
| Cards.WithoutMembership | pthoc.py:26 | a card survives the filter if and only if it is in the source list and not known |
| Cards.WithoutOrdered | pthoc.py:26 | the filter keeps the source list's order: kept cards appear in increasing source position |
| Cards.WithoutLength | pthoc.py:26 | over a list without repeats, the filter removes exactly the known cards that occur in it |
| Cards.RemainingDeck | pthoc.py:26 | `remaining_deck`: `DECK` filtered by `my_hand + community_cards` |
| Cards.RemainingDeckMembership | pthoc.py:26 | `remaining_deck` holds a card if and only if it is a well-formed card not among `my_hand + community_cards` |
| Cards.RemainingDeckOrdered | pthoc.py:26 | `remaining_deck` lists its cards in `DECK` order |
| Cards.RemainingDeckDistinct | pthoc.py:26 | `remaining_deck` holds no card twice |
| Cards.RemainingDeckAtLeast | pthoc.py:26 | whatever the known cards, `remaining_deck` has at least `52 - |known|` cards |
| Cards.RemainingDeckLength | pthoc.py:26 | when the known cards are distinct deck cards, `remaining_deck` has exactly `52 - |known|` cards |
| Cards.DisplayCard | pthoc.py:46-48 | `display_card` gives the rank character then the suit's symbol; a code shorter than 2 raises `IndexError`, and a second character that is not a suit raises `KeyError` |
| Cards.DisplayCardInjective | pthoc.py:46-48 | every deck card has a display form, and two deck cards with the same display form are the same card |
| Equity.Classify | pthoc.py:33-38 | one trial's outcome: a lower player score is a win, a higher one a loss, an equal one a tie |
| Equity.ClassifyAntisymmetric | pthoc.py:33-38 | swapping the two scores swaps win and loss, and a tie happens exactly on equal scores |
| Equity.Count | pthoc.py:33-38 | increments the one counter that matches the outcome, so the three counts grow by exactly 1 |
| Equity.Outcomes | pthoc.py:28-38 | the outcome of each trial, one per sampled opponent hand, comparing the player's score with that hand's score on the same board |
| Equity.Tally | pthoc.py:22-38 | every trial increments exactly one counter, so wins + ties + losses equals the number of trials |
| Equity.TallyUniform | pthoc.py:28-38 | when every trial has the same outcome, that counter equals the number of trials and the others are 0 |
| Equity.WinRates | pthoc.py:40-43 | each rate is its count divided by `simulations`; zero simulations raise `ZeroDivisionError`; zero counts over negative simulations give rates of zero; when the counts add up to `simulations`, each rate lies in [0, 1] and the three sum to 1 |
| Equity.SampleTwo | pthoc.py:29 | `random.sample(pool, 2)` returns the pool entries at two different positions (distinct cards when the pool has no repeats); a pool of fewer than 2 cards raises `ValueError` |
| Equity.SimulateWinProbability | pthoc.py:21-43 | runs `simulations` trials (none when negative, giving rates of zero), each on two different remaining-deck cards; the rates are those of the tallied outcomes and, for a positive count, lie in [0, 1] and sum to 1; errors happen exactly on zero simulations or on a positive count with a remaining deck smaller than 2; with a positive count, a hand scoring below (equal to, above) every possible opponent hand yields rates (1, 0, 0) ((0, 1, 0), (0, 0, 1)) |
| Equity.DominantHandAlwaysWins | pthoc.py:31-38 | if the player's score is below every possible opponent hand's score, the rates are win 1, tie 0, loss 0 |
| Equity.EqualHandAlwaysTies | pthoc.py:31-38 | if the player's score equals every possible opponent hand's score, the rates are win 0, tie 1, loss 0 |
| Equity.DominatedHandAlwaysLoses | pthoc.py:31-38 | if the player's score is above every possible opponent hand's score, the rates are win 0, tie 0, loss 1 |
| Equity.OpponentHandDisjoint | pthoc.py:26-29 | a hand sampled from `remaining_deck` is two different deck cards, neither in `my_hand` nor on the board |
| Calculator.Select | pthoc.py:86-89 | `select_card` on the lists: append to the hand while it holds fewer than 2 cards, else to the board while it holds fewer than 5, else change nothing |
| Calculator.Undo | pthoc.py:133-138 | `undo_selection` on the lists: drop the last board card if there is one, else the last hand card if there is one, else change nothing |
| Calculator.OddsReady | pthoc.py:98 | the odds trigger: the hand holds exactly 2 cards and the board at least 3 |
| Calculator.SelectValid | pthoc.py:84-89 | selecting keeps hand ≤ 2, board ≤ 5 and "no board before a full hand"; the lists change if and only if they are not both full; an accepted card is appended last in selection order |
| Calculator.UndoValid | pthoc.py:131-138 | undo keeps the invariant and removes the most recently selected card; with nothing selected it changes nothing |
| Calculator.UndoSelect | pthoc.py:84-89 | selecting a card when the lists are not full and then undoing restores the prior selection |
| Calculator.SelectAllSplits | pthoc.py:84-89 | from empty lists, the first two selected cards form the hand, the next five the board, and later ones are ignored |
| Calculator.ValidIsReachable | pthoc.py:84-89 | every selection that satisfies the invariant is reached by selecting its own cards in order from empty lists |
| Calculator.PokerCalculator.constructor | pthoc.py:55-56 | both lists start empty |
| Calculator.PokerCalculator.CalculateOdds | pthoc.py:101-102 | simulates 1000 trials on the current lists: the sampling error exactly when fewer than 2 cards remain, otherwise the rates of the tallied outcomes of opponent hands drawn from the remaining deck; on a valid selection it never fails, and its rates sum to 1 |
| Calculator.PokerCalculator.SelectCard | pthoc.py:84-99 | the lists change as `Select` says and keep the invariant; the odds are recomputed exactly when the hand holds 2 cards and the board at least 3, including when the selection was ignored; the odds shown are those of a 1000-trial simulation on the new lists |
| Calculator.PokerCalculator.ClearSelections | pthoc.py:118-129 | both lists become empty and the odds label is reset |
| Calculator.PokerCalculator.UndoSelection | pthoc.py:131-148 | the lists change as `Undo` says; with nothing to undo the label is untouched; otherwise the odds are recomputed when the hand holds 2 cards and the board at least 3, and reset when not; the odds shown are those of a 1000-trial simulation on the new lists |

## Left out

- The Tk window, labels, grid layout and `mainloop`. These are user-interface plumbing. `update_display` is left out for the same reason; it only formats the lists with `display_card`.
- Enabling and disabling card buttons. A selection ignored because both lists are full still disables its button, and undo never re-enables that button. This widget state is not modelled.
- `available_cards` (a copy of `DECK` that only lays out the buttons).
- The `treys` evaluator and `Card.new`. The evaluator is an arbitrary deterministic integer score passed in as a parameter, with lower meaning stronger. Its ranking table, and any error it raises on a malformed hand, are not modelled.
- The distribution of `random.sample`. Only its guarantee is modelled: two cards from two different positions of the pool. Uniformity and independence between trials are not.
- Floating-point rates and the `%.2f` percentage text. Rates are exact `real` quotients.
- Python's `list.append` and `list.pop` act in place on the list objects. The model reassigns `seq` fields, so aliasing of the lists is not captured.
