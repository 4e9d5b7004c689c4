/**
 * The 52-card deck as two-character codes (rank then suit), the deck with the
 * known cards taken out, and the display form of a card.
 */
module Cards {
  import opened Wrappers

  /** A card code such as "As": a rank character followed by a suit character. */
  type Card = string

  const RANKS: string := "23456789TJQKA"
  const SUITS: string := "shdc"

  /** Suit character to suit glyph: spade, heart, diamond, club. */
  const SYMBOLS: map<char, char> :=
    map['s' := '\U{2660}', 'h' := '\U{2665}', 'd' := '\U{2666}', 'c' := '\U{2663}']

  /** A well-formed card code: one rank character, then one suit character. */
  predicate IsCard(c: Card) {
    |c| == 2 && c[0] in RANKS && c[1] in SUITS
  }

  /**
   * `DECK`, the comprehension `[rank + suit for rank in RANKS for suit in SUITS]`:
   * position i holds rank i / |SUITS| with suit i % |SUITS|, so ranks vary slowest.
   */
  function Deck(): (d: seq<Card>)
    ensures |d| == 52
  {
    seq(|RANKS| * |SUITS|, i requires 0 <= i < |RANKS| * |SUITS| => [RANKS[i / |SUITS|], SUITS[i % |SUITS|]])
  }

  lemma RanksAndSuitsDistinct()
    ensures Distinct(RANKS) && Distinct(SUITS)
  {
  }

  /** The code at position 4r + s of `DECK` is rank r of RANKS followed by suit s of SUITS. */
  lemma DeckAt(r: nat, s: nat)
    requires r < 13 && s < 4
    ensures 4 * r + s < |Deck()| == 52 && Deck()[4 * r + s] == [RANKS[r], SUITS[s]]
  {
    var i := 4 * r + s;
    assert i / 4 == r && i % 4 == s;
  }

  /** `DECK` holds 52 codes, no two alike. */
  lemma DeckDistinct()
    ensures |Deck()| == 52 && Distinct(Deck())
  {
    RanksAndSuitsDistinct();
    var d := Deck();
    forall i, j | 0 <= i < j < |d| ensures d[i] != d[j] {
      assert i == 4 * (i / 4) + i % 4 && j == 4 * (j / 4) + j % 4;
      assert d[i][0] == RANKS[i / 4] && d[j][0] == RANKS[j / 4];
      assert d[i][1] == SUITS[i % 4] && d[j][1] == SUITS[j % 4];
    }
  }

  /** A code is in `DECK` exactly when it is a well-formed card code. */
  lemma DeckMembership(c: Card)
    ensures c in Deck() <==> IsCard(c)
  {
    if IsCard(c) {
      var r :| 0 <= r < 13 && RANKS[r] == c[0];
      var s :| 0 <= s < 4 && SUITS[s] == c[1];
      DeckAt(r, s);
      assert c == [c[0], c[1]];
    }
  }

  /** `[x for x in s if x not in known]`. */
  function Without(s: seq<Card>, known: seq<Card>): seq<Card> {
    if s == [] then []
    else if s[0] in known then Without(s[1..], known)
    else [s[0]] + Without(s[1..], known)
  }

  /** The position of the first occurrence of `c` in `s`. */
  function IndexOf(s: seq<Card>, c: Card): (k: nat)
    requires c in s
    ensures k < |s| && s[k] == c
    ensures forall i :: 0 <= i < k ==> s[i] != c
  {
    if s[0] == c then 0 else 1 + IndexOf(s[1..], c)
  }

  lemma {:induction false} WithoutMembership(s: seq<Card>, known: seq<Card>, c: Card)
    ensures c in Without(s, known) <==> c in s && c !in known
  {
    if s != [] {
      WithoutMembership(s[1..], known, c);
      assert s == [s[0]] + s[1..];
    }
  }

  /** Past a head that differs from `c`, positions shift by one. */
  lemma IndexOfTail(s: seq<Card>, c: Card)
    requires s != [] && c in s[1..] && s[0] != c
    ensures IndexOf(s, c) == 1 + IndexOf(s[1..], c)
  {
  }

  /** Filtering keeps the order of `s`: earlier kept cards come earlier in `s`. */
  lemma {:induction false} WithoutOrdered(s: seq<Card>, known: seq<Card>)
    requires Distinct(s)
    ensures forall c :: c in Without(s, known) ==> c in s
    ensures forall i, j :: 0 <= i < j < |Without(s, known)| ==>
      IndexOf(s, Without(s, known)[i]) < IndexOf(s, Without(s, known)[j])
  {
    forall c | c in Without(s, known) ensures c in s {
      WithoutMembership(s, known, c);
    }
    if s != [] {
      var t := s[1..];
      DistinctTail(s);
      WithoutOrdered(t, known);
      var w, r := Without(t, known), Without(s, known);
      forall k | 0 <= k < |w| ensures IndexOf(s, w[k]) == 1 + IndexOf(t, w[k]) {
        assert w[k] in w;
        IndexOfTail(s, w[k]);
      }
      if s[0] !in known {
        assert r == [s[0]] + w;
        forall i, j | 0 <= i < j < |r| ensures IndexOf(s, r[i]) < IndexOf(s, r[j]) {
          assert r[j] == w[j - 1];
          if i > 0 {
            assert r[i] == w[i - 1];
          }
        }
      } else {
        assert r == w;
      }
    }
  }

  /** Over distinct `s`, filtering removes exactly the cards of `s` that are known. */
  lemma {:induction false} WithoutLength(s: seq<Card>, known: seq<Card>)
    requires Distinct(s)
    ensures |Without(s, known)| == |s| - |Elems(s) * Elems(known)|
  {
    if s != [] {
      var t := s[1..];
      DistinctTail(s);
      WithoutLength(t, known);
      var x, common := s[0], Elems(t) * Elems(known);
      assert Elems(s) == {x} + Elems(t) by {
        assert s == [x] + t;
      }
      assert x !in common;
      if x in known {
        assert Elems(s) * Elems(known) == {x} + common;
      } else {
        assert Elems(s) * Elems(known) == common;
      }
    }
  }

  /** `remaining_deck`: the deck cards that are not among the known cards, in deck order. */
  function RemainingDeck(known: seq<Card>): seq<Card> {
    Without(Deck(), known)
  }

  /** The remaining deck holds exactly the well-formed cards that are not known. */
  lemma RemainingDeckMembership(known: seq<Card>, c: Card)
    ensures c in RemainingDeck(known) <==> IsCard(c) && c !in known
  {
    WithoutMembership(Deck(), known, c);
    DeckMembership(c);
  }

  /** The remaining deck keeps deck order. */
  lemma RemainingDeckOrdered(known: seq<Card>)
    ensures forall c :: c in RemainingDeck(known) ==> c in Deck()
    ensures forall i, j :: 0 <= i < j < |RemainingDeck(known)| ==>
      IndexOf(Deck(), RemainingDeck(known)[i]) < IndexOf(Deck(), RemainingDeck(known)[j])
  {
    DeckDistinct();
    WithoutOrdered(Deck(), known);
  }

  /** Because it keeps deck order, the remaining deck holds each card once. */
  lemma RemainingDeckDistinct(known: seq<Card>)
    ensures Distinct(RemainingDeck(known))
  {
    RemainingDeckOrdered(known);
    var r := RemainingDeck(known);
    forall i, j | 0 <= i < j < |r| ensures r[i] != r[j] {
      assert IndexOf(Deck(), r[i]) < IndexOf(Deck(), r[j]);
    }
  }

  /** Whatever the known cards, at most `|known|` cards leave the deck. */
  lemma RemainingDeckAtLeast(known: seq<Card>)
    ensures |RemainingDeck(known)| >= 52 - |known|
  {
    DeckDistinct();
    WithoutLength(Deck(), known);
    ElemsBound(known);
    SubsetCard(Elems(Deck()) * Elems(known), Elems(known));
  }

  lemma SubsetCard(a: set<Card>, b: set<Card>)
    requires a <= b
    ensures |a| <= |b|
  {
    assert b == a + (b - a);
  }

  /** When the known cards are distinct deck cards, exactly `|known|` cards leave the deck. */
  lemma RemainingDeckLength(known: seq<Card>)
    requires Distinct(known)
    requires forall c :: c in known ==> IsCard(c)
    ensures |RemainingDeck(known)| == 52 - |known|
  {
    DeckDistinct();
    WithoutLength(Deck(), known);
    DistinctElems(known);
    forall c | c in Elems(known) ensures c in Elems(Deck()) {
      DeckMembership(c);
    }
    assert Elems(Deck()) * Elems(known) == Elems(known);
  }

  /** `display_card`: the rank character followed by the suit's glyph. */
  function DisplayCard(card: Card): (r: Result<string>)
    ensures r == Err(IndexError) <==> |card| < 2
    ensures r == Err(KeyError) <==> |card| >= 2 && card[1] !in SUITS
    ensures r.Ok? ==> |r.value| == 2 && r.value[0] == card[0] && r.value[1] == SYMBOLS[card[1]]
  {
    if |card| < 2 then Err(IndexError)
    else if card[1] !in SYMBOLS then Err(KeyError)
    else Ok([card[0], SYMBOLS[card[1]]])
  }

  /** Every deck card has a display form, and no two deck cards share one. */
  lemma DisplayCardInjective(c1: Card, c2: Card)
    requires IsCard(c1) && IsCard(c2)
    ensures DisplayCard(c1).Ok?
    ensures DisplayCard(c1) == DisplayCard(c2) ==> c1 == c2
  {
    if DisplayCard(c1) == DisplayCard(c2) {
      assert c1[0] == c2[0];
      assert SYMBOLS[c1[1]] == SYMBOLS[c2[1]];
      assert c1 == [c1[0], c1[1]] && c2 == [c2[0], c2[1]];
    }
  }
}
