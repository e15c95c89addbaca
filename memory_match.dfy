/**
 * The memory-match ("sea memory") game: twelve face-down cards holding six
 * fish symbols twice each; the player turns cards over two at a time.
 */
module MemoryMatch {

  datatype Symbol = TropicalFish | CommonFish | Blowfish | Shark | Octopus | Crab

  /** The six symbols, in the order the source lists them. */
  const Symbols: seq<Symbol> := [TropicalFish, CommonFish, Blowfish, Shark, Octopus, Crab]

  /** The unshuffled deck: the six symbols, then the six again. */
  const Deck: seq<Symbol> := Symbols + Symbols

  /** An order of the deck: any arrangement of its twelve cards. */
  type Shuffle = s: seq<Symbol> | multiset(s) == multiset(Deck) witness Deck

  const CardCount: nat := 12
  const PairCount: nat := 6

  datatype Card = Card(value: Symbol, flipped: bool, matched: bool)

  /** The game record: the cards, the indices of face-up cards waiting to be judged, and the counters. */
  datatype Memory = Memory(cards: seq<Card>, flippedCards: seq<nat>, moves: nat, matchedPairs: nat, gameWon: bool)

  lemma SymbolsOnce(s: Symbol)
    ensures multiset(Symbols)[s] == 1
  {
    assert Symbols == [TropicalFish] + [CommonFish] + [Blowfish] + [Shark] + [Octopus] + [Crab];
  }

  /** Any shuffle of the deck holds twelve cards and every symbol exactly twice. */
  lemma ShuffleHoldsPairs(shuffled: seq<Symbol>, s: Symbol)
    requires multiset(shuffled) == multiset(Deck)
    ensures |shuffled| == CardCount && multiset(shuffled)[s] == 2
  {
    SymbolsOnce(s);
    assert |shuffled| == |multiset(shuffled)| == |Deck|;
  }

  /** The number of matched cards. */
  function MatchedCount(cards: seq<Card>): nat
  {
    if cards == [] then 0
    else MatchedCount(cards[..|cards| - 1]) + (if cards[|cards| - 1].matched then 1 else 0)
  }

  lemma {:induction false} MatchedCountUpdate(cards: seq<Card>, k: nat, c: Card)
    requires k < |cards|
    ensures MatchedCount(cards[k := c]) ==
      MatchedCount(cards) - (if cards[k].matched then 1 else 0) + (if c.matched then 1 else 0)
  {
    var n := |cards| - 1;
    if k < n {
      assert cards[k := c][..n] == cards[..n][k := c];
      MatchedCountUpdate(cards[..n], k, c);
    } else {
      assert cards[k := c][..n] == cards[..n];
    }
  }

  /** At most every card is matched, and all are exactly when the count reaches the length. */
  lemma {:induction false} MatchedCountAll(cards: seq<Card>)
    ensures MatchedCount(cards) <= |cards|
    ensures MatchedCount(cards) == |cards| <==> forall k :: 0 <= k < |cards| ==> cards[k].matched
  {
    if cards != [] {
      var n := |cards| - 1;
      MatchedCountAll(cards[..n]);
      if MatchedCount(cards) == |cards| {
        forall k | 0 <= k < |cards| ensures cards[k].matched {
          if k < n {
            assert cards[k] == cards[..n][k];
          }
        }
      } else {
        assert (forall k :: 0 <= k < n ==> cards[..n][k].matched) ==> !cards[n].matched;
      }
    }
  }

  lemma {:induction false} MatchedCountZero(cards: seq<Card>)
    requires forall k :: 0 <= k < |cards| ==> !cards[k].matched
    ensures MatchedCount(cards) == 0
  {
    if cards != [] {
      MatchedCountZero(cards[..|cards| - 1]);
    }
  }

  /** Twelve cards, at most two waiting, and the waiting indices point at cards. */
  predicate WellFormed(m: Memory)
  {
    && |m.cards| == CardCount
    && |m.flippedCards| <= 2
    && (|m.flippedCards| >= 1 ==> m.flippedCards[0] < CardCount)
    && (|m.flippedCards| == 2 ==> m.flippedCards[1] < CardCount)
  }

  /**
   * `flipMemoryCard`: the new record and whether a delayed turn-back was
   * scheduled. Ignored once the game is won, for a card that is already up
   * or matched, and while two cards wait. Otherwise the card goes up and
   * joins the waiting list; when that list reaches two a move is counted,
   * and an equal pair is matched at once (six pairs win the game) while an
   * unequal pair stays up until the turn-back.
   */
  function FlipStep(m: Memory, i: nat): (r: (Memory, bool))
    requires WellFormed(m) && i < CardCount
    ensures WellFormed(r.0) && r.0.matchedPairs >= m.matchedPairs && r.0.moves >= m.moves
    ensures r.1 ==> |r.0.flippedCards| == 2 && r.0.moves == m.moves + 1
  {
    if m.gameWon then (m, false)
    else if m.cards[i].flipped || m.cards[i].matched || |m.flippedCards| >= 2 then (m, false)
    else
      var cards := m.cards[i := m.cards[i].(flipped := true)];
      var pending := m.flippedCards + [i];
      if |pending| < 2 then (m.(cards := cards, flippedCards := pending), false)
      else
        var j := pending[0];
        if cards[j].value == cards[i].value then
          var pairs := m.matchedPairs + 1;
          var both := cards[j := cards[j].(matched := true)][i := cards[i].(matched := true)];
          (Memory(both, [], m.moves + 1, pairs, pairs == PairCount), false)
        else
          (m.(cards := cards, flippedCards := pending, moves := m.moves + 1), true)
  }

  /** The delayed turn-back after an unequal pair: both waiting cards go down and the list empties. */
  function ResolveStep(m: Memory): (r: Memory)
    requires WellFormed(m) && |m.flippedCards| == 2
    ensures WellFormed(r) && r.flippedCards == []
    ensures r.moves == m.moves && r.matchedPairs == m.matchedPairs && r.gameWon == m.gameWon
  {
    var j, i := m.flippedCards[0], m.flippedCards[1];
    m.(cards := m.cards[j := m.cards[j].(flipped := false)][i := m.cards[i].(flipped := false)],
       flippedCards := [])
  }

  /**
   * The invariant of a board: the dealt symbols stay put, at most two cards
   * wait, waiting cards are distinct, up and unmatched, two waiting cards
   * never hold the same symbol (an equal pair is matched at once), a card is
   * up exactly when it is matched or waiting, two matched cards per found
   * pair, and the game is won exactly at six pairs.
   */
  ghost predicate Board(m: Memory, deal: seq<Symbol>)
  {
    && WellFormed(m)
    && |deal| == CardCount
    && (forall k :: 0 <= k < CardCount ==> m.cards[k].value == deal[k])
    && (|m.flippedCards| >= 1 ==> Waiting(m, m.flippedCards[0]))
    && (|m.flippedCards| == 2 ==>
          && Waiting(m, m.flippedCards[1])
          && m.flippedCards[0] != m.flippedCards[1]
          && m.cards[m.flippedCards[0]].value != m.cards[m.flippedCards[1]].value)
    && (forall k :: 0 <= k < CardCount ==> (m.cards[k].flipped <==> m.cards[k].matched || Pending(m, k)))
    && MatchedCount(m.cards) == 2 * m.matchedPairs
    && (m.gameWon <==> m.matchedPairs == PairCount)
  }

  /** Card `k` is on the waiting list (which never holds more than two). */
  predicate Pending(m: Memory, k: nat)
  {
    (|m.flippedCards| >= 1 && m.flippedCards[0] == k) || (|m.flippedCards| >= 2 && m.flippedCards[1] == k)
  }

  /** Card `k` is face up and unmatched. */
  predicate Waiting(m: Memory, k: nat)
    requires |m.cards| == CardCount && k < CardCount
  {
    m.cards[k].flipped && !m.cards[k].matched
  }

  /** A freshly dealt board. */
  function Deal(shuffled: seq<Symbol>): (m: Memory)
    requires multiset(shuffled) == multiset(Deck)
    ensures Board(m, shuffled)
    ensures m.flippedCards == [] && m.moves == 0 && m.matchedPairs == 0 && !m.gameWon
    ensures forall k :: 0 <= k < CardCount ==> m.cards[k] == Card(shuffled[k], false, false)
  {
    ShuffleHoldsPairs(shuffled, TropicalFish);
    var cards := seq(|shuffled|, k requires 0 <= k < |shuffled| => Card(shuffled[k], false, false));
    MatchedCountZero(cards);
    Memory(cards, [], 0, 0, false)
  }

  /** Turning up a first card keeps the board invariant. */
  lemma FlipFirstKeepsBoard(m: Memory, deal: seq<Symbol>, i: nat)
    requires Board(m, deal) && i < CardCount
    requires !m.gameWon && !m.cards[i].flipped && !m.cards[i].matched && m.flippedCards == []
    ensures Board(m.(cards := m.cards[i := m.cards[i].(flipped := true)], flippedCards := [i]), deal)
  {
    MatchedCountUpdate(m.cards, i, m.cards[i].(flipped := true));
  }

  /** Turning up a second card with a different symbol keeps the board invariant. */
  lemma FlipMismatchKeepsBoard(m: Memory, deal: seq<Symbol>, i: nat)
    requires Board(m, deal) && i < CardCount
    requires !m.gameWon && !m.cards[i].flipped && !m.cards[i].matched && |m.flippedCards| == 1
    requires m.cards[m.flippedCards[0]].value != m.cards[i].value
    ensures Board(m.(cards := m.cards[i := m.cards[i].(flipped := true)],
                     flippedCards := m.flippedCards + [i], moves := m.moves + 1), deal)
  {
    MatchedCountUpdate(m.cards, i, m.cards[i].(flipped := true));
  }

  /** Turning up a second card with the same symbol keeps the board invariant, and never overshoots six pairs. */
  lemma FlipMatchKeepsBoard(m: Memory, deal: seq<Symbol>, i: nat)
    requires Board(m, deal) && i < CardCount
    requires !m.gameWon && !m.cards[i].flipped && !m.cards[i].matched && |m.flippedCards| == 1
    requires m.cards[m.flippedCards[0]].value == m.cards[i].value
    ensures var j := m.flippedCards[0];
      var cards := m.cards[i := m.cards[i].(flipped := true)];
      var both := cards[j := cards[j].(matched := true)][i := cards[i].(matched := true)];
      Board(Memory(both, [], m.moves + 1, m.matchedPairs + 1, m.matchedPairs + 1 == PairCount), deal)
  {
    var j := m.flippedCards[0];
    var cards := m.cards[i := m.cards[i].(flipped := true)];
    var mid := cards[j := cards[j].(matched := true)];
    var both := mid[i := mid[i].(matched := true)];
    MatchedCountUpdate(m.cards, i, cards[i]);
    MatchedCountUpdate(cards, j, mid[j]);
    MatchedCountUpdate(mid, i, both[i]);
    MatchedCountAll(both);
  }

  /** Every flip keeps the board invariant. */
  lemma FlipKeepsBoard(m: Memory, deal: seq<Symbol>, i: nat)
    requires Board(m, deal) && i < CardCount
    ensures Board(FlipStep(m, i).0, deal)
  {
    if !m.gameWon && !m.cards[i].flipped && !m.cards[i].matched && |m.flippedCards| < 2 {
      if m.flippedCards == [] {
        FlipFirstKeepsBoard(m, deal, i);
      } else if m.cards[m.flippedCards[0]].value == m.cards[i].value {
        FlipMatchKeepsBoard(m, deal, i);
      } else {
        FlipMismatchKeepsBoard(m, deal, i);
      }
    }
  }

  /** The turn-back keeps the board invariant. */
  lemma ResolveKeepsBoard(m: Memory, deal: seq<Symbol>)
    requires Board(m, deal) && |m.flippedCards| == 2
    ensures Board(ResolveStep(m), deal)
  {
    var j, i := m.flippedCards[0], m.flippedCards[1];
    var mid := m.cards[j := m.cards[j].(flipped := false)];
    MatchedCountUpdate(m.cards, j, mid[j]);
    MatchedCountUpdate(mid, i, m.cards[i].(flipped := false));
  }

  /** A flip is ignored once the game is won, on an up or matched card, and while two cards wait. */
  lemma FlipIgnored(m: Memory, i: nat)
    requires WellFormed(m) && i < CardCount
    ensures (m.gameWon || m.cards[i].flipped || m.cards[i].matched || |m.flippedCards| >= 2)
            <==> FlipStep(m, i) == (m, false)
  {
    if !(m.gameWon || m.cards[i].flipped || m.cards[i].matched || |m.flippedCards| >= 2) {
      assert FlipStep(m, i).0.cards[i] != m.cards[i];
    }
  }

  /**
   * A move is counted exactly when the waiting list reaches two; the pending
   * list never holds more than two cards, the pair count never drops, a
   * matched card stays matched and face up, and a symbol never changes.
   */
  lemma FlipCounters(m: Memory, deal: seq<Symbol>, i: nat)
    requires Board(m, deal) && i < CardCount
    ensures var r := FlipStep(m, i).0;
      && r.moves == m.moves + (if FlipStep(m, i) != (m, false) && |m.flippedCards| == 1 then 1 else 0)
      && |r.flippedCards| <= 2
      && r.matchedPairs >= m.matchedPairs
      && (forall k :: 0 <= k < CardCount && m.cards[k].matched ==> r.cards[k].matched && r.cards[k].flipped)
      && (forall k :: 0 <= k < CardCount ==> r.cards[k].value == m.cards[k].value)
  {
    FlipIgnored(m, i);
    FlipKeepsBoard(m, deal, i);
  }

  /**
   * The second card of a pair: with equal symbols both cards end matched,
   * one more pair is counted and the list clears; with different symbols
   * both stay up, waiting, and the turn-back is scheduled.
   */
  lemma FlipSecondCard(m: Memory, deal: seq<Symbol>, i: nat)
    requires Board(m, deal) && i < CardCount
    requires !m.gameWon && !m.cards[i].flipped && !m.cards[i].matched && |m.flippedCards| == 1
    ensures var j := m.flippedCards[0];
      var (r, mismatch) := FlipStep(m, i);
      if m.cards[j].value == m.cards[i].value then
        && !mismatch && r.flippedCards == [] && r.matchedPairs == m.matchedPairs + 1
        && r.cards[i].matched && r.cards[j].matched
        && (r.gameWon <==> r.matchedPairs == PairCount)
      else
        && mismatch && r.flippedCards == [j, i] && r.matchedPairs == m.matchedPairs
        && r.cards[i].flipped && r.cards[j].flipped
  {
  }

  /** The turn-back changes only the two waiting cards, and only their `flipped` flag. */
  lemma ResolveOnlyUnflipsPair(m: Memory)
    requires WellFormed(m) && |m.flippedCards| == 2
    ensures var r, j, i := ResolveStep(m), m.flippedCards[0], m.flippedCards[1];
      && !r.cards[j].flipped && !r.cards[i].flipped && r.flippedCards == []
      && (forall k :: 0 <= k < CardCount && k != i && k != j ==> r.cards[k] == m.cards[k])
      && r.cards[i].value == m.cards[i].value && r.cards[i].matched == m.cards[i].matched
      && r.cards[j].value == m.cards[j].value && r.cards[j].matched == m.cards[j].matched
      && r.moves == m.moves && r.matchedPairs == m.matchedPairs && r.gameWon == m.gameWon
  {
  }

  /** The game is won exactly when all twelve cards are matched. */
  lemma WonIffAllMatched(m: Memory, deal: seq<Symbol>)
    requires Board(m, deal)
    ensures m.gameWon <==> forall k :: 0 <= k < CardCount ==> m.cards[k].matched
    ensures m.matchedPairs <= PairCount
  {
    MatchedCountAll(m.cards);
  }

  /** The widget's game record, mutated in place by card clicks and by the turn-back timeout. */
  class MemoryGame {
    var cards: array<Card>
    var flippedCards: seq<nat>
    var moves: nat
    var matchedPairs: nat
    var gameWon: bool
    /** The symbols in the order they were dealt. */
    ghost const deal: seq<Symbol>

    ghost function State(): Memory
      reads this, cards
    {
      Memory(cards[..], flippedCards, moves, matchedPairs, gameWon)
    }

    ghost predicate Valid()
      reads this, cards
    {
      Board(State(), deal)
    }

    /** `getMemoryMatchData` on a widget without a game: a fresh board dealt in the order `shuffled`. */
    constructor (shuffled: Shuffle)
      ensures Valid() && fresh(cards)
      ensures State() == Deal(shuffled)
    {
      var m := Deal(shuffled);
      cards := new Card[CardCount](k requires 0 <= k < CardCount => m.cards[k]);
      deal := shuffled;
      flippedCards := [];
      moves := 0;
      matchedPairs := 0;
      gameWon := false;
      new;
      assert cards[..] == m.cards;
    }

    method Flip(i: nat) returns (mismatch: bool)
      requires Valid() && i < CardCount
      modifies this, cards
      ensures Valid() && cards == old(cards)
      ensures (State(), mismatch) == FlipStep(old(State()), i)
    {
      mismatch := false;
      if gameWon || cards[i].flipped || cards[i].matched || |flippedCards| >= 2 {
        return;
      }
      if flippedCards == [] {
        TurnFirst(i);
      } else if cards[flippedCards[0]].value == cards[i].value {
        TurnMatching(i);
      } else {
        TurnMismatching(i);
        mismatch := true;
      }
    }

    /** The first card of a pair goes up and waits. */
    method TurnFirst(i: nat)
      requires Valid() && i < CardCount
      requires !gameWon && !cards[i].flipped && !cards[i].matched && flippedCards == []
      modifies this, cards
      ensures Valid() && cards == old(cards)
      ensures (State(), false) == FlipStep(old(State()), i)
    {
      FlipFirstKeepsBoard(State(), deal, i);
      cards[i] := cards[i].(flipped := true);
      assert flippedCards + [i] == [i];
      flippedCards := [i];
    }

    /** A second card with the waiting card's symbol: a move is counted and both cards are matched. */
    method TurnMatching(i: nat)
      requires Valid() && i < CardCount
      requires !gameWon && !cards[i].flipped && !cards[i].matched && |flippedCards| == 1
      requires cards[flippedCards[0]].value == cards[i].value
      modifies this, cards
      ensures Valid() && cards == old(cards)
      ensures (State(), false) == FlipStep(old(State()), i)
    {
      FlipMatchKeepsBoard(State(), deal, i);
      var first := flippedCards[0];
      cards[i] := cards[i].(flipped := true);
      moves := moves + 1;
      cards[first] := cards[first].(matched := true);
      cards[i] := cards[i].(matched := true);
      matchedPairs := matchedPairs + 1;
      flippedCards := [];
      gameWon := matchedPairs == PairCount;
    }

    /** A second card with another symbol: a move is counted and both cards stay up, waiting. */
    method TurnMismatching(i: nat)
      requires Valid() && i < CardCount
      requires !gameWon && !cards[i].flipped && !cards[i].matched && |flippedCards| == 1
      requires cards[flippedCards[0]].value != cards[i].value
      modifies this, cards
      ensures Valid() && cards == old(cards)
      ensures (State(), true) == FlipStep(old(State()), i)
    {
      FlipMismatchKeepsBoard(State(), deal, i);
      cards[i] := cards[i].(flipped := true);
      flippedCards := flippedCards + [i];
      moves := moves + 1;
    }

    method ResolveMismatch()
      requires Valid() && |flippedCards| == 2
      modifies this, cards
      ensures Valid() && cards == old(cards)
      ensures State() == ResolveStep(old(State()))
    {
      ResolveKeepsBoard(State(), deal);
      var first, second := flippedCards[0], flippedCards[1];
      cards[first] := cards[first].(flipped := false);
      cards[second] := cards[second].(flipped := false);
      flippedCards := [];
    }
  }
}
