/**
 * The server's `Deck` (sp/server/src/RoomThread.hpp and
 * sp/server/src/RoomThread.cpp carry the same class): 52 cards numbered
 * `0..51`, dealt from the back. The random shuffle is not modelled as an
 * algorithm: `Reset` takes the order the generator produced, which can be
 * any arrangement of the fresh cards.
 */
module Deck {
  const DECK_SIZE: nat := 52
  /** What `draw` returns once the deck is empty. */
  const NO_CARD: int := 255

  /** The cards `0..n-1` in order (`std::iota`). */
  function Iota(n: nat): (s: seq<int>)
    ensures |s| == n && forall i | 0 <= i < n :: s[i] == i
  {
    if n == 0 then [] else Iota(n - 1) + [n - 1]
  }

  /** An order the shuffle may produce: any rearrangement of `Iota(52)`. */
  predicate IsShuffle(order: seq<int>) {
    |order| == DECK_SIZE && multiset(order) == multiset(Iota(|order|))
  }

  /** No card occurs twice. */
  predicate Distinct(s: seq<int>) {
    forall i, j | 0 <= i < j < |s| :: s[i] != s[j]
  }

  /** `reset`: 52 fresh cards in the order the shuffle chose. */
  function Reset(order: seq<int>): (d: seq<int>)
    requires IsShuffle(order)
    ensures |d| == DECK_SIZE && Distinct(d)
    ensures forall i | 0 <= i < |d| :: 0 <= d[i] < DECK_SIZE
    ensures forall c | 0 <= c < DECK_SIZE :: c in d
  {
    ShuffleHoldsEachCardOnce(order);
    order
  }

  /** A shuffled order holds each of the 52 cards exactly once, and nothing else. */
  lemma ShuffleHoldsEachCardOnce(order: seq<int>)
    requires IsShuffle(order)
    ensures forall i | 0 <= i < |order| :: 0 <= order[i] < DECK_SIZE
    ensures Distinct(order)
    ensures forall c | 0 <= c < DECK_SIZE :: c in order
  {
    IotaCounts(DECK_SIZE);
    forall i | 0 <= i < |order| ensures 0 <= order[i] < DECK_SIZE {
      assert order[i] in multiset(order);
    }
    forall i, j | 0 <= i < j < |order| ensures order[i] != order[j] {
      if order[i] == order[j] {
        TwoOccurrences(order, i, j);
      }
    }
    forall c | 0 <= c < DECK_SIZE ensures c in order {
      assert c in multiset(order);
    }
  }

  /** Each of `0..n-1` occurs exactly once in `Iota(n)`, and nothing else occurs. */
  lemma {:induction false} IotaCounts(n: nat)
    ensures forall x :: multiset(Iota(n))[x] == if 0 <= x < n then 1 else 0
  {
    if n > 0 {
      IotaCounts(n - 1);
      assert multiset(Iota(n)) == multiset(Iota(n - 1)) + multiset{n - 1};
    }
  }

  /** Two positions holding the same value count twice in the multiset. */
  lemma TwoOccurrences(s: seq<int>, i: int, j: int)
    requires 0 <= i < j < |s| && s[i] == s[j]
    ensures multiset(s)[s[i]] >= 2
  {
    assert s == s[..j] + [s[j]] + s[j + 1..];
    assert s[..j][i] == s[i];
    assert multiset(s[..j])[s[i]] >= 1;
  }

  /** `draw`: the last card, removed; `NO_CARD` and no change when empty. */
  function Draw(cards: seq<int>): (r: (int, seq<int>))
    ensures |cards| > 0 ==> r.1 + [r.0] == cards
    ensures |cards| == 0 ==> r == (NO_CARD, cards)
  {
    if |cards| == 0 then (NO_CARD, cards)
    else (cards[|cards| - 1], cards[..|cards| - 1])
  }

  /** `n` draws in a row: the cards in draw order, and what is left. */
  function DrawN(cards: seq<int>, n: nat): (r: (seq<int>, seq<int>))
    ensures |r.0| == n
    decreases n
  {
    if n == 0 then ([], cards)
    else
      var (c, rest) := Draw(cards);
      var (more, left) := DrawN(rest, n - 1);
      ([c] + more, left)
  }

  /** The back-to-front order of `s`. */
  function Reversed(s: seq<int>): (r: seq<int>)
    ensures |r| == |s| && forall i | 0 <= i < |s| :: r[i] == s[|s| - 1 - i]
  {
    if |s| == 0 then [] else [s[|s| - 1]] + Reversed(s[..|s| - 1])
  }

  /** The top five cards in draw order: the top three in draw order, then the fourth and the fifth. */
  lemma TopFiveOrder(d: seq<int>)
    requires |d| >= 5
    ensures Reversed(d[|d| - 5..]) == Reversed(d[|d| - 3..]) + [d[|d| - 4]] + [d[|d| - 5]]
  {
    var n := |d|;
    var l, r := Reversed(d[n - 5..]), Reversed(d[n - 3..]) + [d[n - 4]] + [d[n - 5]];
    forall k | 0 <= k < 5 ensures l[k] == r[k] {
      assert l[k] == d[n - 1 - k];
    }
  }

  /**
   * Drawing `n <= |cards|` cards deals the top `n` from the back and
   * leaves the rest: nothing is lost, duplicated or invented.
   */
  lemma {:induction false} DrawNTakesTop(cards: seq<int>, n: nat)
    requires n <= |cards|
    ensures DrawN(cards, n).1 == cards[..|cards| - n]
    ensures DrawN(cards, n).0 == Reversed(cards[|cards| - n..])
    ensures multiset(DrawN(cards, n).0) + multiset(DrawN(cards, n).1) == multiset(cards)
    decreases n
  {
    if n > 0 {
      var rest := cards[..|cards| - 1];
      DrawNTakesTop(rest, n - 1);
      assert rest[..|rest| - (n - 1)] == cards[..|cards| - n];
      assert rest[|rest| - (n - 1)..] == cards[|cards| - n..|cards| - 1];
      assert cards[|cards| - n..][..n - 1] == cards[|cards| - n..|cards| - 1];
      assert multiset(cards) == multiset(rest) + multiset{cards[|cards| - 1]} by {
        assert cards == rest + [cards[|cards| - 1]];
      }
    }
  }

  /** Drawing past the bottom only yields `NO_CARD`. */
  lemma {:induction false} DrawNEmpty(n: nat)
    ensures DrawN([], n).1 == []
    ensures forall i | 0 <= i < n :: DrawN([], n).0[i] == NO_CARD
  {
    if n > 0 {
      DrawNEmpty(n - 1);
      assert DrawN([], n) == ([NO_CARD] + DrawN([], n - 1).0, DrawN([], n - 1).1);
    }
  }

  /** Cards drawn from a deck without repeats are themselves without repeats and no longer in the deck. */
  lemma DrawnAreFresh(cards: seq<int>, n: nat)
    requires n <= |cards| && Distinct(cards)
    ensures Distinct(DrawN(cards, n).0)
    ensures forall c | c in DrawN(cards, n).0 :: c !in DrawN(cards, n).1
  {
    DrawNTakesTop(cards, n);
    var drawn := DrawN(cards, n).0;
    var left := DrawN(cards, n).1;
    forall c | c in drawn ensures c !in left {
      var i :| 0 <= i < |drawn| && drawn[i] == c;
      assert drawn[i] == cards[|cards| - 1 - i];
    }
  }

  /** Two draws in a row: the first card, the second, and what is left. */
  function DrawTwo(cards: seq<int>): (r: (int, int, seq<int>))
    ensures |cards| >= 2 ==> r == (cards[|cards| - 1], cards[|cards| - 2], cards[..|cards| - 2])
    ensures |cards| < 2 ==> r.1 == NO_CARD && r.2 == []
  {
    var first := Draw(cards);
    var second := Draw(first.1);
    assert |cards| >= 2 ==> first.1[..|first.1| - 1] == cards[..|cards| - 2];
    (first.0, second.0, second.1)
  }

  /** The card dealt as card `a` (0 or 1) of the `j`-th two-card hand, dealing from the back. */
  function DealtCard(cards: seq<int>, j: nat, a: nat): int
    requires 2 * j + a < |cards|
  {
    cards[|cards| - 1 - 2 * j - a]
  }

  /** After one hand is dealt, deal position `j` of what is left is position `j + 1` of the deck before. */
  lemma DealtCardShift(cards: seq<int>, j: nat, a: nat)
    requires 2 * (j + 1) + a < |cards|
    ensures 2 * j + a < |cards[..|cards| - 2]|
    ensures DealtCard(cards[..|cards| - 2], j, a) == DealtCard(cards, j + 1, a)
  {
  }

  /** `m` two-card hands, each drawn with two draws in a row, and what is left. */
  function DealHands(cards: seq<int>, m: nat): (r: (seq<seq<int>>, seq<int>))
    ensures |r.0| == m && forall j | 0 <= j < m :: |r.0[j]| == 2
    decreases m
  {
    if m == 0 then ([], cards)
    else
      var two := DrawTwo(cards);
      var rest := DealHands(two.2, m - 1);
      var hands := [[two.0, two.1]] + rest.0;
      assert forall j | 1 <= j < m :: hands[j] == rest.0[j - 1];
      (hands, rest.1)
  }

  /** With enough cards, hand `j` holds the cards at deal position `j` and the bottom of the deck is left. */
  lemma {:induction false} DealHandsFromTop(cards: seq<int>, m: nat)
    requires |cards| >= 2 * m
    ensures DealHands(cards, m).1 == cards[..|cards| - 2 * m]
    ensures forall j | 0 <= j < m :: DealHands(cards, m).0[j] == [DealtCard(cards, j, 0), DealtCard(cards, j, 1)]
    decreases m
  {
    if m > 0 {
      var n := |cards|;
      var left := DrawTwo(cards).2;
      DealHandsFromTop(left, m - 1);
      assert left[..|left| - 2 * (m - 1)] == cards[..n - 2 * m];
      var hands := DealHands(cards, m).0;
      forall j | 0 <= j < m ensures hands[j] == [DealtCard(cards, j, 0), DealtCard(cards, j, 1)] {
        if j > 0 {
          assert hands[j] == DealHands(left, m - 1).0[j - 1];
          assert DealtCard(left, j - 1, 0) == DealtCard(cards, j, 0);
          assert DealtCard(left, j - 1, 1) == DealtCard(cards, j, 1);
        }
      }
    }
  }

  /** Different deal positions of a deck without repeats hold different cards, none of them in what is left. */
  lemma DealtCardsDistinct(cards: seq<int>, m: nat)
    requires Distinct(cards) && |cards| >= 2 * m
    ensures forall j1, j2, a, b | 0 <= j1 < m && 0 <= j2 < m && 0 <= a < 2 && 0 <= b < 2 && (j1, a) != (j2, b) ::
      DealtCard(cards, j1, a) != DealtCard(cards, j2, b)
    ensures forall j, a | 0 <= j < m && 0 <= a < 2 :: DealtCard(cards, j, a) !in cards[..|cards| - 2 * m]
  {
    var n := |cards|;
    forall j1, j2, a, b | 0 <= j1 < m && 0 <= j2 < m && 0 <= a < 2 && 0 <= b < 2 && (j1, a) != (j2, b)
      ensures DealtCard(cards, j1, a) != DealtCard(cards, j2, b)
    {
      assert n - 1 - 2 * j1 - a != n - 1 - 2 * j2 - b;
    }
    forall j, a | 0 <= j < m && 0 <= a < 2 ensures DealtCard(cards, j, a) !in cards[..n - 2 * m] {
      var left := cards[..n - 2 * m];
      forall i | 0 <= i < |left| ensures left[i] != DealtCard(cards, j, a) {
        assert left[i] == cards[i];
      }
    }
  }
}
