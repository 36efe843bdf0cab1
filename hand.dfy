/**
 * The blackjack hand of project/task4/Hand.py: the cards held, the running
 * value, and the number of aces still counted as 11.
 */
module Hands {
  import opened Cards

  /** The rank that counts as 11 or 1. */
  const ACE: string := "A"

  function AceCount(c: Card): nat
  {
    if c.rank == ACE then 1 else 0
  }

  /** The ace adjustment of `add_card`: while the value is over 21 and some ace
      still counts 11, count one of them as 1 instead. It ends at 21 or less
      unless no ace is left to demote, and leaves a hand of 21 or less as it
      is. */
  function Settle(value: int, aces: nat): (r: (int, nat))
    ensures r.0 <= 21 || r.1 == 0
    ensures value <= 21 ==> r == (value, aces)
    decreases aces
  {
    if value > 21 && aces > 0 then Settle(value - 10, aces - 1) else (value, aces)
  }

  /** Each demotion takes ten from the value, so `value - 10 * aces` is kept;
      no more aces are demoted than there are, and none that was not needed:
      an ace is demoted only from a value above 21, so after any demotion the
      value is still above 11. */
  lemma {:induction false} SettleDemotes(value: int, aces: nat)
    ensures var r := Settle(value, aces);
      && r.1 <= aces
      && r.0 - 10 * r.1 == value - 10 * aces
      && (r.1 < aces ==> r.0 > 11)
    decreases aces
  {
    if value > 21 && aces > 0 {
      SettleDemotes(value - 10, aces - 1);
    }
  }

  /** The number of aces the adjustment demotes: none for 21 or less, else
      just enough to bring the value to 21 or less, as far as the aces go. */
  function Demoted(value: int, aces: nat): nat
  {
    if value <= 21 then 0 else if (value - 12) / 10 < aces then (value - 12) / 10 else aces
  }

  /** The loop of `add_card` in closed form: it demotes `Demoted` aces. */
  lemma {:induction false} SettleClosedForm(value: int, aces: nat)
    ensures Settle(value, aces) == (value - 10 * Demoted(value, aces), aces - Demoted(value, aces))
    decreases aces
  {
    if value > 21 && aces > 0 {
      SettleClosedForm(value - 10, aces - 1);
    }
  }

  /** A pair the loop of `add_card` can stop at is the settled pair: the
      value changed by ten per demoted ace, every ace demoted from a value
      above 11, and the loop condition false. */
  lemma {:induction false} SettleStops(value: int, aces: nat, v: int, a: nat)
    requires a <= aces && v - 10 * a == value - 10 * aces
    requires a < aces ==> v > 11
    requires v <= 21 || a == 0
    ensures Settle(value, aces) == (v, a)
    decreases aces
  {
    if a < aces {
      SettleStops(value - 10, aces - 1, v, a);
    }
  }

  /** The `(value, aces)` pair a hand holds after its cards were added one by one
      to an empty hand. */
  function Score(cards: seq<Card>): (r: (int, nat))
    ensures r.0 > 21 ==> r.1 == 0
  {
    if cards == [] then (0, 0)
    else
      var (v, a) := Score(cards[..|cards| - 1]);
      var c := cards[|cards| - 1];
      Settle(v + c.value, a + AceCount(c))
  }

  /** Adding one card to a hand whose cards score `before` scores the settled
      new total. */
  lemma ScoreSnoc(cards: seq<Card>, c: Card, before: (int, nat), after: (int, nat))
    requires before == Score(cards)
    requires after == Settle(before.0 + c.value, before.1 + AceCount(c))
    ensures after == Score(cards + [c])
  {
    assert (cards + [c])[..|cards|] == cards;
  }

  /** The total of the card values, every ace counted as 11. */
  function Sum(cards: seq<Card>): int
  {
    if cards == [] then 0 else Sum(cards[..|cards| - 1]) + cards[|cards| - 1].value
  }

  /** The number of aces among the cards. */
  function Aces(cards: seq<Card>): nat
  {
    if cards == [] then 0 else Aces(cards[..|cards| - 1]) + AceCount(cards[|cards| - 1])
  }

  /** The hand's value is the card total with some of its aces counted as 1:
      exactly those not among the `aces` still counted as 11. */
  lemma {:induction false} ScoreIsSum(cards: seq<Card>)
    ensures Score(cards).1 <= Aces(cards)
    ensures Score(cards).0 == Sum(cards) - 10 * (Aces(cards) - Score(cards).1)
  {
    if cards != [] {
      var init, c := cards[..|cards| - 1], cards[|cards| - 1];
      ScoreIsSum(init);
      SettleDemotes(Score(init).0 + c.value, Score(init).1 + AceCount(c));
    }
  }

  /** Ace, eight, seven: the ace falls to 1 and the hand is worth 16. */
  lemma SoftHandExample()
    ensures Score([Card("♥", "A", 11), Card("♠", "8", 8), Card("♦", "7", 7)]) == (16, 0)
  {
    var cs := [Card("♥", "A", 11), Card("♠", "8", 8), Card("♦", "7", 7)];
    assert cs[..2] == [Card("♥", "A", 11), Card("♠", "8", 8)];
    assert cs[..2][..1] == [Card("♥", "A", 11)];
    assert cs[..2][..1][..0] == [];
    assert Score(cs[..2][..1]) == (11, 1);
    assert Score(cs[..2]) == (19, 1);
    assert Settle(26, 1) == Settle(16, 0);
  }

  /** Two aces are worth 12; a nine then makes 21 with one ace still at 11. */
  lemma TwoAcesExample()
    ensures Score([Card("♥", "A", 11), Card("♠", "A", 11)]) == (12, 1)
    ensures Score([Card("♥", "A", 11), Card("♠", "A", 11), Card("♦", "9", 9)]) == (21, 1)
  {
    var cs := [Card("♥", "A", 11), Card("♠", "A", 11), Card("♦", "9", 9)];
    assert cs[..2] == [Card("♥", "A", 11), Card("♠", "A", 11)];
    assert cs[..2][..1] == [Card("♥", "A", 11)];
    assert cs[..2][..1][..0] == [];
    assert Score(cs[..2][..1]) == (11, 1);
    assert Settle(22, 2) == Settle(12, 1);
    assert Score(cs[..2]) == (12, 1);
  }

  class Hand {
    var cards: seq<Card>
    var value: int
    var aces: nat

    /** `value` and `aces` are what adding `cards` one by one produces. */
    ghost predicate Valid()
      reads this
    {
      (value, aces) == Score(cards)
    }

    constructor ()
      ensures Valid() && cards == []
    {
      cards := [];
      value := 0;
      aces := 0;
    }

    /** `add_card`: append, add the card's value, count an ace, then demote aces
        while the hand is over 21. */
    method AddCard(card: Card)
      requires Valid()
      modifies this
      ensures Valid() && cards == old(cards) + [card]
      ensures (value, aces) == Settle(old(value) + card.value, old(aces) + AceCount(card))
    {
      ghost var before := (value, aces);
      cards := cards + [card];
      var v := value + card.value;
      var a := aces;
      if card.rank == ACE {
        a := a + 1;
      }
      ghost var start := (v, a);
      while v > 21 && a > 0
        invariant a <= start.1 && v - 10 * a == start.0 - 10 * start.1
        invariant a < start.1 ==> v > 11
        decreases a
      {
        v := v - 10;
        a := a - 1;
      }
      SettleStops(start.0, start.1, v, a);
      value, aces := v, a;
      ScoreSnoc(old(cards), card, before, (v, a));
    }

    /** `clear`: no cards, value 0, no aces. */
    method Clear()
      modifies this
      ensures Valid() && cards == [] && value == 0 && aces == 0
    {
      cards := [];
      value := 0;
      aces := 0;
    }

    /** `is_blackjack`: exactly two cards worth 21. On a hand whose value
        matches its cards, that is a pair whose values, with an ace demoted
        when both are aces, total 21. */
    predicate IsBlackjack()
      reads this
      ensures Valid() ==> (IsBlackjack() <==>
        |cards| == 2 && Sum(cards) - 10 * (Aces(cards) - Score(cards).1) == 21)
    {
      ScoreIsSum(cards);
      |cards| == 2 && value == 21
    }

    /** `is_busted`: worth more than 21. A busted hand whose value matches its
        cards has no ace left at 11: every ace already counts 1. */
    predicate IsBusted()
      reads this
      ensures Valid() ==> (IsBusted() <==> Score(cards).0 > 21)
      ensures Valid() && IsBusted() ==> aces == 0 && value == Sum(cards) - 10 * Aces(cards)
    {
      ScoreIsSum(cards);
      value > 21
    }
  }
}
