/**
 * The shoe of project/task4/Deck.py: one or more standard 52-card decks, dealt
 * from the end of the list and rebuilt as a single fresh deck when it runs out.
 *
 * Python's `random` module is not modelled; a shuffle takes its draws from the
 * deck's `rng` function instead, one draw per swap, so "shuffled" means "some
 * permutation".
 */
module Decks {
  import opened Cards
  import opened Hands

  /** The suits, in the order `build` walks them. */
  const SUITS: seq<string> := ["♥", "♦", "♣", "♠"]

  /** The ranks and their blackjack values, in the order `build` walks them. */
  const RANKS: seq<(string, int)> := [
    ("2", 2), ("3", 3), ("4", 4), ("5", 5), ("6", 6), ("7", 7), ("8", 8),
    ("9", 9), ("10", 10), ("J", 10), ("Q", 10), ("K", 10), ("A", 11)]

  /** A card one of the 52 of a standard deck. */
  predicate StandardCard(c: Card)
  {
    c.suit in SUITS && (c.rank, c.value) in RANKS
  }

  /** The card at position `i` of one unshuffled deck: suits in order, and
      within each suit the ranks in order. */
  function DeckCard(i: nat): Card
    requires i < 52
  {
    Card(SUITS[i / 13], RANKS[i % 13].0, RANKS[i % 13].1)
  }

  /** Suit `s`, rank `r` is at position `13 * s + r` of a deck. */
  lemma DeckCardAt(s: nat, r: nat)
    requires s < 4 && r < 13
    ensures DeckCard(13 * s + r) == Card(SUITS[s], RANKS[r].0, RANKS[r].1)
  {
    var k := 13 * s + r;
    assert k / 13 == s && k % 13 == r;
  }

  lemma DeckCardStandard(i: nat)
    requires i < 52
    ensures StandardCard(DeckCard(i))
  {
    assert SUITS[i / 13] in SUITS && RANKS[i % 13] in RANKS;
  }

  /** One deck in `build` order. */
  function OneDeck(): (s: seq<Card>)
    ensures |s| == 52 && forall i :: 0 <= i < 52 ==> s[i] == DeckCard(i)
  {
    seq(52, i requires 0 <= i < 52 => DeckCard(i))
  }

  /** `n` copies of `o`, one after another. */
  function Repeat<T>(o: seq<T>, n: nat): (s: seq<T>)
    ensures |s| == n * |o|
  {
    if n == 0 then [] else Repeat(o, n - 1) + o
  }

  /** `n` copies of `o` hold each element `n` times as often as `o` does. */
  lemma {:induction false} RepeatCount<T>(o: seq<T>, n: nat, x: T)
    ensures multiset(Repeat(o, n))[x] == n * multiset(o)[x]
  {
    if n > 0 {
      RepeatCount(o, n - 1, x);
      var r := Repeat(o, n - 1);
      CountAppend(r, o, x);
      CountStep(n, multiset(r + o)[x], multiset(r)[x], multiset(o)[x]);
    }
  }

  lemma CountAppend<T>(t: seq<T>, o: seq<T>, x: T)
    ensures multiset(t + o)[x] == multiset(t)[x] + multiset(o)[x]
  {
    assert multiset(t + o) == multiset(t) + multiset(o);
  }

  lemma CountStep(n: nat, now: nat, before: nat, one: nat)
    requires n > 0 && now == before + one && before == (n - 1) * one
    ensures now == n * one
  {
  }

  /** Extending a prefix of `o` by its next element. */
  lemma PrefixSnoc<T>(before: seq<T>, o: seq<T>, k: nat)
    requires k < |o|
    ensures before + o[..k] + [o[k]] == before + o[..k + 1]
  {
    assert o[..k] + [o[k]] == o[..k + 1];
  }

  /** The unshuffled shoe of `n` decks: one deck after another. */
  function StandardDecks(n: nat): (s: seq<Card>)
    ensures |s| == 52 * n
  {
    Repeat(OneDeck(), n)
  }

  /** Position `k` of deck `d` of the shoe is at `52 * d + k` and holds the card
      the suit-then-rank order puts at `k`. */
  lemma {:induction false} DecksAt(n: nat, d: nat, k: nat)
    requires d < n && k < 52
    ensures 52 * d + k < 52 * n && StandardDecks(n)[52 * d + k] == DeckCard(k)
  {
    var t := StandardDecks(n - 1);
    assert StandardDecks(n) == t + OneDeck();
    if d < n - 1 {
      DecksAt(n - 1, d, k);
    } else {
      assert 52 * d + k == |t| + k;
    }
  }

  /** The shoe holds only standard cards. */
  lemma {:induction false} DecksStandard(n: nat)
    ensures forall t :: 0 <= t < |StandardDecks(n)| ==> StandardCard(StandardDecks(n)[t])
  {
    if n > 0 {
      DecksStandard(n - 1);
      var u, o := StandardDecks(n - 1), OneDeck();
      forall t | 0 <= t < 52
        ensures StandardCard(o[t])
      {
        DeckCardStandard(t);
      }
      assert StandardDecks(n) == u + o;
    }
  }

  /** Every standard card counts at most 10 with aces at 1, and at least 1; an
      ace, and only an ace, is worth 11. */
  lemma StandardCardValue(c: Card)
    requires StandardCard(c)
    ensures 2 <= c.value <= 11
    ensures c.rank == ACE <==> c.value == 11
    ensures 1 <= c.value - 10 * AceCount(c) <= 10
    ensures |c.suit| == 1
  {
  }

  /** Two standard cards make a blackjack, 21 on two cards, exactly when one is
      an ace and the other is worth 10. */
  lemma BlackjackPair(a: Card, b: Card)
    requires StandardCard(a) && StandardCard(b)
    ensures Score([a, b]).0 == 21 <==> (a.rank == ACE && b.value == 10) || (b.rank == ACE && a.value == 10)
  {
    StandardCardValue(a);
    StandardCardValue(b);
    PairScore(a, b);
  }

  /** The score of two cards worth 2 to 11, worth 11 exactly when aces. */
  lemma PairScore(a: Card, b: Card)
    requires 2 <= a.value <= 11 && (a.rank == ACE <==> a.value == 11)
    requires 2 <= b.value <= 11 && (b.rank == ACE <==> b.value == 11)
    ensures Score([a, b]).0 == 21 <==> (a.rank == ACE && b.value == 10) || (b.rank == ACE && a.value == 10)
  {
    assert [a, b][..1] == [a] && [a][..0] == [];
    assert Score([a]) == (a.value, AceCount(a));
    var total := a.value + b.value;
    assert Score([a, b]) == Settle(total, AceCount(a) + AceCount(b));
    if total > 21 {
      assert Settle(total, 2) == (12, 1);
    }
  }

  /** `str` tells standard cards apart. */
  lemma StrInjective(c: Card, d: Card)
    requires StandardCard(c) && StandardCard(d) && Str(c) == Str(d)
    ensures c == d
  {
    StandardCardValue(c);
    StandardCardValue(d);
    var s := Str(c);
    assert c.suit == s[|s| - 1..] == d.suit;
    assert c.rank == s[..|s| - 1] == d.rank;
  }

  /** The suits differ in their (only) character. */
  lemma SuitIndex(a: nat, b: nat)
    requires a < 4 && b < 4 && SUITS[a] == SUITS[b]
    ensures a == b
  {
    assert SUITS[a][0] == SUITS[b][0];
  }

  /** The ranks differ in their first character. */
  lemma RankIndex(a: nat, b: nat)
    requires a < 13 && b < 13 && RANKS[a].0 == RANKS[b].0
    ensures a == b
  {
    assert RANKS[a].0[0] == RANKS[b].0[0];
  }

  /** The 52 positions of one deck hold 52 different cards. */
  lemma DeckCardInjective(i: nat, j: nat)
    requires i < 52 && j < 52 && DeckCard(i) == DeckCard(j)
    ensures i == j
  {
    var si, ri := DeckCardSplit(i);
    var sj, rj := DeckCardSplit(j);
    SuitIndex(si, sj);
    RankIndex(ri, rj);
  }

  /** A position of one deck as a suit index and a rank index, and its card. */
  lemma DeckCardSplit(i: nat) returns (s: nat, r: nat)
    requires i < 52
    ensures s < 4 && r < 13 && i == 13 * s + r
    ensures DeckCard(i) == Card(SUITS[s], RANKS[r].0, RANKS[r].1)
  {
    s, r := i / 13, i % 13;
  }

  /** Every standard card sits at some position of one deck. */
  lemma DeckCardCovers(c: Card) returns (i: nat)
    requires StandardCard(c)
    ensures i < 52 && DeckCard(i) == c
  {
    var s: nat :| s < 4 && SUITS[s] == c.suit;
    var r: nat :| r < 13 && RANKS[r] == (c.rank, c.value);
    i := 13 * s + r;
    assert i / 13 == s && i % 13 == r;
  }

  /** A sequence without repetitions holds each element once. */
  lemma {:induction false} DistinctCount<T>(s: seq<T>, x: T)
    requires forall a, b :: 0 <= a < b < |s| ==> s[a] != s[b]
    ensures multiset(s)[x] == if x in s then 1 else 0
  {
    if s != [] {
      var m := |s| - 1;
      assert s == s[..m] + [s[m]];
      DistinctCount(s[..m], x);
      if x == s[m] {
        assert x !in s[..m];
      }
    }
  }

  /** One deck holds each standard card exactly once and nothing else. */
  lemma OneDeckCount(c: Card)
    ensures multiset(OneDeck())[c] == if StandardCard(c) then 1 else 0
  {
    var deck := OneDeck();
    forall a, b | 0 <= a < b < 52
      ensures deck[a] != deck[b]
    {
      if deck[a] == deck[b] {
        DeckCardInjective(a, b);
      }
    }
    DistinctCount(deck, c);
    forall t | 0 <= t < 52
      ensures StandardCard(deck[t])
    {
      DeckCardStandard(t);
    }
    if StandardCard(c) {
      var i := DeckCardCovers(c);
      assert deck[i] == c;
    }
  }

  /** `n` decks hold each standard card exactly `n` times and nothing else. */
  lemma StandardDecksCount(n: nat, c: Card)
    ensures multiset(StandardDecks(n))[c] == if StandardCard(c) then n else 0
  {
    RepeatCount(OneDeck(), n, c);
    OneDeckCount(c);
  }

  /** The number of swaps a shuffle of `n` cards makes, hence the draws it uses. */
  function SwapCount(n: nat): nat
  {
    if n == 0 then 0 else n - 1
  }

  class Deck {
    var cards: seq<Card>
    /** The source of random draws; draw `k` of the run is `rng(k)`. */
    const rng: nat -> nat
    /** How many draws have been used so far. */
    var draws: nat

    /** The shoe only ever holds standard cards. */
    ghost predicate Valid()
      reads this
    {
      forall t :: 0 <= t < |cards| ==> StandardCard(cards[t])
    }

    /** `Deck(num_decks)`: build the shoe, then shuffle it. */
    constructor (numDecks: int, rng: nat -> nat)
      ensures Valid() && this.rng == rng
      ensures multiset(cards) == multiset(StandardDecks(if numDecks < 0 then 0 else numDecks))
    {
      this.rng := rng;
      draws := 0;
      cards := [];
      new;
      Build(numDecks);
      Shuffle();
    }

    /** `build`: one card per deck, suit and rank, in that loop order; no cards
        for a non-positive count. */
    method Build(numDecks: int)
      modifies this
      ensures Valid() && draws == old(draws)
      ensures cards == StandardDecks(if numDecks < 0 then 0 else numDecks)
    {
      cards := [];
      var d := 0;
      while d < numDecks
        invariant 0 <= d <= if numDecks < 0 then 0 else numDecks
        invariant cards == StandardDecks(d) && draws == old(draws)
      {
        ghost var before := cards;
        var s := 0;
        while s < |SUITS|
          invariant 0 <= s <= 4
          invariant cards == before + OneDeck()[..13 * s]
          invariant draws == old(draws)
        {
          var r := 0;
          while r < |RANKS|
            invariant 0 <= r <= 13
            invariant cards == before + OneDeck()[..13 * s + r]
            invariant draws == old(draws)
          {
            var (rank, value) := RANKS[r];
            DeckCardAt(s, r);
            PrefixSnoc(before, OneDeck(), 13 * s + r);
            cards := cards + [Card(SUITS[s], rank, value)];
            r := r + 1;
          }
          s := s + 1;
        }
        assert OneDeck()[..52] == OneDeck();
        d := d + 1;
      }
      DecksStandard(d);
    }

    /** `shuffle`: Fisher-Yates from the last position down, swapping position
        `i` with a drawn position `j <= i`; the cards are permuted. */
    method Shuffle()
      requires Valid()
      modifies this
      ensures Valid()
      ensures |cards| == |old(cards)| && multiset(cards) == multiset(old(cards))
      ensures draws == old(draws) + SwapCount(|cards|)
    {
      if |cards| == 0 {
        return;
      }
      var i := |cards| - 1;
      while i > 0
        invariant 0 <= i < |cards| == |old(cards)|
        invariant multiset(cards) == multiset(old(cards))
        invariant draws == old(draws) + (|cards| - 1 - i)
      {
        var j := rng(draws) % (i + 1);
        draws := draws + 1;
        cards := cards[i := cards[j]][j := cards[i]];
        i := i - 1;
      }
      forall t | 0 <= t < |cards|
        ensures StandardCard(cards[t])
      {
        assert cards[t] in multiset(old(cards));
      }
    }

    /** `deal`: when the shoe is empty, build and shuffle one fresh deck first;
        then take the last card. */
    method Deal() returns (c: Card)
      requires Valid()
      modifies this
      ensures Valid() && StandardCard(c)
      ensures |old(cards)| > 0 ==>
        && c == old(cards)[|old(cards)| - 1]
        && cards == old(cards)[..|old(cards)| - 1]
        && draws == old(draws)
      ensures |old(cards)| == 0 ==>
        && multiset(cards + [c]) == multiset(OneDeck())
        && |cards| == 51
        && draws == old(draws) + 51
      ensures Len() == if old(Len()) > 0 then old(Len()) - 1 else 51
    {
      if |cards| == 0 {
        Build(1);
        Shuffle();
      }
      ghost var full := cards;
      c := cards[|cards| - 1];
      cards := cards[..|cards| - 1];
      assert cards + [c] == full;
    }

    /** `__len__`: the number of cards left in the shoe, zero exactly when the
        next `Deal` rebuilds it. */
    function Len(): (n: nat)
      reads this
      ensures n == |cards| && (n == 0 <==> cards == [])
    {
      |cards|
    }
  }
}
