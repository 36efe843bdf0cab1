/**
 * The round engine of project/task4/blackjack.py: a shoe, a dealer, a list of
 * players, a round counter and a history of state snapshots.
 *
 * The console output of the Python game is not modelled; the randomness of the
 * shoe is the `rng` function given to the constructor.
 */
module BlackjackGame {
  import opened Wrappers
  import opened Cards
  import opened Hands
  import opened Decks
  import opened Strategies
  import opened Players

  // ---------------------------------------------------------------------------
  // Rules as functions
  // ---------------------------------------------------------------------------

  /** Python's `int(x)` of `x / 2`: division truncated toward zero. */
  function TruncHalf(x: int): int
  {
    if x >= 0 then x / 2 else -((-x) / 2)
  }

  /** The chips `_settle_bets` pays back for a stake `bet`: nothing when busted;
      `int(bet * 2.5)` for a blackjack; twice the stake when the dealer busts or
      is beaten; the stake on a tie; nothing otherwise. */
  function Payout(bet: int, busted: bool, blackjack: bool, value: int, dealerValue: int, dealerBusted: bool): (p: int)
    ensures bet >= 0 ==> 0 <= p <= TruncHalf(5 * bet)
    ensures bet >= 0 && !busted && !blackjack ==> p <= 2 * bet
  {
    if busted then 0
    else if blackjack then TruncHalf(5 * bet)
    else if dealerBusted then 2 * bet
    else if value > dealerValue then 2 * bet
    else if value == dealerValue then bet
    else 0
  }

  /** For a positive stake the return is never negative and never more than
      two and a half stakes; a blackjack returns more than any other win, a win
      twice the stake, a tie the stake, a loss nothing. */
  lemma PayoutBounds(bet: int, busted: bool, blackjack: bool, value: int, dealerValue: int, dealerBusted: bool)
    requires bet > 0
    ensures var p := Payout(bet, busted, blackjack, value, dealerValue, dealerBusted);
      && 0 <= p <= TruncHalf(5 * bet)
      && (!busted && blackjack ==> p == TruncHalf(5 * bet) && p >= 2 * bet && (bet >= 2 ==> p > 2 * bet))
      && (!busted && !blackjack && (dealerBusted || value > dealerValue) ==> p == 2 * bet)
      && (!busted && !blackjack && !dealerBusted && value == dealerValue ==> p == bet)
      && (busted || (!blackjack && !dealerBusted && value < dealerValue) ==> p == 0)
  {
    assert TruncHalf(5 * bet) == (5 * bet) / 2;
  }

  /** For players who neither busted nor hold a blackjack, against a dealer who
      did not bust, a higher hand never pays less. */
  lemma PayoutMonotone(bet: int, value: int, value': int, dealerValue: int)
    requires bet > 0 && value <= value'
    ensures Payout(bet, false, false, value, dealerValue, false) <= Payout(bet, false, false, value', dealerValue, false)
  {
  }

  /** Whether the rule `_play_turns` applies to a participant says to stop: the
      dealer's house rule, a bot's strategy, or for a plain player "hit below 16". */
  predicate RuleStands(kind: Kind, value: int, aces: nat, dealerValue: int)
  {
    match kind
    case PlainPlayer => value >= 16
    case BotPlayer(s) => Decide(s, value, dealerValue) == Stand
    case DealerPlayer => !DealerHits(value, aces)
  }

  /** No rule asks for a card on a hand worth more than 17. */
  lemma RuleStandsAbove17(kind: Kind, value: int, aces: nat, dealerValue: int)
    ensures value > 17 ==> RuleStands(kind, value, aces, dealerValue)
  {
    if kind.DealerPlayer? {
      DealerHitsBounds(value, aces);
    }
  }

  /** `after` extends `before` by standard cards only. */
  ghost predicate Extends(before: seq<Card>, after: seq<Card>)
  {
    |before| <= |after| && after[..|before|] == before && forall t :: |before| <= t < |after| ==> StandardCard(after[t])
  }

  lemma ExtendsTrans(a: seq<Card>, b: seq<Card>, c: seq<Card>)
    requires Extends(a, b) && Extends(b, c)
    ensures Extends(a, c)
  {
    assert c[..|a|] == c[..|b|][..|a|];
  }

  /** The number of spaces in a text. */
  function Spaces(s: string): nat
  {
    if s == [] then 0 else Spaces(s[..|s| - 1]) + (if s[|s| - 1] == ' ' then 1 else 0)
  }

  lemma {:induction false} SpacesAppend(a: string, b: string)
    ensures Spaces(a + b) == Spaces(a) + Spaces(b)
    decreases |b|
  {
    if b != [] {
      SpacesAppend(a, b[..|b| - 1]);
      assert (a + b)[..|a + b| - 1] == a + b[..|b| - 1];
    } else {
      assert a + b == a;
    }
  }

  /** The text of a standard card holds no space. */
  lemma StandardNoSpace(c: Card)
    requires StandardCard(c)
    ensures Spaces(Str(c)) == 0
  {
    var i :| 0 <= i < |SUITS| && SUITS[i] == c.suit;
    var j :| 0 <= j < |RANKS| && RANKS[j] == (c.rank, c.value);
    SpacesAppend(c.rank, c.suit);
    assert Spaces(c.suit) == 0 by {
      assert c.suit[..0] == [];
    }
    RankNoSpace(j);
  }

  lemma RankNoSpace(j: nat)
    requires j < |RANKS|
    ensures Spaces(RANKS[j].0) == 0
  {
    var r := RANKS[j].0;
    assert r[..0] == [];
    if |r| == 2 {
      assert r[..1] == [r[0]];
    }
  }

  /** `" ".join(str(card) for card in cards)`: when no card text holds a space,
      the text holds exactly one space between each two cards and no other. */
  function HandStr(cards: seq<Card>): (s: string)
    ensures (forall t :: 0 <= t < |cards| ==> Spaces(Str(cards[t])) == 0) ==>
      Spaces(s) == if cards == [] then 0 else |cards| - 1
  {
    if cards == [] then ""
    else if |cards| == 1 then Str(cards[0])
    else
      var init := HandStr(cards[..|cards| - 1]);
      var last := Str(cards[|cards| - 1]);
      SpacesAppend(init, " ");
      SpacesAppend(init + " ", last);
      init + " " + last
  }

  /** The per-player entry of `_get_state`. */
  datatype PlayerView = PlayerView(name: string, chips: int, hand: string, handValue: int, busted: bool)

  /** The dealer entry of `_get_state`. */
  datatype DealerView = DealerView(hand: string, handValue: int, busted: bool)

  /** The snapshot `_get_state` returns and `_save_state` appends to the history. */
  datatype GameState = GameState(
    round: int, maxRounds: int, activePlayers: nat, cardsInDeck: nat,
    players: seq<PlayerView>, dealer: DealerView)

  /** The number of players with chips left. */
  function ActiveCount(ps: seq<Player>): (n: nat)
    reads set p | p in ps
    ensures n <= |ps|
    ensures n == 0 <==> forall i :: 0 <= i < |ps| ==> ps[i].chips <= 0
  {
    if ps == [] then 0
    else ActiveCount(ps[..|ps| - 1]) + (if ps[|ps| - 1].chips > 0 then 1 else 0)
  }

  function Views(ps: seq<Player>): (vs: seq<PlayerView>)
    reads set p | p in ps, set p | p in ps :: p.hand
    ensures |vs| == |ps|
    ensures forall i :: 0 <= i < |ps| ==>
      vs[i] == PlayerView(ps[i].name, ps[i].chips, HandStr(ps[i].hand.cards), ps[i].hand.value, ps[i].busted)
  {
    if ps == [] then []
    else
      var p := ps[|ps| - 1];
      Views(ps[..|ps| - 1]) + [PlayerView(p.name, p.chips, HandStr(p.hand.cards), p.hand.value, p.busted)]
  }

  /** Every card from position `|before|` on was drawn onto a hand the rule
      said to hit. */
  ghost predicate AskedFor(kind: Kind, before: seq<Card>, after: seq<Card>, dealerValue: int)
  {
    forall t :: |before| <= t < |after| ==>
      !RuleStands(kind, Score(after[..t]).0, Score(after[..t]).1, dealerValue)
  }

  lemma AskedForStep(kind: Kind, before: seq<Card>, held: seq<Card>, after: seq<Card>, dealerValue: int)
    requires |before| <= |held| < |after| == |held| + 1 && after[..|held|] == held
    requires AskedFor(kind, before, held, dealerValue)
    requires !RuleStands(kind, Score(held).0, Score(held).1, dealerValue)
    ensures AskedFor(kind, before, after, dealerValue)
  {
    forall t | |before| <= t < |after|
      ensures !RuleStands(kind, Score(after[..t]).0, Score(after[..t]).1, dealerValue)
    {
      if t < |held| {
        assert after[..t] == held[..t];
      }
    }
  }

  /** The outcome of one player's turn from the cards `before`: only standard
      cards were added, each one asked for by the rule; a bust leaves the hand
      over 21, otherwise the rule stands on the final hand, which is not over 21
      unless no card was drawn. */
  ghost predicate TurnPlayed(kind: Kind, before: seq<Card>, after: seq<Card>, busted: bool, dealerValue: int)
  {
    && Extends(before, after)
    && AskedFor(kind, before, after, dealerValue)
    && (busted ==> Score(after).0 > 21 && after != before)
    && (!busted ==> RuleStands(kind, Score(after).0, Score(after).1, dealerValue)
                    && (Score(after).0 <= 21 || after == before))
  }

  /** A player after `_check_dealer_blackjack` settled a stake `bet0` out of
      `chips0`: a bet is returned on a blackjack and lost otherwise, and cleared. */
  ghost predicate Pushed(p: Player, chips0: int, bet0: int)
    reads p, p.hand
  {
    && (bet0 > 0 ==> p.bet == 0 && p.chips == chips0 + (if p.hand.IsBlackjack() then bet0 else 0))
    && (bet0 <= 0 ==> p.bet == bet0 && p.chips == chips0)
  }

  /** The per-player step of `_check_dealer_blackjack`. */
  method PushOrLose(p: Player)
    modifies p
    ensures Pushed(p, old(p.chips), old(p.bet))
    ensures p.standing == old(p.standing) && p.busted == old(p.busted)
  {
    if p.bet > 0 {
      if p.hand.IsBlackjack() {
        p.chips := p.chips + p.bet;
      }
      p.bet := 0;
    }
  }

  /** A player after `_settle_bets` with stake `bet0` out of `chips0`: paid
      `Payout` when there was a bet, and the bet cleared. */
  ghost predicate Settled(p: Player, chips0: int, bet0: int, dealerValue: int, dealerBusted: bool)
    reads p, p.hand
  {
    && p.bet == 0
    && p.chips == chips0 + (if bet0 == 0 then 0
                           else Payout(bet0, p.busted, p.hand.IsBlackjack(), p.hand.value, dealerValue, dealerBusted))
  }

  /** The per-player step of `_settle_bets`. */
  method SettleOne(p: Player, dealerValue: int, dealerBusted: bool)
    modifies p
    ensures Settled(p, old(p.chips), old(p.bet), dealerValue, dealerBusted)
    ensures p.standing == old(p.standing) && p.busted == old(p.busted)
  {
    if p.bet != 0 {
      p.chips := p.chips + Payout(p.bet, p.busted, p.hand.IsBlackjack(), p.hand.value, dealerValue, dealerBusted);
      p.bet := 0;
    }
  }

  /** A hand after `n` passes of `_deal_cards`: `n` more standard cards when
      its player has a bet, unchanged otherwise. */
  ghost predicate Dealt(before: seq<Card>, after: seq<Card>, bet: int, n: nat)
  {
    && (bet > 0 ==> Extends(before, after) && |after| == |before| + n)
    && (bet <= 0 ==> after == before)
  }

  lemma DealtTrans(before: seq<Card>, mid: seq<Card>, after: seq<Card>, bet: int)
    requires Dealt(before, mid, bet, 1) && Dealt(mid, after, bet, 1)
    ensures Dealt(before, after, bet, 2)
  {
    if bet > 0 {
      ExtendsTrans(before, mid, after);
    }
  }

  /** The stake `_take_bets` leaves on a player reset with `chips`: a bot's
      automated bet when it can make one, nothing otherwise. */
  function TakenBet(kind: Kind, chips: int): int
  {
    if kind.BotPlayer? && chips >= 10 then BotBetSize(chips) else 0
  }

  /** A player after the opening of a round from `chips0` chips: reset, the
      stake taken, and two standard cards dealt when there is a stake. */
  ghost predicate Opened(p: Player, chips0: int)
    reads p, p.hand
  {
    var bet := TakenBet(p.kind, chips0);
    && p.bet == bet && p.chips == chips0 - bet && !p.standing && !p.busted
    && Dealt([], p.hand.cards, bet, 2)
  }

  /** What a round's turn phase looks at and changes of one player. */
  datatype Seat = Seat(cards: seq<Card>, chips: int, bet: int, standing: bool, busted: bool)

  ghost function SeatOf(p: Player): Seat
    reads p, p.hand
  {
    Seat(p.hand.cards, p.chips, p.bet, p.standing, p.busted)
  }

  /** A player after its turn from seat `s`: nothing happens to a standing or
      busted player; any other plays its rule out; chips and bet stay. */
  ghost predicate Turn(p: Player, s: Seat, dealerValue: int)
    reads p, p.hand
  {
    if s.standing || s.busted then SeatOf(p) == s
    else
      && p.chips == s.chips && p.bet == s.bet
      && TurnPlayed(p.kind, s.cards, p.hand.cards, p.busted, dealerValue)
      && (p.standing <==> p.kind.BotPlayer? && !p.busted)
  }

  /** The hand and flags of a player after `_play_turns` from seat `s`: one
      without a bet, or standing or busted, keeps them; any other has played
      its rule out, standing at the end exactly when it is a bot that did not
      bust. */
  ghost predicate HandPlayed(p: Player, s: Seat, dealerValue: int)
    reads p, p.hand
  {
    if s.bet == 0 || s.standing || s.busted then
      p.hand.cards == s.cards && p.standing == s.standing && p.busted == s.busted
    else
      && TurnPlayed(p.kind, s.cards, p.hand.cards, p.busted, dealerValue)
      && (p.standing <==> p.kind.BotPlayer? && !p.busted)
  }

  /** A player after `_play_turns`: its hand played from seat `s`, its chips
      and bet as they were. */
  ghost predicate Played(p: Player, s: Seat, dealerValue: int)
    reads p, p.hand
  {
    HandPlayed(p, s, dealerValue) && p.chips == s.chips && p.bet == s.bet
  }

  /** A player after the turns and the settlement of a round from seat `s`. */
  ghost predicate Finished(p: Player, s: Seat, dealerCard: int, dealerValue: int, dealerBusted: bool)
    reads p, p.hand
  {
    HandPlayed(p, s, dealerCard) && Settled(p, s.chips, s.bet, dealerValue, dealerBusted)
  }

  /** A player after the phases of a round it entered with `chips0` chips.
      The cards dealt at the opening are the first two of its hand when it had
      a stake. After a dealer blackjack (`dealerBlackjack`) no turn is played:
      the hand is the dealt one and the stake is returned on a blackjack of its
      own and lost otherwise. Otherwise it played from the dealt seat and was
      settled against the dealer's final hand. */
  ghost predicate RoundPlayed(p: Player, chips0: int, dealerBlackjack: bool, dealerCard: int, dealerValue: int, dealerBusted: bool)
    reads p, p.hand
  {
    var bet := TakenBet(p.kind, chips0);
    var dealt := if bet > 0 && |p.hand.cards| >= 2 then p.hand.cards[..2] else [];
    && (bet > 0 ==> |p.hand.cards| >= 2)
    && Dealt([], dealt, bet, 2)
    && (dealerBlackjack ==>
          && p.hand.cards == dealt && !p.standing && !p.busted && p.bet == 0
          && p.chips == chips0 - bet + (if bet > 0 && p.hand.IsBlackjack() then bet else 0))
    && (!dealerBlackjack ==> Finished(p, Seat(dealt, chips0 - bet, bet, false, false), dealerCard, dealerValue, dealerBusted))
  }

  /** A seat after the rest of the round: kept and pushed after a dealer
      blackjack, played and settled otherwise. */
  ghost predicate Resolved(p: Player, s: Seat, dealerBlackjack: bool, dealerCard: int, dealerValue: int, dealerBusted: bool)
    reads p, p.hand
  {
    && (dealerBlackjack ==> p.hand.cards == s.cards && p.standing == s.standing && p.busted == s.busted && Pushed(p, s.chips, s.bet))
    && (!dealerBlackjack ==> Finished(p, s, dealerCard, dealerValue, dealerBusted))
  }

  /** The chip counts of `ps`, in seating order. */
  ghost function ChipsOf(ps: seq<Player>): (c: seq<int>)
    reads set p | p in ps
    ensures |c| == |ps| && forall i :: 0 <= i < |ps| ==> c[i] == ps[i].chips
  {
    if ps == [] then [] else [ps[0].chips] + ChipsOf(ps[1..])
  }

  /** The dealer's cards after the phases of a round: the first two are its
      opening hand; a blackjack there ends the round on that hand, otherwise
      standard cards were drawn by the house rule until it stands. */
  ghost predicate DealerRound(cards: seq<Card>)
  {
    && |cards| >= 2 && Extends([], cards)
    && var opening := cards[..2];
    && (Score(opening).0 == 21 ==> cards == opening)
    && (Score(opening).0 != 21 ==> !DealerHits(Score(cards).0, Score(cards).1) && AskedFor(DealerPlayer, opening, cards, 0))
  }

  /** Player `p`, which entered the round with `chips0`, ends as `RoundPlayed`
      says against the dealer's cards `dealerCards` of `DealerRound`. */
  ghost predicate PlayerRound(p: Player, chips0: int, dealerCards: seq<Card>)
    reads p, p.hand
  {
    && |dealerCards| >= 2
    && RoundPlayed(p, chips0, Score(dealerCards[..2]).0 == 21, dealerCards[0].value,
                   Score(dealerCards).0, Score(dealerCards).0 > 21)
  }

  /** Every player of `ps` ends as `PlayerRound` says, from the chip counts
      `chips0` it entered the round with, seat by seat. */
  ghost predicate PlayersRound(ps: seq<Player>, chips0: seq<int>, dealerCards: seq<Card>)
    reads set p | p in ps, set p | p in ps :: p.hand
    decreases |ps|
  {
    && |chips0| == |ps|
    && (ps != [] ==> PlayerRound(ps[0], chips0[0], dealerCards) && PlayersRound(ps[1..], chips0[1..], dealerCards))
  }

  /** `PlayersRound` holds exactly when every seat's player is `PlayerRound`. */
  lemma {:induction false} PlayersRoundEach(ps: seq<Player>, chips0: seq<int>, dealerCards: seq<Card>)
    requires |chips0| == |ps|
    ensures PlayersRound(ps, chips0, dealerCards) <==>
      forall i :: 0 <= i < |ps| ==> PlayerRound(ps[i], chips0[i], dealerCards)
    decreases |ps|
  {
    if ps != [] {
      PlayersRoundEach(ps[1..], chips0[1..], dealerCards);
      assert forall i :: 1 <= i < |ps| ==> ps[i] == ps[1..][i - 1] && chips0[i] == chips0[1..][i - 1];
    }
  }

  /** The round outcome of one player from the seat the opening left it in. */
  lemma RoundFromSeat(p: Player, chips0: int, s: Seat, dealerBlackjack: bool, dealerCard: int, dealerValue: int, dealerBusted: bool)
    requires s.bet == TakenBet(p.kind, chips0) && s.chips == chips0 - s.bet && !s.standing && !s.busted
    requires Dealt([], s.cards, s.bet, 2)
    requires Resolved(p, s, dealerBlackjack, dealerCard, dealerValue, dealerBusted)
    ensures RoundPlayed(p, chips0, dealerBlackjack, dealerCard, dealerValue, dealerBusted)
  {
    if s.bet > 0 {
      assert |s.cards| == 2 && s.cards[..2] == s.cards;
      if !dealerBlackjack {
        assert p.hand.cards[..2] == s.cards;
      }
    }
  }

  // ---------------------------------------------------------------------------
  // The game object
  // ---------------------------------------------------------------------------

  class Blackjack {
    const deck: Deck
    const dealer: Player
    var players: seq<Player>
    var currentRound: int
    const maxRounds: int
    var gameActive: bool
    var history: seq<GameState>

    ghost function PlayerSet(): set<Player>
      reads this
    {
      set p | p in players
    }

    ghost function HandSet(): set<Hand>
      reads this
    {
      set p | p in players :: p.hand
    }

    /** Players' hands are distinct objects, none of them the dealer's hand (so
        the players are distinct objects, none of them the dealer). */
    ghost predicate Distinct()
      reads this
    {
      && (forall i :: 0 <= i < |players| ==> players[i].hand != dealer.hand)
      && (forall i, j :: 0 <= i < |players| && 0 <= j < |players| && i != j ==> players[i].hand != players[j].hand)
    }

    /** The player at `i` is neither another player nor holds another's hand. */
    lemma Apart(i: nat)
      requires Distinct() && i < |players|
      ensures forall j :: 0 <= j < |players| && j != i ==> players[j] != players[i] && players[j].hand != players[i].hand
    {
    }

    /** Every player's hand value matches its cards. */
    ghost predicate HandsValid()
      reads this, HandSet()
    {
      forall i :: 0 <= i < |players| ==> players[i].hand.Valid()
    }

    /** The dealer is a dealer, the participants are distinct, every hand value
        matches its cards, and the shoe holds standard cards. */
    ghost predicate Valid()
      reads this, deck, dealer.hand, HandSet()
    {
      && deck.Valid()
      && dealer.kind == DealerPlayer
      && dealer.Valid()
      && Distinct()
      && HandsValid()
    }

    /** `Blackjack(num_decks, max_rounds)`: a shuffled shoe, a dealer, no
        players, round 0, not active, no history. */
    constructor (numDecks: int, maxRounds: int, rng: nat -> nat)
      ensures Valid()
      ensures players == [] && currentRound == 0 && this.maxRounds == maxRounds
      ensures !gameActive && history == []
      ensures multiset(deck.cards) == multiset(StandardDecks(if numDecks < 0 then 0 else numDecks))
    {
      deck := new Deck(numDecks, rng);
      var d := NewDealer();
      dealer := d;
      players := [];
      currentRound := 0;
      this.maxRounds := maxRounds;
      gameActive := false;
      history := [];
    }

    /** `add_bot`: a new bot with its strategy and chips joins at the end. */
    method AddBot(name: string, strategy: Strategy, chips: int)
      requires Valid()
      modifies this
      ensures Valid()
      ensures |players| == |old(players)| + 1 && players[..|old(players)|] == old(players)
      ensures var b := players[|players| - 1];
        fresh(b) && b.name == name && b.chips == chips && b.kind == BotPlayer(strategy)
        && b.hand.cards == [] && b.bet == 0 && !b.standing && !b.busted
      ensures currentRound == old(currentRound) && gameActive == old(gameActive) && history == old(history)
    {
      var bot := new Player(name, chips, BotPlayer(strategy));
      players := players + [bot];
    }

    /** `start`: shuffle the shoe, activate the game, round 0. */
    method Start()
      requires Valid()
      modifies this, deck
      ensures Valid() && gameActive && currentRound == 0
      ensures players == old(players) && history == old(history)
      ensures multiset(deck.cards) == multiset(old(deck.cards))
    {
      deck.Shuffle();
      gameActive := true;
      currentRound := 0;
    }

    /** `_get_state`. */
    function GetState(): (s: GameState)
      reads this, deck, dealer.hand, PlayerSet(), HandSet()
      ensures s.round == currentRound && s.maxRounds == maxRounds && s.cardsInDeck == |deck.cards|
      ensures s.activePlayers == ActiveCount(players) && |s.players| == |players|
      ensures s.activePlayers <= |s.players|
      ensures s.activePlayers == 0 <==> forall i :: 0 <= i < |s.players| ==> s.players[i].chips <= 0
      ensures forall i :: 0 <= i < |players| ==>
        && s.players[i].name == players[i].name && s.players[i].chips == players[i].chips
        && s.players[i].hand == HandStr(players[i].hand.cards)
        && s.players[i].handValue == players[i].hand.value && s.players[i].busted == players[i].busted
      ensures s.dealer.hand == HandStr(dealer.hand.cards) && s.dealer.handValue == dealer.hand.value
      ensures s.dealer.busted <==> s.dealer.handValue > 21
    {
      GameState(
        currentRound, maxRounds, ActiveCount(players), deck.Len(), Views(players),
        DealerView(HandStr(dealer.hand.cards), dealer.hand.value, dealer.hand.IsBusted()))
    }

    /** `_save_state`: append the current snapshot to the history. The snapshot
        is also returned, as `play_round` returns `_get_state()` right after. */
    method SaveState() returns (s: GameState)
      requires Valid()
      modifies this`history
      ensures Valid() && s == old(GetState())
      ensures s.round == currentRound && s.activePlayers == ActiveCount(players) && s.cardsInDeck == |deck.cards|
      ensures history == old(history) + [s]
      ensures players == old(players) && currentRound == old(currentRound) && gameActive == old(gameActive)
      ensures ActiveCount(players) == old(ActiveCount(players)) && |deck.cards| == old(|deck.cards|)
      ensures forall chips0, cards :: PlayersRound(players, chips0, cards) == old(PlayersRound(players, chips0, cards))
    {
      s := GetState();
      Record(s);
    }

    /** Append `s` to the history; the players hold what they held. */
    method Record(s: GameState)
      modifies this`history
      ensures history == old(history) + [s]
      ensures forall chips0, cards :: PlayersRound(players, chips0, cards) == old(PlayersRound(players, chips0, cards))
    {
      history := history + [s];
    }

    /** `_prepare_round`: reset the dealer and every player. */
    method PrepareRound()
      requires Valid()
      modifies dealer, dealer.hand, PlayerSet(), HandSet()
      ensures Valid()
      ensures dealer.hand.cards == [] && dealer.bet == 0 && !dealer.standing && !dealer.busted
      ensures forall i :: 0 <= i < |players| ==>
        && players[i].hand.cards == [] && players[i].bet == 0
        && !players[i].standing && !players[i].busted
        && players[i].chips == old(players[i].chips)
    {
      dealer.Reset();
      var i := 0;
      while i < |players|
        invariant 0 <= i <= |players| && Valid()
        invariant dealer.hand.cards == [] && dealer.bet == 0 && !dealer.standing && !dealer.busted
        invariant forall j :: 0 <= j < i ==>
          && players[j].hand.cards == [] && players[j].bet == 0
          && !players[j].standing && !players[j].busted
        invariant forall j :: 0 <= j < |players| ==> players[j].chips == old(players[j].chips)
      {
        Apart(i);
        ResetAt(i);
        i := i + 1;
      }
    }

    /** One step of `_prepare_round`: the player at `i` is reset. */
    method ResetAt(i: nat)
      requires Valid() && i < |players|
      modifies players[i], players[i].hand
      ensures Valid()
      ensures var p := players[i];
        && p.hand.cards == [] && p.bet == 0 && !p.standing && !p.busted && p.chips == old(p.chips)
    {
      players[i].Reset();
    }

    /** `_take_bets`: every bot with chips makes its automated bet; other
        players and bankrupt bots bet nothing. */
    method TakeBets()
      requires Valid()
      modifies PlayerSet()
      ensures Valid()
      ensures forall i :: 0 <= i < |players| ==>
        var p := players[i];
        && (p.kind.BotPlayer? && old(p.chips) >= 10 ==> p.bet == BotBetSize(old(p.chips)) && p.chips == old(p.chips) - p.bet)
        && (!(p.kind.BotPlayer? && old(p.chips) >= 10) ==> p.bet == old(p.bet) && p.chips == old(p.chips))
        && p.standing == old(p.standing) && p.busted == old(p.busted)
    {
      var i := 0;
      while i < |players|
        invariant 0 <= i <= |players|
        invariant forall j :: 0 <= j < i ==>
          var p := players[j];
          && (p.kind.BotPlayer? && old(p.chips) >= 10 ==> p.bet == BotBetSize(old(p.chips)) && p.chips == old(p.chips) - p.bet)
          && (!(p.kind.BotPlayer? && old(p.chips) >= 10) ==> p.bet == old(p.bet) && p.chips == old(p.chips))
        invariant forall j :: i <= j < |players| ==> players[j].bet == old(players[j].bet) && players[j].chips == old(players[j].chips)
        invariant forall j :: 0 <= j < |players| ==> players[j].standing == old(players[j].standing) && players[j].busted == old(players[j].busted)
      {
        var p := players[i];
        if p.chips > 0 && p.kind.BotPlayer? {
          var _ := p.MakeBet();
        }
        i := i + 1;
      }
    }

    /** One `self.deck.deal()` handed to `hand.add_card`. */
    method DealTo(h: Hand)
      requires Valid() && (h == dealer.hand || h in HandSet())
      modifies deck, h
      ensures Valid() && Extends(old(h.cards), h.cards) && |h.cards| == |old(h.cards)| + 1
      ensures h.value - 10 * h.aces > old(h.value) - 10 * old(h.aces)
      ensures h.value - 10 * h.aces <= old(h.value) - 10 * old(h.aces) + 10
    {
      var card := deck.Deal();
      StandardCardValue(card);
      h.AddCard(card);
    }

    /** `_deal_cards`: a card to each player with a bet, one to the dealer, a
        second to each player with a bet, a second to the dealer. */
    method DealCards()
      requires Valid()
      modifies deck, dealer.hand, HandSet()
      ensures Valid()
      ensures Extends(old(dealer.hand.cards), dealer.hand.cards) && |dealer.hand.cards| == |old(dealer.hand.cards)| + 2
      ensures forall i :: 0 <= i < |players| ==>
        Dealt(old(players[i].hand.cards), players[i].hand.cards, players[i].bet, 2)
    {
      DealPass();
      label mid:
      DealPass();
      ExtendsTrans(old(dealer.hand.cards), old@mid(dealer.hand.cards), dealer.hand.cards);
      forall i | 0 <= i < |players|
        ensures Dealt(old(players[i].hand.cards), players[i].hand.cards, players[i].bet, 2)
      {
        DealtTrans(old(players[i].hand.cards), old@mid(players[i].hand.cards), players[i].hand.cards, players[i].bet);
      }
    }

    /** One half of `_deal_cards`: a card to each player with a bet, then one to
        the dealer. */
    method DealPass()
      requires Valid()
      modifies deck, dealer.hand, HandSet()
      ensures Valid()
      ensures Extends(old(dealer.hand.cards), dealer.hand.cards) && |dealer.hand.cards| == |old(dealer.hand.cards)| + 1
      ensures forall i :: 0 <= i < |players| ==>
        Dealt(old(players[i].hand.cards), players[i].hand.cards, players[i].bet, 1)
    {
      DealRound();
      DealTo(dealer.hand);
    }

    /** One pass of `_deal_cards` over the players: a card to each with a bet. */
    method DealRound()
      requires Valid()
      modifies deck, HandSet()
      ensures Valid()
      ensures forall i :: 0 <= i < |players| ==>
        Dealt(old(players[i].hand.cards), players[i].hand.cards, players[i].bet, 1)
    {
      var i := 0;
      while i < |players|
        invariant 0 <= i <= |players| && Valid()
        invariant forall j :: 0 <= j < i ==>
          Dealt(old(players[j].hand.cards), players[j].hand.cards, players[j].bet, 1)
        invariant forall j :: i <= j < |players| ==> players[j].hand.cards == old(players[j].hand.cards)
      {
        if players[i].bet > 0 {
          DealTo(players[i].hand);
        }
        i := i + 1;
      }
    }

    /** `_check_dealer_blackjack`: when the dealer holds a blackjack, every
        player with a bet gets the stake back on a blackjack of their own and
        loses it otherwise, the bets are cleared, and the game-over check runs;
        otherwise nothing changes. */
    method CheckDealerBlackjack() returns (b: bool)
      requires Valid()
      modifies this, PlayerSet()
      ensures Valid() && b == dealer.hand.IsBlackjack()
      ensures players == old(players) && currentRound == old(currentRound) && history == old(history)
      ensures forall i :: 0 <= i < |players| ==>
        && (b ==> Pushed(players[i], old(players[i].chips), old(players[i].bet)))
        && (!b ==> players[i].bet == old(players[i].bet) && players[i].chips == old(players[i].chips))
        && players[i].standing == old(players[i].standing) && players[i].busted == old(players[i].busted)
      ensures b ==> gameActive == (old(gameActive) && ActiveCount(players) > 0 && currentRound < maxRounds)
      ensures !b ==> gameActive == old(gameActive)
    {
      if !dealer.hand.IsBlackjack() {
        return false;
      }
      ResolveBets();
      CheckGameOver();
      return true;
    }

    /** The loop of `_check_dealer_blackjack` over the players. */
    method ResolveBets()
      requires Distinct()
      modifies PlayerSet()
      ensures forall i :: 0 <= i < |players| ==>
        && Pushed(players[i], old(players[i].chips), old(players[i].bet))
        && players[i].standing == old(players[i].standing) && players[i].busted == old(players[i].busted)
    {
      var i := 0;
      while i < |players|
        invariant 0 <= i <= |players|
        invariant forall j :: 0 <= j < i ==> Pushed(players[j], old(players[j].chips), old(players[j].bet))
        invariant forall j :: i <= j < |players| ==> players[j].bet == old(players[j].bet) && players[j].chips == old(players[j].chips)
        invariant forall j :: 0 <= j < |players| ==> players[j].standing == old(players[j].standing) && players[j].busted == old(players[j].busted)
      {
        PushOrLose(players[i]);
        i := i + 1;
      }
    }

    /** One player's turn, the inner loop of `_play_turns`: a standing or busted
        player does nothing; otherwise the player asks its rule (a bot its
        strategy, a plain player "hit below 16") and draws until the rule says
        stand or the hand busts. */
    method PlayTurn(p: Player, dealerCard: Card)
      requires Valid() && p in PlayerSet()
      modifies deck, p, p.hand
      ensures Valid() && Turn(p, old(SeatOf(p)), dealerCard.value)
    {
      ghost var start := p.hand.cards;
      if p.standing || p.busted {
        return;
      }
      while !p.standing && !p.busted
        invariant Valid() && p in PlayerSet()
        invariant p.chips == old(p.chips) && p.bet == old(p.bet)
        invariant Extends(start, p.hand.cards) && AskedFor(p.kind, start, p.hand.cards, dealerCard.value)
        invariant p.busted ==> p.hand.value > 21 && p.hand.cards != start
        invariant !p.busted ==> p.hand.value <= 21 || p.hand.cards == start
        invariant p.standing ==> p.kind.BotPlayer? && !p.busted && RuleStands(p.kind, p.hand.value, p.hand.aces, dealerCard.value)
        decreases 28 - (p.hand.value - 10 * p.hand.aces)
      {
        var d := Ask(p, dealerCard);
        if d == Stand {
          break;
        }
        DrawFor(p.hand, p.kind, start, dealerCard.value);
        if p.hand.IsBusted() {
          p.busted := true;
        }
      }
    }

    /** The decision taken in `_play_turns`: `make_decision` for a bot or the
        dealer, "hit below 16" for a plain player. It is a hit exactly when the
        rule does not stand, and a bot remembers a stand. */
    method Ask(p: Player, dealerCard: Card) returns (d: Decision)
      requires !p.standing && !p.busted
      modifies p
      ensures d == Hit <==> !RuleStands(p.kind, p.hand.value, p.hand.aces, dealerCard.value)
      ensures p.standing <==> p.kind.BotPlayer? && d == Stand
      ensures p.busted == old(p.busted) && p.chips == old(p.chips) && p.bet == old(p.bet)
    {
      if p.kind.PlainPlayer? {
        d := if p.hand.value < 16 then Hit else Stand;
      } else {
        d := p.MakeDecision(dealerCard);
      }
    }

    /** A card the rule of `kind` asked for, dealt to the hand `h`. */
    method DrawFor(h: Hand, kind: Kind, ghost start: seq<Card>, dealerValue: int)
      requires Valid() && (h == dealer.hand || h in HandSet())
      requires Extends(start, h.cards) && AskedFor(kind, start, h.cards, dealerValue)
      requires !RuleStands(kind, h.value, h.aces, dealerValue)
      modifies deck, h
      ensures Valid() && |h.cards| == |old(h.cards)| + 1
      ensures Extends(start, h.cards) && AskedFor(kind, start, h.cards, dealerValue)
      ensures old(h.value) - 10 * old(h.aces) <= 17
      ensures h.value - 10 * h.aces > old(h.value) - 10 * old(h.aces)
      ensures h.value - 10 * h.aces <= old(h.value) - 10 * old(h.aces) + 10
    {
      RuleStandsAbove17(kind, h.value, h.aces, dealerValue);
      ghost var held := h.cards;
      DealTo(h);
      ExtendsTrans(start, held, h.cards);
      AskedForStep(kind, start, held, h.cards, dealerValue);
    }

    /** `_play_turns`: every player with a bet who has not busted takes a turn
        against the dealer's first card. */
    method PlayTurns()
      requires Valid() && |dealer.hand.cards| > 0
      modifies deck, PlayerSet(), HandSet()
      ensures Valid() && dealer.hand.cards == old(dealer.hand.cards)
      ensures forall i :: 0 <= i < |players| ==> Played(players[i], old(SeatOf(players[i])), dealer.hand.cards[0].value)
    {
      var dealerCard := dealer.hand.cards[0];
      var i := 0;
      while i < |players|
        invariant 0 <= i <= |players| && Valid()
        invariant dealer.hand.cards == old(dealer.hand.cards)
        invariant forall j :: 0 <= j < i ==> Played(players[j], old(SeatOf(players[j])), dealerCard.value)
        invariant forall j :: i <= j < |players| ==> SeatOf(players[j]) == old(SeatOf(players[j]))
      {
        Apart(i);
        TurnAt(i, dealerCard);
        i := i + 1;
      }
    }

    /** One step of `_play_turns`: the player at `i` takes its turn when it has
        a bet and has not busted. */
    method TurnAt(i: nat, dealerCard: Card)
      requires Valid() && i < |players|
      modifies deck, players[i], players[i].hand
      ensures Valid() && Played(players[i], old(SeatOf(players[i])), dealerCard.value)
    {
      var p := players[i];
      if p.bet != 0 && !p.busted {
        PlayTurn(p, dealerCard);
      }
    }

    /** `_dealer_turn`: the dealer draws while the house rule says hit, and ends
        on a hand the rule stands on. */
    method DealerTurn()
      requires Valid()
      modifies deck, dealer.hand
      ensures Valid() && !dealer.ShouldHit()
      ensures Extends(old(dealer.hand.cards), dealer.hand.cards)
      ensures AskedFor(DealerPlayer, old(dealer.hand.cards), dealer.hand.cards, 0)
    {
      while dealer.ShouldHit()
        invariant Valid()
        invariant Extends(old(dealer.hand.cards), dealer.hand.cards)
        invariant AskedFor(DealerPlayer, old(dealer.hand.cards), dealer.hand.cards, 0)
        decreases 28 - (dealer.hand.value - 10 * dealer.hand.aces)
      {
        DrawFor(dealer.hand, DealerPlayer, old(dealer.hand.cards), 0);
      }
    }

    /** `_settle_bets`: every player with a bet is paid `Payout` against the
        dealer's final hand, and every bet is cleared. */
    method SettleBets()
      requires Valid()
      modifies PlayerSet()
      ensures Valid()
      ensures forall i :: 0 <= i < |players| ==>
        && Settled(players[i], old(players[i].chips), old(players[i].bet), dealer.hand.value, dealer.hand.IsBusted())
        && players[i].standing == old(players[i].standing) && players[i].busted == old(players[i].busted)
    {
      var i := 0;
      while i < |players|
        invariant 0 <= i <= |players|
        invariant forall j :: 0 <= j < i ==>
          Settled(players[j], old(players[j].chips), old(players[j].bet), dealer.hand.value, dealer.hand.IsBusted())
        invariant forall j :: i <= j < |players| ==> players[j].bet == old(players[j].bet) && players[j].chips == old(players[j].chips)
        invariant forall j :: 0 <= j < |players| ==> players[j].standing == old(players[j].standing) && players[j].busted == old(players[j].busted)
      {
        SettleOne(players[i], dealer.hand.value, dealer.hand.IsBusted());
        i := i + 1;
      }
    }

    /** `_check_game_over`: the game stops when every player is out of chips or
        the round limit is reached. */
    method CheckGameOver()
      modifies this
      ensures gameActive == (old(gameActive) && ActiveCount(players) > 0 && currentRound < maxRounds)
      ensures players == old(players) && currentRound == old(currentRound) && history == old(history)
    {
      if ActiveCount(players) == 0 {
        gameActive := false;
      } else if currentRound >= maxRounds {
        gameActive := false;
      }
    }

    /** `play_round`: nothing when the game is inactive or the round limit is
        reached; otherwise the round number advances, the participants are reset,
        bets taken, cards dealt, and (unless the dealer's blackjack ends the round
        early) turns played, the dealer plays, bets are settled and the game-over
        check runs; in both cases the state is saved and returned. */
    method PlayRound() returns (r: Option<GameState>)
      requires Valid()
      modifies this, deck, dealer, dealer.hand, PlayerSet(), HandSet()
      ensures Valid() && players == old(players)
      ensures !old(gameActive) || old(currentRound) >= maxRounds ==>
        && r == None && currentRound == old(currentRound) && history == old(history) && gameActive == old(gameActive)
        && unchanged(deck) && unchanged(dealer) && unchanged(dealer.hand) && unchanged(PlayerSet()) && unchanged(HandSet())
      ensures old(gameActive) && old(currentRound) < maxRounds ==>
        && currentRound == old(currentRound) + 1
        && |history| == |old(history)| + 1 && history[..|old(history)|] == old(history)
        && r == Some(history[|history| - 1])
        && r.value.round == currentRound && r.value.activePlayers == ActiveCount(players)
        && r.value.cardsInDeck == |deck.cards|
        && (gameActive <==> ActiveCount(players) > 0 && currentRound < maxRounds)
        && DealerRound(dealer.hand.cards)
        && PlayersRound(players, old(ChipsOf(players)), dealer.hand.cards)
    {
      if !gameActive || currentRound >= maxRounds {
        return None;
      }
      var s := PlayOn();
      r := Some(s);
    }

    /** `play_round` of an active game below the round limit: the round number
        advances, the phases run, and the snapshot saved is returned. */
    method PlayOn() returns (s: GameState)
      requires Valid() && gameActive && currentRound < maxRounds
      modifies this, deck, dealer, dealer.hand, PlayerSet(), HandSet()
      ensures Valid() && players == old(players) && currentRound == old(currentRound) + 1
      ensures history == old(history) + [s]
      ensures s.round == currentRound && s.activePlayers == ActiveCount(players) && s.cardsInDeck == |deck.cards|
      ensures gameActive <==> ActiveCount(players) > 0 && currentRound < maxRounds
      ensures DealerRound(dealer.hand.cards) && PlayersRound(players, old(ChipsOf(players)), dealer.hand.cards)
    {
      Advance();
      s := SaveState();
    }

    /** The round number advances and the phases run. */
    method Advance()
      requires Valid()
      modifies this, deck, dealer, dealer.hand, PlayerSet(), HandSet()
      ensures Valid() && players == old(players) && currentRound == old(currentRound) + 1 && history == old(history)
      ensures gameActive == (old(gameActive) && ActiveCount(players) > 0 && currentRound < maxRounds)
      ensures DealerRound(dealer.hand.cards) && PlayersRound(players, old(ChipsOf(players)), dealer.hand.cards)
    {
      currentRound := currentRound + 1;
      PlayPhases();
    }

    /** The phases of `play_round` between the round counter and the saved
        state. The dealer's first two cards are the opening hand; a blackjack
        there ends the round with that hand, otherwise the dealer plays the
        house rule out. Every player ends as `RoundPlayed` says. Afterwards the
        game is still active exactly when it was and some player has chips left
        and the round limit is not reached. */
    method PlayPhases()
      requires Valid()
      modifies this, deck, dealer, dealer.hand, PlayerSet(), HandSet()
      ensures Valid() && players == old(players) && currentRound == old(currentRound) && history == old(history)
      ensures gameActive == (old(gameActive) && ActiveCount(players) > 0 && currentRound < maxRounds)
      ensures DealerRound(dealer.hand.cards)
      ensures PlayersRound(players, old(ChipsOf(players)), dealer.hand.cards)
    {
      ghost var chips0 := ChipsOf(players);
      OpenRound();
      var dealerBlackjack := Resolve(chips0);
    }

    /** Everything after the deal, for players that entered the round with
        `chips0`: the dealer's blackjack check, and when it fails the rest of
        the round. `b` is whether the dealer's opening hand is a blackjack. */
    method Resolve(ghost chips0: seq<int>) returns (b: bool)
      requires Valid() && |dealer.hand.cards| == 2 && Extends([], dealer.hand.cards)
      requires |chips0| == |players| && forall i :: 0 <= i < |players| ==> Opened(players[i], chips0[i])
      modifies this, deck, dealer.hand, PlayerSet(), HandSet()
      ensures Valid() && players == old(players) && currentRound == old(currentRound) && history == old(history)
      ensures gameActive == (old(gameActive) && ActiveCount(players) > 0 && currentRound < maxRounds)
      ensures b == (Score(old(dealer.hand.cards)).0 == 21)
      ensures DealerRound(dealer.hand.cards)
      ensures PlayersRound(players, chips0, dealer.hand.cards)
    {
      ghost var opening := dealer.hand.cards;
      assert opening[..2] == opening;
      b := CheckDealerBlackjack();
      if !b {
        FinishRound();
        ExtendsTrans([], opening, dealer.hand.cards);
        assert dealer.hand.cards[..2] == opening;
      }
      forall i | 0 <= i < |players|
        ensures PlayerRound(players[i], chips0[i], dealer.hand.cards)
      {
        RoundFromSeat(players[i], chips0[i], old(SeatOf(players[i])), b,
                      opening[0].value, dealer.hand.value, dealer.hand.IsBusted());
      }
      PlayersRoundEach(players, chips0, dealer.hand.cards);
    }

    /** Reset, bets, and the deal: the dealer holds two standard cards, and
        every player is reset, staked and dealt from its chips. */
    method OpenRound()
      requires Valid()
      modifies deck, dealer, dealer.hand, PlayerSet(), HandSet()
      ensures Valid() && Extends([], dealer.hand.cards) && |dealer.hand.cards| == 2
      ensures forall i :: 0 <= i < |players| ==> Opened(players[i], old(players[i].chips))
    {
      PrepareRound();
      TakeBets();
      DealCards();
    }

    /** Turns, the dealer's turn, settlement and the game-over check: every
        player plays against the dealer's first card and is paid against the
        dealer's final hand, which the house rule stands on. */
    method FinishRound()
      requires Valid() && |dealer.hand.cards| > 0
      modifies this, deck, dealer.hand, PlayerSet(), HandSet()
      ensures Valid() && players == old(players) && currentRound == old(currentRound) && history == old(history)
      ensures gameActive == (old(gameActive) && ActiveCount(players) > 0 && currentRound < maxRounds)
      ensures Extends(old(dealer.hand.cards), dealer.hand.cards) && !dealer.ShouldHit()
      ensures AskedFor(DealerPlayer, old(dealer.hand.cards), dealer.hand.cards, 0)
      ensures forall i :: 0 <= i < |players| ==>
        Finished(players[i], old(SeatOf(players[i])), old(dealer.hand.cards[0].value), dealer.hand.value, dealer.hand.IsBusted())
    {
      PlayTurns();
      DealerTurn();
      SettleBets();
      CheckGameOver();
    }
  }
}
