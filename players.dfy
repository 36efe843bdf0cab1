/**
 * The participants of project/task4/Players.py. Python's class hierarchy
 * (`Player`, its subclasses `Bot` and `Dealer`) becomes one class whose `kind`
 * says which of the three a participant is; a bot's kind carries its strategy.
 */
module Players {
  import opened Cards
  import opened Hands
  import opened Strategies

  datatype Kind = PlainPlayer | BotPlayer(strategy: Strategy) | DealerPlayer

  /** The automated stake of `Bot.make_bet`: a tenth of the chips (floor
      division), but at least 10 and at most 100. */
  function BotBetSize(chips: int): (b: int)
    ensures 10 <= b <= 100
    ensures chips >= 10 ==> b <= chips
    ensures 100 <= chips ==> 10 * b <= chips
    ensures 100 <= chips < 1000 ==> b == chips / 10
  {
    Max(10, Min(chips / 10, 100))
  }

  function Min(a: int, b: int): int
  {
    if a <= b then a else b
  }

  function Max(a: int, b: int): int
  {
    if a >= b then a else b
  }

  /** `Dealer.should_hit`: the dealer draws to 16 and on a soft 17 (a 17 with an
      ace still counted as 11). */
  predicate DealerHits(value: int, aces: nat)
    ensures DealerHits(value, aces) ==> value <= 17
    ensures value == 17 ==> (DealerHits(value, aces) <==> aces > 0)
  {
    value < 17 || (value == 17 && aces > 0)
  }

  /** The dealer never draws on more than 17, nor on a hard 17; it always draws
      on 16 or less. */
  lemma DealerHitsBounds(value: int, aces: nat)
    ensures DealerHits(value, aces) ==> value <= 17
    ensures value == 17 && aces == 0 ==> !DealerHits(value, aces)
    ensures value <= 16 ==> DealerHits(value, aces)
  {
  }

  class Player {
    const name: string
    const hand: Hand
    const kind: Kind
    var chips: int
    var bet: int
    var standing: bool
    var busted: bool

    ghost predicate Valid()
      reads hand
    {
      hand.Valid()
    }

    /** `Player(name, chips)`, `Bot(name, strategy, chips)`: an empty hand, no
        bet, neither standing nor busted. */
    constructor (name: string, chips: int, kind: Kind)
      ensures Valid() && fresh(hand)
      ensures this.name == name && this.chips == chips && this.kind == kind
      ensures hand.cards == [] && bet == 0 && !standing && !busted
    {
      this.name := name;
      this.chips := chips;
      this.kind := kind;
      hand := new Hand();
      bet := 0;
      standing := false;
      busted := false;
    }

    /** `place_bet`: a stake of 1 up to all the chips is moved from the chips to
        the bet; any other amount is refused and changes nothing. */
    method PlaceBet(amount: int) returns (ok: bool)
      modifies this
      ensures ok <==> 0 < amount <= old(chips)
      ensures ok ==> bet == amount && chips == old(chips) - amount
      ensures !ok ==> bet == old(bet) && chips == old(chips)
      ensures standing == old(standing) && busted == old(busted)
    {
      if 0 < amount <= chips {
        bet := amount;
        chips := chips - amount;
        return true;
      }
      return false;
    }

    /** `reset`: empty the hand, clear the flags and the bet; the chips stay. */
    method Reset()
      modifies this, hand
      ensures Valid() && hand.cards == [] && hand.value == 0 && hand.aces == 0
      ensures bet == 0 && !standing && !busted && chips == old(chips)
    {
      hand.Clear();
      standing := false;
      busted := false;
      bet := 0;
    }

    /** `Bot.make_bet`: nothing without chips; otherwise the automated stake,
        which succeeds exactly when the bot holds at least 10 chips. */
    method MakeBet() returns (ok: bool)
      requires kind.BotPlayer?
      modifies this
      ensures ok <==> old(chips) >= 10
      ensures ok ==> bet == BotBetSize(old(chips)) && chips == old(chips) - bet
      ensures !ok ==> bet == old(bet) && chips == old(chips)
      ensures standing == old(standing) && busted == old(busted)
    {
      if chips <= 0 {
        return false;
      }
      var betSize := BotBetSize(chips);
      ok := PlaceBet(betSize);
    }

    /** `Dealer.should_hit`: always on 16 or less, never on 18 or more, and on
        17 exactly when an ace still counts 11. */
    predicate ShouldHit()
      reads hand
      ensures hand.value <= 16 ==> ShouldHit()
      ensures hand.value >= 18 ==> !ShouldHit()
      ensures hand.value == 17 ==> (ShouldHit() <==> hand.aces > 0)
    {
      DealerHits(hand.value, hand.aces)
    }

    /** `make_decision` of a bot (stand once standing or busted; otherwise ask the
        strategy and remember a stand) and of the dealer (the house rule). A
        plain player has no such method. */
    method MakeDecision(dealerCard: Card) returns (d: Decision)
      requires !kind.PlainPlayer?
      modifies this
      ensures kind.DealerPlayer? ==>
        d == (if DealerHits(hand.value, hand.aces) then Hit else Stand) && standing == old(standing)
      ensures kind.BotPlayer? && (old(standing) || old(busted)) ==>
        d == Stand && standing == old(standing)
      ensures kind.BotPlayer? && !old(standing) && !old(busted) ==>
        d == Decide(kind.strategy, hand.value, dealerCard.value) && (standing <==> d == Stand)
      ensures chips == old(chips) && bet == old(bet) && busted == old(busted)
    {
      if kind.DealerPlayer? {
        d := if ShouldHit() then Hit else Stand;
        return;
      }
      if standing || busted {
        return Stand;
      }
      d := Decide(kind.strategy, hand.value, dealerCard.value);
      if d == Stand {
        standing := true;
      }
    }
  }

  /** `Dealer()`: a participant named "Dealer" with no chips. */
  method NewDealer() returns (d: Player)
    ensures fresh(d) && fresh(d.hand) && d.Valid()
    ensures d.name == "Dealer" && d.chips == 0 && d.kind == DealerPlayer
    ensures d.hand.cards == [] && d.bet == 0 && !d.standing && !d.busted
  {
    d := new Player("Dealer", 0, DealerPlayer);
  }
}
