/**
 * The three bot strategies of project/task4/Strategies.py. Each looks only at
 * the value of the bot's hand and the value of the dealer's face-up card, and
 * answers `"hit"` or `"stand"`, modelled as `Decision`.
 */
module Strategies {

  datatype Decision = Hit | Stand

  datatype Strategy = Conservative | Aggressive | Basic

  /** `decide(player_hand, dealer_card)` of each strategy class. Every strategy
      hits on 11 or less and stands on 18 or more, so none hits a hand worth
      more than 17. */
  function Decide(s: Strategy, handValue: int, dealerValue: int): (d: Decision)
    ensures handValue <= 11 ==> d == Hit
    ensures handValue >= 18 ==> d == Stand
  {
    match s
    case Conservative => if handValue < 13 then Hit else Stand
    case Aggressive =>
      if handValue < 17 then Hit
      else if handValue == 17 && dealerValue >= 7 then Hit
      else Stand
    case Basic =>
      if handValue <= 11 then Hit
      else if handValue == 12 then (if dealerValue in [2, 3, 7, 8, 9, 10, 11] then Hit else Stand)
      else if 13 <= handValue <= 16 then (if dealerValue >= 7 then Hit else Stand)
      else Stand
  }

  /** The aggressive strategy hits whenever either of the other two does. */
  lemma AggressiveHitsMost(s: Strategy, handValue: int, dealerValue: int)
    ensures Decide(s, handValue, dealerValue) == Hit ==> Decide(Aggressive, handValue, dealerValue) == Hit
  {
  }

  /** Against a dealer card worth 2 to 11, whenever another strategy stands the
      conservative one stands too, with one exception: the basic strategy stands
      on 12 against a 4, 5 or 6, where the conservative one hits. */
  lemma ConservativeStandsMost(s: Strategy, handValue: int, dealerValue: int)
    requires 2 <= dealerValue <= 11
    ensures Decide(Conservative, handValue, dealerValue) == Hit ==>
      Decide(s, handValue, dealerValue) == Hit || (s == Basic && handValue == 12 && 4 <= dealerValue <= 6)
  {
  }

  /** Conservative and aggressive strategies are thresholds on the hand value:
      a hand they stand on, they stand on at any higher value too. */
  lemma ThresholdMonotone(s: Strategy, v: int, w: int, dealerValue: int)
    requires s != Basic && v <= w
    ensures Decide(s, v, dealerValue) == Stand ==> Decide(s, w, dealerValue) == Stand
  {
  }
}
