/**
 * The playing card of project/task4/Card.py: a suit, a rank and its blackjack
 * value, with the two string forms Python gives it.
 */
module Cards {

  datatype Card = Card(suit: string, rank: string, value: int)

  /** `str(card)`: the rank followed by the suit, e.g. `"10♥"`. */
  function Str(c: Card): (s: string)
    ensures |s| == |c.rank| + |c.suit|
    ensures s[..|c.rank|] == c.rank && s[|c.rank|..] == c.suit
  {
    c.rank + c.suit
  }

  /** The decimal digit of `d`. */
  function DigitChar(d: nat): (ch: char)
    requires d < 10
    ensures '0' <= ch <= '9'
  {
    ['0', '1', '2', '3', '4', '5', '6', '7', '8', '9'][d]
  }

  /** The value of a decimal digit. */
  function DigitValue(ch: char): (d: nat)
    requires '0' <= ch <= '9'
    ensures d < 10
  {
    (ch as int - '0' as int) as nat
  }

  /** The decimal digits of a natural number, without leading zeros. */
  function NatDigits(n: nat): (s: string)
    ensures |s| >= 1
    ensures forall t :: 0 <= t < |s| ==> '0' <= s[t] <= '9'
    decreases n
  {
    if n < 10 then [DigitChar(n)] else NatDigits(n / 10) + [DigitChar(n % 10)]
  }

  /** Python's `f"{n}"` for an integer: an optional minus sign, then the digits. */
  function IntToString(n: int): string
  {
    if n < 0 then "-" + NatDigits(-n) else NatDigits(n)
  }

  /** Reads a string of decimal digits back. */
  function ParseDigits(s: string): nat
    requires forall t :: 0 <= t < |s| ==> '0' <= s[t] <= '9'
  {
    if s == [] then 0 else 10 * ParseDigits(s[..|s| - 1]) + DigitValue(s[|s| - 1])
  }

  /** Reads the output of `IntToString` back. */
  function ParseInt(s: string): int
    requires |s| >= 1
    requires s[0] == '-' ==> |s| >= 2
    requires forall t :: 0 <= t < |s| ==> ('0' <= s[t] <= '9' || (t == 0 && s[t] == '-'))
  {
    if s[0] == '-' then -(ParseDigits(s[1..]) as int) else ParseDigits(s)
  }

  lemma DigitRoundTrip(d: nat)
    requires d < 10
    ensures DigitValue(DigitChar(d)) == d
  {
  }

  /** The digits of `n` read back as `n`. */
  lemma {:induction false} NatDigitsRoundTrip(n: nat)
    ensures ParseDigits(NatDigits(n)) == n
    decreases n
  {
    var s := NatDigits(n);
    if n < 10 {
      DigitRoundTrip(n);
      assert s[..0] == [];
    } else {
      NatDigitsRoundTrip(n / 10);
      DigitRoundTrip(n % 10);
      assert s[..|s| - 1] == NatDigits(n / 10);
    }
  }

  /** Parsing a digit string, with or without a minus sign in front. */
  lemma ParseSigned(d: string)
    requires |d| >= 1 && forall t :: 0 <= t < |d| ==> '0' <= d[t] <= '9'
    ensures ParseInt(d) == ParseDigits(d)
    ensures var s := "-" + d;
      && (forall t :: 0 <= t < |s| ==> ('0' <= s[t] <= '9' || (t == 0 && s[t] == '-')))
      && ParseInt(s) == -(ParseDigits(d) as int)
  {
    assert ("-" + d)[1..] == d;
  }

  /** The printed card value determines the value: decimal printing is inverted by parsing. */
  lemma IntToStringRoundTrip(n: int)
    ensures var s := IntToString(n);
      && |s| >= 1 && (s[0] == '-' ==> |s| >= 2)
      && (forall t :: 0 <= t < |s| ==> ('0' <= s[t] <= '9' || (t == 0 && s[t] == '-')))
      && ParseInt(s) == n
  {
    var m := if n < 0 then -n else n;
    NatDigitsRoundTrip(m);
    ParseSigned(NatDigits(m));
  }

  /** The king of spades prints as `K♠`. */
  lemma StrExample()
    ensures Str(Card("♠", "K", 10)) == "K♠"
  {
  }

  /** `repr(card)`: `Card('<suit>', '<rank>', <value>)`: the suit and the rank
      quoted, then the value printed in decimal. */
  function Repr(c: Card): (r: string)
    ensures |r| == 14 + |c.suit| + |c.rank| + |IntToString(c.value)|
    ensures r[..6] == "Card('" && r[6..6 + |c.suit|] == c.suit && r[|r| - 1] == ')'
    ensures r[|r| - 1 - |IntToString(c.value)|..|r| - 1] == IntToString(c.value)
  {
    var v := IntToString(c.value);
    var tail := "', '" + c.rank + "', " + v + ")";
    assert ReprText(c.suit, c.rank, v) == "Card('" + c.suit + tail;
    ReprText(c.suit, c.rank, v)
  }

  /** The ten of diamonds is represented as `Card('♦', '10', 10)`. */
  lemma ReprExample()
    ensures Repr(Card("♦", "10", 10)) == "Card('♦', '10', 10)"
  {
    assert NatDigits(10) == "10" by {
      assert NatDigits(1) == "1";
    }
  }

  /** The `repr` layout around the suit, the rank and the printed value. */
  function ReprText(suit: string, rank: string, value: string): string
  {
    "Card('" + suit + "', '" + rank + "', " + value + ")"
  }

  /** The text has no single quote, so the quotes of `Repr` delimit it. */
  predicate Unquoted(s: string)
  {
    forall t :: 0 <= t < |s| ==> s[t] != '\''
  }

  /** The text before the first single quote (all of it when there is none). */
  function UpToQuote(s: string): string
  {
    if s == [] || s[0] == '\'' then [] else [s[0]] + UpToQuote(s[1..])
  }

  /** The text after the first single quote (nothing when there is none). */
  function AfterQuote(s: string): string
  {
    if s == [] then [] else if s[0] == '\'' then s[1..] else AfterQuote(s[1..])
  }

  /** A quote after unquoted text `a` is the first one: it splits `a` from `x`. */
  lemma {:induction false} QuoteSplit(a: string, x: string)
    requires Unquoted(a)
    ensures UpToQuote(a + "'" + x) == a && AfterQuote(a + "'" + x) == x
  {
    var s := a + "'" + x;
    if a != [] {
      assert s[1..] == a[1..] + "'" + x;
      QuoteSplit(a[1..], x);
      assert [a[0]] + a[1..] == a;
    } else {
      assert s[1..] == x;
    }
  }

  /** `repr` tells cards apart: two cards whose suit and rank hold no quote and
      whose representations agree are the same card. */
  lemma ReprInjective(c: Card, d: Card)
    requires Unquoted(c.suit) && Unquoted(c.rank) && Unquoted(d.suit) && Unquoted(d.rank)
    requires Repr(c) == Repr(d)
    ensures c == d
  {
    ReprFields(c.suit, c.rank, IntToString(c.value));
    ReprFields(d.suit, d.rank, IntToString(d.value));
    IntToStringRoundTrip(c.value);
    IntToStringRoundTrip(d.value);
  }

  /** The fields of a card can be read back from its `repr` text: the suit up
      to the first quote after `Card('`, the rank up to the next quote after
      `', '`, and the printed value between the following `, ` and the closing
      parenthesis. */
  lemma ReprFields(suit: string, rank: string, value: string)
    requires Unquoted(suit) && Unquoted(rank)
    ensures var s := ReprText(suit, rank, value);
      && |s| >= 6
      && UpToQuote(s[6..]) == suit
      && |AfterQuote(s[6..])| >= 3
      && UpToQuote(AfterQuote(s[6..])[3..]) == rank
      && var u := AfterQuote(AfterQuote(s[6..])[3..]);
         |u| >= 3 && u[2..|u| - 1] == value
  {
    var u := ", " + value + ")";
    var t := ", '" + rank + "'" + u;
    var s := ReprText(suit, rank, value);
    assert s == "Card('" + (suit + "'" + t);
    assert s[6..] == suit + "'" + t;
    QuoteSplit(suit, t);
    assert t[3..] == rank + "'" + u;
    QuoteSplit(rank, u);
    assert u[2..|u| - 1] == value;
  }
}
