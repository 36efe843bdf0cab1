# spbu-python-course: a verified model of the course tasks' core

This project models four groups of small programs from a Python course
repository, and proves properties of the models:

- **A separate-chaining hash table** (`project/task5/main.py`). The table is a
  list of buckets. Each bucket is a list of `(key, value)` pairs. The table
  also keeps a size, a capacity and a load factor. It doubles its capacity when
  an insert pushes the load over the load factor, and it halves its capacity
  (never below 8) when a delete leaves it under a quarter of the load factor.
  Module `HashTables` gives a bucket list its meaning, the map it stands for.
  Class `HashTables.HashTable` models the Python object field by field, and
  each method is proved against that map.
- **A blackjack game** (`project/task4/`). It covers:
  - cards (`Cards`);
  - hands with the ace-demotion rule (`Hands`);
  - a multi-deck shoe that rebuilds itself when empty (`Decks`);
  - three bot strategies (`Strategies`);
  - players, bots and the dealer (`Players`);
  - the round engine with its payouts and history (`BlackjackGame`).
- **Function utilities** (`project/task3/`): the memoising decorator
  `cache_results`, with oldest-first eviction (`Caching`), and
  `curry_explicit` / `uncurry_explicit` (`Currying`).
- **Integer matrices** (`project/task1/matrix_operations.py`): sum, product
  and transpose (`Matrices`).

Code that changes state step by step is modelled as classes and methods with
loops:

- the hash table's mutators;
- `Hand.add_card`;
- the deck;
- the players;
- the game object;
- the cache;
- the matrix sum and product.

Each such method is proved against specification functions (`Contents`,
`Score`, `StandardDecks`, `Payout`, `Admit`, `Plus`, `Product`). Pure code is
modelled as functions and lemmas: the strategies, the dealer rule, the card
strings, currying and the transpose.

Python's built-in `hash` is the table's `hash: K -> int` parameter. The
randomness of `random.shuffle` is the deck's `rng: nat -> nat` parameter, which
drives the Fisher-Yates loop. The console output is not modelled.

## Model

| member | source | states |
|---|---|---|
| HashTables.Slot | project/task5/main.py:47 | a key's bucket index `hash(key) % n` always lies in `[0, n)` |
| HashTables.TableLookup | project/task5/main.py:157-164 | a key is in the table exactly when it is in the map of its own bucket, with the same value, so a lookup need only scan that bucket |
| HashTables.TableSet | project/task5/main.py:103-112 | replacing a key's bucket with one whose map is updated at that key keeps every pair in its hash bucket, and updates the table's map at exactly that key |
| HashTables.TableRemove | project/task5/main.py:183-186 | replacing a key's bucket with one whose map lacks the key keeps every pair in its hash bucket, and removes exactly that key from the table's map |
| HashTables.TableCard | project/task5/main.py:219 | when every pair sits in its hash bucket and no bucket repeats a key, the number of keys equals the number of stored pairs |
| HashTables.BucketUpdate | project/task5/main.py:106-108 | overwriting a pair's value in place keeps a bucket free of repeated keys and changes its map at that key only |
| HashTables.BucketAppend | project/task5/main.py:111 | appending a pair with a new key keeps the bucket free of repeated keys and adds exactly that key |
| HashTables.BucketRemove | project/task5/main.py:185 | deleting the pair at a position removes exactly its key from the bucket's map |
| HashTables.BucketCard | project/task5/main.py:103-112 | a bucket with no repeated key has as many keys as pairs |
| HashTables.BucketKeyAt | project/task5/main.py:160-162 | every key of a bucket's map is carried by some pair of the bucket, whose value it maps to |
| HashTables.ListUpdate | project/task5/main.py:131-135 | overwriting a present key's pair in its bucket keeps the bucket list well formed, updates the map at that key and keeps the pair count |
| HashTables.ListAppend | project/task5/main.py:137-139 | appending a pair for an absent key to its bucket keeps the bucket list well formed, adds the key to the map and one to the pair count |
| HashTables.ListRemove | project/task5/main.py:183-186 | deleting a present key's pair from its bucket keeps the bucket list well formed, removes exactly that key and one from the pair count |
| HashTables.EmptyBuckets | project/task5/main.py:35 | a list of empty buckets is well formed, holds no pairs and stands for the empty map |
| HashTables.FlattenLength | project/task5/main.py:228-230 | the bucket traversal yields as many pairs as the table stores |
| HashTables.FlattenEntries | project/task5/main.py:500-502 | every pair the traversal yields maps its key to its value in the table |
| HashTables.FlattenCovers | project/task5/main.py:500-502 | every key of the table is yielded by the traversal |
| HashTables.FlattenDistinct | project/task5/main.py:228-230 | the traversal never yields a key twice |
| HashTables.FirstNonEmptyAt | project/task5/main.py:340-344 | the first non-empty bucket comes no later than any non-empty bucket |
| HashTables.ChainAppend | project/task5/main.py:81-90 | rehashing pairs that follow other pairs appends their chain, in order, to the chain of the earlier ones |
| HashTables.RehashedSnoc | project/task5/main.py:89-90 | re-inserting one more pair appends it to the bucket of its slot |
| HashTables.RehashedChains | project/task5/main.py:81-90 | after re-inserting pairs one by one, each bucket is its old contents followed by the pairs that hash to it, in their original order |
| HashTables.RehashedAppend | project/task5/main.py:88-90 | re-inserting one run of pairs and then another is re-inserting both runs in sequence |
| HashTables.New | project/task5/main.py:16-35 | fails with the first violated check (`initial_size < 1`, else a load factor outside (0, 1]), exactly when the arguments are invalid; otherwise gives a valid empty table with size 0, capacity `initial_size` and all buckets empty |
| HashTables.HashTable.constructor | project/task5/main.py:32-35 | a valid table with size 0, capacity `initial_size`, empty buckets and the empty map |
| HashTables.HashTable.Hash | project/task5/main.py:47 | the bucket index is below the capacity |
| HashTables.HashTable.ShouldResize | project/task5/main.py:49-56 | true exactly when `size / capacity` exceeds the load factor |
| HashTables.HashTable.ShouldShrink | project/task5/main.py:58-69 | true exactly when the capacity is above 8, the table is not empty and `size / capacity` is below a quarter of the load factor; a table that should shrink never also needs to grow |
| HashTables.HashTable.Len | project/task5/main.py:219 | the stored size is the number of keys in the table |
| HashTables.HashTable.SetWithoutResizeCheck | project/task5/main.py:103-112 | the map is updated at the key, the capacity is kept, and the size grows by one exactly when the key was new; a new key's pair is appended to the end of its bucket and no other bucket changes; an existing key's pair is overwritten in place, at its position in its bucket, and no other pair changes |
| HashTables.HashTable.Set | project/task5/main.py:127-142 | the map is updated at the key. An existing key keeps size and capacity. A new key adds one to the size, and the capacity doubles exactly when `(size+1)/capacity` exceeds the load factor. An existing key's pair is overwritten in place in its bucket and nothing else in the buckets changes. A new key's pair is appended to its bucket; after a doubling, each new bucket holds the pairs of that grown table that hash to it, in traversal order |
| HashTables.HashTable.PutExisting | project/task5/main.py:131-135 | overwriting the key's pair in place updates the map, keeps size and capacity, and changes only that position of that bucket |
| HashTables.HashTable.PutNew | project/task5/main.py:137-139 | appending a pair with a new key adds it to the map and one to the size |
| HashTables.HashTable.Resize | project/task5/main.py:71-90 | rehashing into the new capacity keeps the map and the size exactly, and keeps element order within chains: each new bucket holds the old pairs that hash to it, in the old traversal order |
| HashTables.FreshBucket | project/task5/main.py:88-90 | the keys of an old bucket are in none of the buckets before it, so re-inserting them never meets an existing key |
| HashTables.HashTable.InsertAll | project/task5/main.py:89-90 | re-inserting one old bucket's pairs, none of them present yet, adds exactly their map and their count, and appends each pair, in order, to the end of its bucket |
| HashTables.HashTable.Get | project/task5/main.py:157-164 | the key's value when present; `None`, standing for `KeyError`, when absent |
| HashTables.HashTable.GetOr | project/task5/main.py:270-273 | the key's value when present, the default otherwise |
| HashTables.HashTable.Contains | project/task5/main.py:204-210 | true exactly when the key is in the table |
| HashTables.HashTable.Delete | project/task5/main.py:180-192 | reports whether the key was present. If absent, nothing changes (`KeyError`). If present, only that key is removed, the size drops by one, and the capacity becomes `max(8, capacity // 2)` exactly when the shrink condition holds afterwards. The key's pair is cut out of its bucket and the other buckets are kept; after a shrink, each new bucket holds the pairs of the table left by the removal that hash to it, in traversal order |
| HashTables.HashTable.RemoveAt | project/task5/main.py:185-186 | deleting the key's pair removes exactly that key, and one from the size, and cuts only that position out of that bucket |
| HashTables.HashTable.Clear | project/task5/main.py:284-285 | every bucket is empty, the size is 0, the capacity is kept, and the map is empty |
| HashTables.HashTable.SetDefault | project/task5/main.py:298-302 | a present key returns its value and changes nothing; an absent key is inserted with the default, as `Set` inserts a new key (size, capacity after the load check, and bucket layout), and the default is returned |
| HashTables.HashTable.Pop | project/task5/main.py:318-325 | a present key returns its value and removes only that key, leaving the size, capacity and bucket layout `Delete` leaves; an absent key returns the default and changes nothing, where a `None` default stands for `KeyError` |
| HashTables.HashTable.PopItem | project/task5/main.py:337-346 | `None` (`KeyError`) exactly when the table is empty. Otherwise it removes and returns the last pair of the first non-empty bucket, which was in the map, and one from the size |
| HashTables.HashTable.Items | project/task5/main.py:500-502 | the pairs in bucket order: `size` of them, each agreeing with the map, every key present, none repeated |
| HashTables.HashTable.Keys | project/task5/main.py:228-230 | `size` keys, the key of each pair in bucket order, each in the table, every key of the table among them, none repeated |
| HashTables.HashTable.HasItem | project/task5/main.py:523-528 | true exactly when the key is present with exactly that value |
| Cards.StrExample | tests/task4/test_card.py:18-21 | the king of spades prints as `K♠` |
| Cards.Repr | project/task4/Card.py:21-23 | the text opens with `Card('` and the suit, ends with the printed value and `)`, and is 14 characters longer than suit, rank and printed value together |
| Cards.ReprExample | tests/task4/test_card.py:23-26 | the ten of diamonds is represented as `Card('♦', '10', 10)` |
| Cards.NatDigitsRoundTrip | project/task4/Card.py:23 | parsing the decimal digits of a natural number gives the number back |
| Cards.IntToStringRoundTrip | project/task4/Card.py:23 | the printed value is a well-formed decimal integer that parses back to the value |
| Cards.QuoteSplit | project/task4/Card.py:23 | a quote after quote-free text is the first quote, and splits that text from the rest |
| Cards.ReprFields | project/task4/Card.py:21-23 | suit, rank and printed value can be read back from the `repr` layout when suit and rank hold no quote: the suit up to the first quote, the rank up to the next, the value from the comma-space after the rank's closing quote to the final parenthesis |
| Cards.ReprInjective | project/task4/Card.py:21-23 | two such cards with the same `repr` are the same card |
| Hands.Settle | project/task4/Hand.py:27-30 | the demotion loop ends at 21 or less unless no ace is left to demote, and leaves a hand of 21 or less untouched |
| Hands.SettleDemotes | project/task4/Hand.py:28-30 | the loop keeps `value - 10*aces` and never raises `aces`, and it demotes only aces that were needed: after any demotion the value is still above 11 |
| Hands.SettleClosedForm | project/task4/Hand.py:28-30 | the loop demotes none on 21 or less, otherwise `(value - 12) // 10` aces or all of them if there are fewer |
| Hands.SettleStops | project/task4/Hand.py:28-30 | a pair the loop can stop at, reached by demotions from values above 21, is the settled pair |
| Hands.Score | project/task4/Hand.py:14-30 | a hand built card by card is over 21 only when every ace already counts as 1 |
| Hands.ScoreIsSum | project/task4/Hand.py:22-30 | the value is the total of the card values with every demoted ace counted as 1, and the aces still at 11 are at most the aces held |
| Hands.SoftHandExample | project/task4/Hand.py:14-30 | ace, eight, seven are worth 16, with no ace left at 11 |
| Hands.TwoAcesExample | project/task4/Hand.py:14-30 | two aces are worth 12 with one still at 11; a nine more makes 21 |
| Hands.Hand.constructor | project/task4/Hand.py:8-12 | an empty hand whose value and ace count match its cards |
| Hands.Hand.AddCard | project/task4/Hand.py:14-30 | the card is appended, and value and ace count are the demotion of the old ones plus the card, so they still match the cards |
| Hands.Hand.Clear | project/task4/Hand.py:32-36 | no cards, value 0, no aces |
| Hands.Hand.IsBlackjack | project/task4/Hand.py:38-45 | on a hand whose value matches its cards: true exactly when there are two cards whose values, with the demoted aces counted as 1, total 21 |
| Hands.Hand.IsBusted | project/task4/Hand.py:47-54 | on a hand whose value matches its cards: true exactly when its score is over 21, and then no ace still counts 11 and the value is the card total with every ace as 1 |
| Decks.StandardDecks | project/task4/Deck.py:43-47 | `n` decks, one after another, have `52*n` cards |
| Decks.DecksAt | project/task4/Deck.py:43-47 | position `52*d + k` of the shoe lies inside it and holds the card the suit-then-rank order puts at position `k` of one deck |
| Decks.DecksStandard | project/task4/Deck.py:43-47 | the unshuffled shoe holds only standard cards |
| Decks.RepeatCount | project/task4/Deck.py:44-47 | `n` copies of a deck hold each card `n` times as often as the deck does |
| Decks.DeckCardAt | project/task4/Deck.py:44-47 | suit `s`, rank `r` sits at position `13*s + r` of a deck |
| Decks.DeckCardStandard | project/task4/Deck.py:16-31 | every position holds one of the 52 standard cards |
| Decks.StandardCardValue | project/task4/Deck.py:17-31 | a standard card is worth 2 to 11, worth 11 exactly when it is an ace, and 1 to 10 with its ace counted as 1 |
| Decks.BlackjackPair | project/task4/Hand.py:45 | two standard cards make 21 exactly when one is an ace and the other is worth 10 |
| Decks.StrInjective | project/task4/Card.py:17-19 | `str` tells standard cards apart |
| Decks.DeckCardInjective | project/task4/Deck.py:44-47 | the 52 positions of one deck hold 52 different cards |
| Decks.DeckCardCovers | project/task4/Deck.py:44-47 | every standard card sits at some position of one deck |
| Decks.OneDeckCount | project/task4/Deck.py:44-47 | one deck holds each standard card exactly once and nothing else |
| Decks.StandardDecksCount | project/task4/Deck.py:43-47 | `n` decks hold each standard card exactly `n` times and nothing else |
| Decks.Deck.constructor | project/task4/Deck.py:9-34 | the shoe is a permutation of `num_decks` standard decks, and none for a negative count |
| Decks.Deck.Build | project/task4/Deck.py:36-47 | the cards are exactly `StandardDecks(num_decks)`, in loop order |
| Decks.Deck.Shuffle | project/task4/Deck.py:49-51 | the cards are permuted: same length and same multiset |
| Decks.Deck.Deal | project/task4/Deck.py:53-63 | a non-empty shoe gives its last card and loses it. An empty shoe is first rebuilt as one shuffled deck, leaving 51 cards that together with the dealt card make one standard deck |
| Decks.Deck.Len | project/task4/Deck.py:65-67 | the number of cards left in the shoe, zero exactly when the next deal rebuilds it |
| Strategies.Decide | project/task4/Strategies.py:27-86 | every strategy hits on 11 or less and stands on 18 or more |
| Strategies.AggressiveHitsMost | project/task4/Strategies.py:44-59 | the aggressive strategy hits whenever any strategy hits |
| Strategies.ConservativeStandsMost | project/task4/Strategies.py:27-38 | against a dealer card of 2 to 11, whenever the conservative strategy hits, so does every other, except the basic one on 12 against a 4, 5 or 6 |
| Strategies.ThresholdMonotone | project/task4/Strategies.py:38-59 | the conservative and aggressive strategies, standing on a value, stand on every higher value |
| Players.BotBetSize | project/task4/Players.py:77 | the automated stake is between 10 and 100, never more than the chips of a bot holding 10 or more, at most a tenth of 100 or more chips, and exactly a tenth from 100 to 999 chips |
| Players.DealerHits | project/task4/Players.py:106-113 | the dealer never draws above 17, and on 17 exactly when an ace still counts 11 |
| Players.DealerHitsBounds | project/task4/Players.py:113 | the dealer always hits on 16 or less, never on a hard 17, and never on more than 17 |
| Players.NewDealer | project/task4/Players.py:102-104 | a dealer named "Dealer" with 0 chips, an empty hand and no bet |
| Players.Player.constructor | project/task4/Players.py:10-23 | the given name, chips and kind, with an empty hand, no bet, and neither standing nor busted |
| Players.Player.PlaceBet | project/task4/Players.py:25-39 | succeeds exactly when `0 < amount <= chips`, then moves the amount from the chips to the bet; otherwise nothing changes |
| Players.Player.Reset | project/task4/Players.py:41-46 | empty hand, no bet, not standing, not busted, chips kept |
| Players.Player.MakeBet | project/task4/Players.py:68-78 | succeeds exactly when the bot holds at least 10 chips, then stakes `BotBetSize(chips)`; otherwise nothing changes |
| Players.Player.ShouldHit | project/task4/Players.py:106-113 | the dealer always hits on 16 or less, never on 18 or more, and on 17 exactly when its hand still counts an ace as 11 |
| Players.Player.MakeDecision | project/task4/Players.py:80-96 | the dealer follows the soft-17 rule. A standing or busted bot stands. Any other bot follows its strategy and stands from then on exactly when the strategy says stand |
| BlackjackGame.Payout | project/task4/blackjack.py:223-243 | for a stake of 0 or more, the payout is between nothing and `int(2.5*bet)`, and at most twice the stake without a bust or a blackjack |
| BlackjackGame.PayoutBounds | project/task4/blackjack.py:223-243 | for a positive stake: a bust pays nothing; a blackjack pays `int(2.5*bet)`, at least twice the stake and more from a stake of 2; a dealer bust or a higher hand pays twice the stake; a tie returns the stake; a lower hand pays nothing |
| BlackjackGame.PayoutMonotone | project/task4/blackjack.py:233-241 | without busts or blackjacks, a higher hand never pays less |
| BlackjackGame.RuleStandsAbove17 | project/task4/blackjack.py:179-196 | no rule asks for a card on a hand over 17, so every turn ends |
| BlackjackGame.ExtendsTrans | project/task4/blackjack.py:116-140 | extending a hand by standard cards twice is one such extension |
| BlackjackGame.AskedForStep | project/task4/blackjack.py:186-189 | a card drawn on a hand the rule says to hit keeps every added card asked for |
| BlackjackGame.DealtTrans | project/task4/blackjack.py:121-135 | two one-card passes over a betting player add two standard cards |
| BlackjackGame.ActiveCount | project/task4/blackjack.py:247-249 | never more than the players, and 0 exactly when no player has chips |
| BlackjackGame.Views | project/task4/blackjack.py:273-282 | one entry per player, with its name, chips, hand text, hand value and bust flag |
| BlackjackGame.HandStr | project/task4/Hand.py:56-58 | the card texts joined by single spaces: when no card text holds a space, the text holds one space fewer than cards |
| BlackjackGame.StandardNoSpace | project/task4/Card.py:17-19 | the text of a standard card holds no space, so hand texts of standard cards separate their cards |
| BlackjackGame.PushOrLose | project/task4/blackjack.py:152-161 | a betting player gets the stake back on a blackjack and loses it otherwise, and the bet is cleared; a player without a bet is untouched |
| BlackjackGame.SettleOne | project/task4/blackjack.py:216-243 | a betting player is paid `Payout` and the bet is cleared |
| BlackjackGame.PlayersRoundEach | project/task4/blackjack.py:56-96 | the round outcome holds for all players exactly when it holds seat by seat |
| BlackjackGame.RoundFromSeat | project/task4/blackjack.py:78-93 | a player opened with its stake and dealt cards, then pushed after a dealer blackjack or played and settled otherwise, ends as `RoundPlayed` says |
| BlackjackGame.Blackjack.constructor | project/task4/blackjack.py:18-32 | a shoe that is a permutation of `num_decks` decks, a dealer, no players, round 0, inactive, empty history |
| BlackjackGame.Blackjack.AddBot | project/task4/blackjack.py:34-44 | a new bot with the given name, strategy and chips joins at the end, and nothing else changes |
| BlackjackGame.Blackjack.Start | project/task4/blackjack.py:47-51 | the shoe is permuted, the game is active, and the round is 0 |
| BlackjackGame.Blackjack.GetState | project/task4/blackjack.py:261-288 | the snapshot holds the round, the round limit, the card count, and an active-player count that is at most the number of players and 0 exactly when no entry has chips; one entry per player with its name, chips, hand text, hand value and bust flag; and the dealer's hand text and value, flagged busted exactly when over 21 |
| BlackjackGame.Blackjack.SaveState | project/task4/blackjack.py:256-259 | exactly the current snapshot is appended to the history and handed back, with the game's round, card count and active-player count, and no player's round outcome changes |
| BlackjackGame.Blackjack.Record | project/task4/blackjack.py:258-259 | the snapshot is appended to the history, and no player's round outcome changes |
| BlackjackGame.Blackjack.PrepareRound | project/task4/blackjack.py:98-102 | the dealer and every player have an empty hand, no bet and no flags, and chips are kept |
| BlackjackGame.Blackjack.ResetAt | project/task4/blackjack.py:101-102 | one player's hand, bet and flags are cleared and its chips kept, while every hand still matches its cards |
| BlackjackGame.Blackjack.TakeBets | project/task4/blackjack.py:104-114 | every bot with at least 10 chips stakes its automated bet; every other player keeps chips and bet |
| BlackjackGame.Blackjack.DealTo | project/task4/blackjack.py:123-124 | the hand gains one standard card |
| BlackjackGame.Blackjack.DealCards | project/task4/blackjack.py:116-140 | the dealer, and every player with a bet, gain exactly two standard cards; other players' hands are unchanged |
| BlackjackGame.Blackjack.DealPass | project/task4/blackjack.py:120-129 | every betting player, then the dealer, gains one standard card |
| BlackjackGame.Blackjack.DealRound | project/task4/blackjack.py:121-124 | every betting player gains one standard card |
| BlackjackGame.Blackjack.CheckDealerBlackjack | project/task4/blackjack.py:142-166 | reports whether the dealer holds a blackjack. If so, every bet is pushed or lost and cleared, and the game-over check runs. If not, nothing changes |
| BlackjackGame.Blackjack.ResolveBets | project/task4/blackjack.py:152-161 | every player's bet is pushed or lost and cleared |
| BlackjackGame.Blackjack.PlayTurn | project/task4/blackjack.py:179-196 | a standing or busted player is untouched. Any other player only adds standard cards, each one asked for by its rule. It ends busted over 21, or on a hand its rule stands on. Chips and bet are kept |
| BlackjackGame.Blackjack.Ask | project/task4/blackjack.py:180-184 | the decision is a hit exactly when the player's rule does not stand, and a bot remembers a stand |
| BlackjackGame.Blackjack.DrawFor | project/task4/blackjack.py:186-188 | a card asked for is dealt; the hand was worth at most 17 with aces at 1, and its value grows |
| BlackjackGame.Blackjack.PlayTurns | project/task4/blackjack.py:168-196 | every player with a bet plays a turn against the dealer's first card; the others are untouched, and the dealer's cards are kept |
| BlackjackGame.Blackjack.TurnAt | project/task4/blackjack.py:173-196 | the player at one seat takes its turn when it has a bet and has not busted, and is untouched otherwise |
| BlackjackGame.Blackjack.DealerTurn | project/task4/blackjack.py:198-208 | the dealer ends on a hand the soft-17 rule stands on, having drawn only standard cards, each one the rule asked for |
| BlackjackGame.Blackjack.SettleBets | project/task4/blackjack.py:210-243 | every player with a bet is paid `Payout` against the dealer's final hand, and every bet is cleared |
| BlackjackGame.Blackjack.CheckGameOver | project/task4/blackjack.py:245-254 | the game stays active exactly when it was, some player has chips, and the round limit is not reached |
| BlackjackGame.Blackjack.PlayRound | project/task4/blackjack.py:56-96 | an inactive game, or one at the round limit, gives `None` and changes nothing: round, history, flag, shoe, dealer and players are untouched. Otherwise the round advances by one, exactly one snapshot is appended and returned, and the game stays active exactly when some player has chips and the limit is not reached. The dealer's cards are a blackjack opening that ends the round, or an opening played out by the house rule; every player ends as `RoundPlayed` says from the chips it entered with |
| BlackjackGame.Blackjack.PlayOn | project/task4/blackjack.py:66-96 | a round of an active game below the limit advances the round by one, appends exactly the returned snapshot, leaves the game active exactly when some player has chips and the limit is not reached, and leaves the dealer and every player as `DealerRound` and `RoundPlayed` say |
| BlackjackGame.Blackjack.Advance | project/task4/blackjack.py:66-93 | the round number advances by one and the phases run, with the outcomes `PlayPhases` states |
| BlackjackGame.Blackjack.PlayPhases | project/task4/blackjack.py:69-93 | the dealer's first two cards are its opening hand; a blackjack there ends the round on that hand, otherwise the house rule is played out. Every player ends as `RoundPlayed` says: after a dealer blackjack, with its dealt hand and its stake pushed or lost; otherwise played from the dealt hand and paid `Payout`. The game is active exactly when it was, some player has chips, and the limit is not reached |
| BlackjackGame.Blackjack.Resolve | project/task4/blackjack.py:78-93 | reports whether the dealer opened with a blackjack; ends the round early on one, and plays it out otherwise, leaving dealer and players as `DealerRound` and `RoundPlayed` say |
| BlackjackGame.Blackjack.OpenRound | project/task4/blackjack.py:69-76 | after reset, bets and deal, the dealer holds two standard cards, and every player is reset, has staked `TakenBet` of its chips, and holds two standard cards exactly when it staked |
| BlackjackGame.Blackjack.FinishRound | project/task4/blackjack.py:83-93 | every player plays its turn against the dealer's first card and is paid `Payout` against the dealer's final hand. The dealer adds only standard cards its rule asked for and ends on a hand the rule stands on. The game is active exactly when it was, some player has chips, and the limit is not reached |
| Caching.AdmitKeeps | project/task3/cache.py:20-28 | after a call the key is cached, no key is cached twice, and a positive bound is respected |
| Caching.AdmitEvicts | project/task3/cache.py:23-28 | a miss appends the key, and drops the oldest key exactly when a positive bound would be exceeded |
| Caching.UnboundedKeepsAll | project/task3/cache.py:27 | with `max_size` 0 every key ever looked up stays cached |
| Caching.FifoExample | project/task3/cache.py:18-30 | with `max_size` 3, the call sequence of the tests computes on calls 1, 3, 4, 6 and 7, because a hit does not refresh its entry |
| Caching.Cache.constructor | project/task3/cache.py:14-15 | an empty table for the given bound and function |
| Caching.Cache.Call | project/task3/cache.py:18-30 | the result is the function's value at the key. A hit changes neither the results nor the calls made. A miss calls the function once. The key order follows `Admit` |
| Currying.Apply | project/task3/un_curry.py:23-34 | a `TypeError` exactly when the collected arguments would exceed the arity; the function called on all collected arguments, in order, when they reach it; otherwise a closure holding them, still short of the arity |
| Currying.OneAtATime | project/task3/un_curry.py:23-34 | giving the missing arguments one call at a time calls the function on all collected arguments, in order |
| Currying.AllAtOnce | project/task3/un_curry.py:23-34 | all arguments at once and one at a time give the same outcome |
| Currying.ArityZero | project/task3/un_curry.py:24-31 | arity 0 calls the function on `f()` and refuses any argument with a `TypeError` |
| Currying.RoundTrip | project/task3/un_curry.py:4-63 | uncurrying `curry_explicit(f, n)` with arity `n` calls `f` on exactly `n` arguments, and refuses any other count with a `TypeError` |
| Matrices.AddMatrices | project/task1/matrix_operations.py:1-9 | the result has `m1`'s shape, each entry the sum of the two entries, and equals `Plus` |
| Matrices.PlusCommutes | project/task1/matrix_operations.py:1-9 | adding matrices of one shape commutes |
| Matrices.Product | project/task1/matrix_operations.py:23-28 | the product has `rows(m1)` rows of `cols(m2)` entries |
| Matrices.MultiplyMatrices | project/task1/matrix_operations.py:12-30 | a `ValueError` exactly when `cols(m1) != rows(m2)`; otherwise the product, whose entry `(i, j)` is the sum over `k` of `m1[i][k]*m2[k][j]` |
| Matrices.ProductExample | project/task1/matrix_operations.py:12-30 | the two-by-two product of the tests |
| Matrices.Transpose | project/task1/matrix_operations.py:33-38 | the transpose has `cols` rows of `rows` entries |
| Matrices.TransposeExample | project/task1/matrix_operations.py:33-38 | the two-by-three case of the tests |
| Matrices.TransposeTwice | project/task1/matrix_operations.py:33-38 | transposing twice gives the matrix back |
| Matrices.DotTranspose | project/task1/matrix_operations.py:23-28 | a row-column sum of a product equals the swapped sum of the transposes |
| Matrices.TransposeProduct | project/task1/matrix_operations.py:12-38 | the transpose of a product is the product of the transposes in reverse order |

## Left out

- Printing: every `print` of `project/task4/blackjack.py` is left out, as are `show_status`, `run_simple_game` and `strategy_demo` (console output and `input()`), `HashTable.__str__`/`__repr__`, `Hand.__str__` (beyond `BlackjackGame.HandStr` for the snapshots) and `Player.__str__`. `add_bot` prints "(500 chips)" whatever the chips are; this only affects output.
- The public `get_state` only forwards to `_get_state`, which is `BlackjackGame.Blackjack.GetState`.
- Python's `hash` is an arbitrary function parameter, and `random.shuffle` is a Fisher-Yates loop driven by an arbitrary `rng` parameter. So "shuffled" means "some permutation", not a uniform one.
- The load factor is an exact rational (`real`), not a binary float. Load comparisons are exact.
- Cards are values: two cards with equal fields are equal, where Python compares card objects by identity. Cards with different fields differ in both.
- `Cards.ReprFields` and `Cards.ReprInjective` assume suits and ranks without a single quote, as all standard cards are.
- HashTables.HashTable.Pop: a missing default and a `None` default are one case (`None`), as in the source, where both raise `KeyError`.
- `KeyError` and `ValueError` become `None`, `false` or `Err` results, not exceptions.
- The keys, values and items views are modelled by `Keys`, `Items` and `HasItem`. These return snapshots of the current traversal; Python's `__iter__` is a generator over the live buckets and the views keep a reference to the table, so their liveness, and mutation of the table during iteration, are not modelled. The views' other set operations come from Python's `collections.abc` mixins and are left out. So are `values()` and the mixin methods of `MutableMapping`.
- A cache key models the pair `(args, frozenset(kwargs.items()))` as one value. Python's argument passing and `functools.wraps` are not modelled. The wrapped function is pure.
- The `cache_results` docstring says a `max_size` of 0 means no caching. The code caches without bound, and the model follows the code (`Caching.UnboundedKeepsAll`).
- `Caching.Cache.Call` hands back the stored result on a hit. Python returns the same object, and aliasing of mutable results is not modelled.
- Callables are pure functions of their argument sequence. The `isinstance(arity, int)` check has no counterpart, because the arity is an integer by type. `uncurry_explicit` is modelled on curried closures only, not on arbitrary callables.
- Currying.CurryExplicit, Currying.UncurryExplicit and Currying.CallUncurried carry contracts that only spell out their error checks; `Currying.OneAtATime`, `Currying.ArityZero` and `Currying.RoundTrip` state what the closures they build do.
- The matrix functions assume only what the Python code indexes without checking: for the sum, `m2` covering every position of `m1`; for the product, every row of `m1` at least as long as `m2` has rows and every row of `m2` at least as long as its first; for the transpose, every row at least as long as the first. Entries beyond those are never read. Ragged rows are otherwise allowed, and the product and transpose take non-empty inputs. Python raises `IndexError` on other inputs, and those inputs are not modelled.
- Default arguments are not modelled; callers pass every argument: `initial_size=8` and `load_factor=0.75` of the hash table, `num_decks=6` and `max_rounds=100` of the game, and `chips=1000` of `add_bot`.
- Player names and the strategy classes' shared base class carry no behaviour and are not modelled beyond `Strategies.Strategy`. A plain `Player` takes part in `_play_turns` with its "hit below 16" rule, but it never bets, because only `Bot` has `make_bet`.
- Matrix entries are integers. The Python functions take any entries that support `+` and `*`, floating point included; those are not modelled.
- Not part of this model:
  - `project/task6/` (cross-process locking);
  - `project/task3/smart_args.py` (reflection and deep copies);
  - `project/task1/vector_operations.py` (floating point);
  - the demo and menu scripts.
