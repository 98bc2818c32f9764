# Poker hand evaluator

A Dafny model of the hand evaluator in `poker-exercise/Program.cs`. Each input
line names ten cards. The first five are player 1's hand and the last five
are player 2's. The line is scored by standard poker category, and a tie
within a category is broken by a per-category rule. The round adds at most one
win to the counters `p1_wins` and `p2_wins`.

Modules, in dependency order:

- `Results` (`results.dfy`): `Result`/`Option`. An exception thrown by the
  source becomes a `Failure` carrying an `Error` kind.
- `Cards` (`cards.dfy`): the `CardSuit` enum as `Suit`. The `Card(string)`
  constructor is `ParseCard`. `Card.CompareTo` is `CompareTo`. The
  `CardValue` enum is the letter case of `ValueOf`.
- `Hands` (`hands.dfy`): value sequences. `List<Card>.Sort` is `SortByValue`,
  an insertion sort by `CompareTo`. It also holds value counts and
  permutation facts.
- `Verdicts` (`verdicts.dfy`): the counters as a `Tally`, the increments one
  comparison may make, and a lexicographic order `Lex` used as the reference
  the tie-break rules are measured against.
- `Classifier` (`classifier.dfy`): `Rank`. The `Marked` flags that `Mark`
  sets become a set of positions returned beside the category. It also holds
  `StandardCategory`, an independent definition of the textbook category
  computed from value multiplicities.
- `TieBreaking` (`tiebreak.dfy`): `TieBreak` and each case of it, with the
  `Where`/`Find` helpers it uses.
- `Game` (`game.dfy`): the part of `ProcessHand` that splits the line into
  tokens and builds the two hands. Then scoring: sort, rank, compare
  categories, else tie-break.
- `HandKeys` (`keys.dfy`): the canonical key of a hand. It lists the distinct
  values, more frequent first and higher first among equals. The key is
  unique and depends only on the hand's contents.
- `Intended` (`intended.dfy`): the two tie-break cases corrected (see
  Findings). The corrected scoring is proved to be standard poker order, and
  both departures are shown on concrete hands.

## Model

| member | source | states |
|---|---|---|
| Cards.ParseCard | poker-exercise/Program.cs:21-40 | A token is accepted exactly when it has two characters, the first is one of `23456789TJQKA` and the second one of `DHSC`. Otherwise the error is InvalidCard for a wrong length, InvalidCardValue for a bad rank character (checked first) and InvalidCardSuit for a bad suit. An accepted card has a value in 2..14 and renders back to the token. |
| Cards.ParseRender | poker-exercise/Program.cs:12-40 | Parsing the canonical text of any valid card gives that card back, with T/J/Q/K/A as 10..14 per the `CardValue` enum. |
| Cards.CompareTo | poker-exercise/Program.cs:42-48 | The result is -1, 0 or 1, negative exactly when the first value is lower and positive exactly when it is higher. Suits never count. |
| Cards.CompareToAntisymmetric | poker-exercise/Program.cs:42-48 | Swapping the operands negates the result, and it is 0 exactly for equal values. |
| Hands.Insert | poker-exercise/Program.cs:104 | Inserting a card into an ascending hand keeps it ascending and adds exactly that card. |
| Hands.SortByValue | poker-exercise/Program.cs:104 | `Sort` returns an ascending permutation of the hand, of the same length. |
| Hands.SortedPermutationsAgree | poker-exercise/Program.cs:104-112 | Any two ascending arrangements of the same cards have the same value sequence and agree on being one suit, so the unstable sort cannot change what `Rank` and `TieBreak` read. |
| Classifier.Classify | poker-exercise/Program.cs:126-185 | No contract of its own: the waterfall of checks with `Mark` applied on the returning branch. Its behaviour is stated by `Classifier.Rank`, `Classifier.RankIsStandard` and `Classifier.MarksAreTheGroup`. |
| Classifier.Rank | poker-exercise/Program.cs:124-179 | Fails with InvalidHand exactly when the hand does not have five cards. Otherwise the category is in 1..10, every mark is a position of the hand, and marks are set exactly for categories 2, 3, 4 and 8. |
| Classifier.RankIsStandard | poker-exercise/Program.cs:124-179 | On a sorted five-card hand the waterfall's category equals the textbook category computed from value multiplicities, one-suitedness and consecutiveness. |
| Classifier.RoyalFlushExactly | poker-exercise/Program.cs:129-132 | Category 10 exactly when the values are 10, 11, 12, 13, 14 in that order and all suits agree. |
| Classifier.StraightFlushExactly | poker-exercise/Program.cs:134-137 | Category 9 exactly for a one-suit run of five consecutive values that does not start at ten. |
| Classifier.AceNeverPlaysLow | poker-exercise/Program.cs:134-153 | A-2-3-4-5 is never a straight: it ranks as a flush in one suit and as high card otherwise. |
| Classifier.MarksAreTheGroup | poker-exercise/Program.cs:139-185 | The positions `Mark` flags are exactly the cards of the group. For quads that is the first or last four cards. For trips, the cards occurring three times. For two pair and one pair, the cards occurring twice. |
| TieBreaking.TieBreak | poker-exercise/Program.cs:187-281 | No contract of its own: the dispatch on the category to the rules below, with an InvalidRank failure for any other category. Its behaviour is stated by `TieBreaking.AtMostOnePoint`, `TieBreaking.RoyalFlushNeverWins` and `TieBreaking.InvalidRankRejected`. |
| TieBreaking.ScanDown | poker-exercise/Program.cs:199-212 | No contract of its own: the loop from position `i` down to 0. Its behaviour is stated by `TieBreaking.HighCardRule` and `TieBreaking.HighCardScanAlwaysReturnsTrue`. |
| TieBreaking.HighCardScan | poker-exercise/Program.cs:195-212 | No contract of its own: the scan started at the last position of the first hand. Its behaviour is stated by `TieBreaking.HighCardRule` and `TieBreaking.HighCardScanAlwaysReturnsTrue`. |
| TieBreaking.GroupRule | poker-exercise/Program.cs:214-231 | No contract of its own: the group value of each hand, then the unmarked cards scanned. Its behaviour is stated by `TieBreaking.GroupThenKickers` and `TieBreaking.FirstMarkedIsGroupValue`. |
| TieBreaking.TwoPairRule | poker-exercise/Program.cs:233-249 | No contract of its own: the scan of the marked cards, then the kicker comparison behind it. Its behaviour is stated by `TieBreaking.TwoPairIsMarkedScan` and `TieBreaking.TwoPairIgnoresKicker`. |
| TieBreaking.FullHouseRule | poker-exercise/Program.cs:251-271 | No contract of its own: the cards sharing each hand's first value, and the comparison of values read from them. Its behaviour is stated by `TieBreaking.FullHouseComparesLowestCard`. |
| TieBreaking.Select | poker-exercise/Program.cs:225-226 | No contract of its own: the cards whose marked flag has the given setting, in hand order. Its behaviour is stated by `TieBreaking.SelectValues` and `TieBreaking.FirstMarkedIsGroupValue`. |
| TieBreaking.FindValue | poker-exercise/Program.cs:217-218 | No contract of its own: the value of the first card with the given flag, failing with a null reference when there is none. Its behaviour is stated by `TieBreaking.FirstMarkedIsGroupValue`. |
| TieBreaking.WithValue | poker-exercise/Program.cs:252-253 | No contract of its own: the cards of one value, in hand order. Its behaviour is stated by `TieBreaking.FullHouseComparesLowestCard`. |
| TieBreaking.HighCardRule | poker-exercise/Program.cs:195-212 | Categories 1, 5, 6 and 9 on equal-length hands compare values from the highest position down. The first difference scores, identical values score nobody, and the call returns true. |
| TieBreaking.HighCardScanAlwaysReturnsTrue | poker-exercise/Program.cs:199-212 | The category-1 scan always returns true when it does not throw. It throws exactly when the second hand is shorter. |
| TieBreaking.AtMostOnePoint | poker-exercise/Program.cs:187-281 | For any inputs, a successful `TieBreak` adds at most one point. It returns false only for a royal flush or for a full house without a winner. |
| TieBreaking.GroupThenKickers | poker-exercise/Program.cs:214-231 | Categories 2, 4 and 8 on sorted hands compare the group's value first, then the kickers from the highest down. The call returns true. |
| TieBreaking.FirstMarkedIsGroupValue | poker-exercise/Program.cs:217-218 | `Find(c => c.Marked)` finds a card whose value is the group's, shared by every marked card and occurring at least twice. The unmarked cards stay ascending, and their number is 3, 2 or 1 by category. |
| TieBreaking.TwoPairIsMarkedScan | poker-exercise/Program.cs:233-249 | Case 3's result is the scan of the sorted marked cards, unchanged. The kicker comparison behind `!TieBreak(1, ...)` is never reached. |
| TieBreaking.TwoPairIgnoresKicker | poker-exercise/Program.cs:233-249 | On sorted two-pair hands the high pairs and then the low pairs decide. When both pairs are equal nobody scores, whatever the kickers. |
| TieBreaking.FullHouseComparesLowestCard | poker-exercise/Program.cs:251-271 | Case 7 fails on an empty hand. Otherwise it scores by the lowest card of each hand only, and returns false exactly when those are equal. |
| TieBreaking.RoyalFlushNeverWins | poker-exercise/Program.cs:273-274 | Two royal flushes score nobody and the call returns false. |
| TieBreaking.InvalidRankRejected | poker-exercise/Program.cs:276-277 | A category outside 1..10 fails with InvalidRank. |
| TieBreaking.SelectValues | poker-exercise/Program.cs:225-226 | `Where` over the marks keeps the same positions for hands with the same values. |
| Game.Tokens | poker-exercise/Program.cs:93 | Every token is non-empty and free of spaces, and the tokens joined together are the line with its spaces removed. That tokens are maximal runs is stated by `Game.TokensIffSpaced`. |
| Game.TokensOfJoin | poker-exercise/Program.cs:93 | Splitting words joined by single spaces gives the words back. |
| Game.TokensOfSpaced | poker-exercise/Program.cs:93 | Splitting words laid out with any gaps of spaces, at least one between two words and any number at either end, gives exactly those words back. |
| Game.SpacedTokens | poker-exercise/Program.cs:93 | Every line is its own tokens laid out with such gaps of spaces, so no characters are lost or invented by the split. |
| Game.TokensIffSpaced | poker-exercise/Program.cs:93 | A sequence of space-free words is the split of a line exactly when the line lays those words out with gaps of spaces, at least one between two words. This fixes the number of tokens the ten-token test reads. |
| Game.ParseCards | poker-exercise/Program.cs:100-109 | The card list succeeds exactly when every token parses, and then holds each token's card in order. On failure the error is that of the first token that does not parse. |
| Game.ParseHalves | poker-exercise/Program.cs:100-109 | Tokens 1-5 and 6-10 both parse exactly when all ten do. A failure carries the error of the first bad token, the first half being built before the second. |
| Game.ReadLine | poker-exercise/Program.cs:93-109 | No contract of its own: the split, the ten-token test and the construction of both hands. Its behaviour is stated by `Game.ReadLineOutcome` and `Game.ReadLineOfHands`. |
| Game.ReadLineOutcome | poker-exercise/Program.cs:93-109 | A line without exactly ten tokens is marked as such. With ten tokens the line reads as two five-card hands exactly when every token parses. Otherwise the error is that of the first bad token. |
| Game.ReadLineOfHands | poker-exercise/Program.cs:93-109 | The line naming two hands of five valid cards reads back as exactly those hands. |
| Game.ProcessHand | poker-exercise/Program.cs:85-121 | No contract of its own: one round, returning the new counters and the boolean result or the exception. Its behaviour is stated by `Game.ProcessHandScores` and `Game.ProcessHandOfHands`. |
| Game.ProcessHandScores | poker-exercise/Program.cs:85-121 | A null line, or one without ten tokens, returns false with the counters unchanged. Ten tokens succeed exactly when all are cards, and then the call returns true and adds one point to at most one counter. A failure is the first bad token's constructor error. |
| Game.ProcessHandOfHands | poker-exercise/Program.cs:93-121 | A line naming two hands of five valid cards returns true and adds exactly the verdict of scoring the two hands. |
| Game.DecideSorted | poker-exercise/Program.cs:105-119 | No contract of its own: rank both sorted hands, compare categories, else tie-break. Its behaviour is stated by `Game.DecideSortedTotal`, `Game.TieBreakOnSortedHands` and `Game.DecideSortedIgnoresArrangement`. |
| Game.Decide | poker-exercise/Program.cs:104-119 | No contract of its own: sort both hands, then score them. Its behaviour is stated by `Game.DecideTotal`, `Game.DecideAntisymmetric`, `Game.DecideReflexive` and `Game.HigherCategoryWins`. |
| Game.DecideSortedTotal | poker-exercise/Program.cs:114-119 | Scoring two sorted five-card hands never throws and adds at most one point. |
| Game.TieBreakOnSortedHands | poker-exercise/Program.cs:119 | Given two sorted hands of one category, `TieBreak` never throws, adds at most one point, and swapping the hands swaps the counters. |
| Game.DecideAntisymmetric | poker-exercise/Program.cs:100-119 | Swapping the two hands swaps the counters. |
| Game.DecideReflexive | poker-exercise/Program.cs:100-119 | A hand played against itself scores for nobody. |
| Game.HigherCategoryWins | poker-exercise/Program.cs:114-117 | A hand of strictly higher textbook category wins outright, whatever its values. |
| Game.DecideTotal | poker-exercise/Program.cs:100-119 | Any two five-card hands are scored without an exception, with at most one point. |
| Game.RankReadsValuesAndSuits | poker-exercise/Program.cs:124-179 | `Rank` depends only on the value sequence and on whether all suits agree. |
| Game.DecideSortedIgnoresArrangement | poker-exercise/Program.cs:104-119 | Any two sorted arrangements of the same two hands score alike. |
| Game.SortChoiceIrrelevant | poker-exercise/Program.cs:104-111 | Scoring any ascending arrangement of the dealt cards gives what the sort-then-score path gives. |
| Intended.TwoPairKickerIgnored | poker-exercise/Program.cs:233-249 | As written: `4H 4D 9C 9H KC` against `2H 4S 4C 9D 9S` scores nobody. |
| Intended.TwoPairKickerIgnoredAsDealt | poker-exercise/Program.cs:100-119 | As written: those two hands dealt in any order score nobody. |
| Intended.TwoPairKickerIgnoredByProcessHand | poker-exercise/Program.cs:85-121 | As written: a line naming those two hands in any order returns true and leaves both counters unchanged. |
| Intended.FullHouseLowestCardDecides | poker-exercise/Program.cs:251-271 | As written: nines full of twos loses to threes full of kings. |
| Intended.FullHouseLowestCardAsDealt | poker-exercise/Program.cs:100-119 | As written: those two full houses dealt in any order score for player 2. |
| Intended.TieBreakFixed | poker-exercise/Program.cs:187-281 | No contract of its own: `TieBreak` with the two-pair and full-house cases corrected. Its behaviour is stated by `Intended.TwoPairFixedRule` and `Intended.FixedTieBreakComparesKeys`. |
| Intended.DecideFixed | poker-exercise/Program.cs:104-119 | No contract of its own: scoring with the corrected tie-break. Its behaviour is stated by `Intended.DecideFixedIsStandard`. |
| Intended.TwoPairKickerCounts | poker-exercise/Program.cs:233-249 | Corrected two-pair rule: the king kicker wins the two-pair example for player 1. |
| Intended.TwoPairFixedRule | poker-exercise/Program.cs:233-249 | Corrected two-pair rule on sorted hands: high pair, then low pair, then kicker, compared in that order. |
| Intended.FullHouseTripsDecide | poker-exercise/Program.cs:251-271 | Corrected full-house rule: nines full beats threes full for player 1. |
| Intended.FixedTieBreakComparesKeys | poker-exercise/Program.cs:187-281 | With both cases corrected, the tie-break of two sorted hands of five distinct cards in one category never throws. It scores by comparing their canonical keys. |
| Intended.DecideFixedIsStandard | poker-exercise/Program.cs:100-119 | With both cases corrected, scoring two hands of five distinct cards is standard poker order: the higher textbook category wins, and otherwise the canonical keys compare lexicographically. |

## Left out

- `Main` and all console input and output (`Program.cs:54-83` and the messages written by `ProcessHand`). They do no computation the verdict depends on.
- The static counters `p1_wins`/`p2_wins` are threaded through as a `Tally` value instead of being mutated. They are unbounded naturals: the source's counters are 32-bit `int`s that would wrap to negative after `int.MaxValue` wins, and that wrap-around is not modelled, since no run plays two billion rounds.
- A null line is `None` of an `Option<string>`. Null cards and null lists do not arise in the model, so the null branches of the constructor (`data == null`), `CompareTo` (`otherCard == null`) and `Rank` (`cards == null`) are not modelled.
- Cards.ParseCard: accepts exactly the suit letters `D`, `H`, `S`, `C`. `Enum.TryParse<CardSuit>` also accepts a numeric string, so in the source a digit in the suit position is taken as the suit with that number. `0`-`3` name D, H, S, C, and other digits give values outside the enum. These tokens are left out because they name no card of a deck.
- Cards.ParseCard: counts a token's length in characters (Unicode scalar values), where `data.Length` counts UTF-16 code units. A token holding a character outside the Basic Multilingual Plane therefore gets a different error kind in the model (for example a value character followed by one such character is InvalidCardSuit here and "Invalid card" in the source). Which tokens are accepted is the same.
- Cards.ParseCard: reads only the ASCII digits `0`-`9`. `char.IsDigit` also accepts other Unicode decimal digits, on which `int.Parse` would throw a format exception; that path is left out.
- `List<Card>.Sort` is an unstable introsort. It is modelled as a stable insertion sort. `SortedPermutationsAgree` and `SortChoiceIrrelevant` show the order among cards of equal value cannot change any result.
- Exception messages are reduced to an error kind.
- Intended.DecideFixedIsStandard: assumes each hand holds five distinct cards. The source accepts the same card twice in a hand, and so does the model of the source. With repeated cards, a flush with a pair or five of a kind have no textbook meaning.

## Findings

| source | as written | input that shows it | evidently intended | confidence | as-written member | corrected member |
|---|---|---|---|---|---|---|
| poker-exercise/Program.cs:238 | The two-pair case compares the kickers only when `TieBreak(1, c1, c2)` returns false. That call always returns true, so equal pairs never reach the kicker and score nobody. | `4H 4D 9C 9H KC 4S 4C 9D 9S 2H` | Equal pairs are decided by the kicker, so player 1 scores with the king. | high; not executed | Intended.TwoPairKickerIgnoredByProcessHand | Intended.TwoPairKickerCounts |
| poker-exercise/Program.cs:254-263 | The full-house case takes the trips' value from `p1_cards[0]` when the first card is not one of the trips. `c1[0]` and `p1_cards[0]` share a value, so only the lowest cards are ever compared. | `2H 2D 9S 9C 9D 3H 3D 3S KC KD` | The trips decide (nines beat threes), reading the other group from the last card, so player 1 scores. | high; not executed | Intended.FullHouseLowestCardAsDealt | Intended.FullHouseTripsDecide |

The corrected definitions are `Intended.TieBreakFixed` and
`Intended.DecideFixed`. `Intended.DecideFixedIsStandard` proves that they give
standard poker order for every pair of five-card hands without repeated cards.
