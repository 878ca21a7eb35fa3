# Big Two rules engine in Dafny

This project models the rules engine of a four-player Big Two card game and
proves properties of the model. It covers:

- the card order: ranks 3 (lowest) up to 2 (highest), and suits clubs < diamonds < hearts < spades;
- the deck, the index-driven shuffle and the round-robin deal;
- the five-card classification, from straight up to royal flush;
- the k-subset generator and the enumeration of every legal play from a hand;
- the comparison of two combinations and the legality of a play;
- the turn state machine that applies one play or pass to the game state;
- the three computer strategies and the human player's pass, select and play controls.

Files:

| file | module | contents |
|---|---|---|
| wrappers.dfy | `Wrappers` | `Option` |
| cards.dfy | `Cards` | suits, ranks, card order, sorting, deck, shuffle, deal |
| combinations.dfy | `Subsets` | the k-subset generator and its characterisation by index choices |
| combos.dfy | `Combos` | rank counts, classification, comparison, `ValidPlay`, enumeration of plays |
| game.dfy | `Game` | players, game state, starting seat, `PlayMove` |
| ai.dfy | `Ai` | rank bounds, strategies, stable sort, `SelectPlay` |
| humanhand.dfy | `HumanHand` | `CanPass`, `ToggleCard`, `IsValidPlay`, play and pass buttons |

The code is modelled as pure functions over immutable values.

- A card is a `(suit, rank)` value, and `Key(c) = 4 * rank index + suit index` is its position among all 52.
- A game state holds four `Player`s, each with a hand and an optional finishing place, plus:
  - the table cards;
  - the set of seats that have passed;
  - an optional anchor (`lastValidPlayerId`);
  - the place counter.
- `Math.random` in the shuffle is replaced by an explicit sequence of chosen swap indices.

Some contracts use order-free reference definitions instead of the source's own steps:

- `ShapeClass` classifies five cards by their multiset of ranks and their suits.
- `HighCard` is the highest card by `Key`.
- `FirstBest` is the earliest element with the greatest key.
- `IndexChoice` / `Pick` describe an increasing choice of positions.

The model follows the code's handling of the passed set:

- a play does not reset the passed set;
- seats that have finished are never removed from it;
- `passCount` is the size of the whole set.

## Model

| member | source | states |
|---|---|---|
| Cards.RanksListedInOrder | src/utils.js:3-30 | the rank list runs 3, 4, ..., A, 2 and position i in it has rank index i |
| Cards.CompareCards | src/utils.js:43-50 | zero exactly for the same card; otherwise the sign follows the rank index first and the suit index for equal ranks |
| Cards.CompareCardsAntisymmetric | src/utils.js:43-50 | swapping the two cards flips the sign of the comparison |
| Cards.SortCards | src/utils.js:68 | the result is ascending in the card order and is a permutation of the input |
| Cards.SortedUnique | src/utils.js:68 | two ascending sequences with the same cards are equal, so every correct sort (stable or not) gives the same hand |
| Cards.SortPermutationInvariant | src/utils.js:128-129 | sorting gives the same result for any order of the same cards |
| Cards.CreateDeck | src/utils.js:33-41 | 52 cards, no (suit, rank) twice, and every suit-rank pair present |
| Cards.Shuffle | src/utils.js:53-60 | for any valid index choices the shuffled deck is a permutation of the deck |
| Cards.ShuffleIdentity | src/utils.js:53-60 | choosing j = i at every step leaves the deck unchanged |
| Cards.ColumnPositions | src/utils.js:64-67 | card i of the deck is card i / 4 of pile i mod 4, and the piles have the round-robin sizes |
| Cards.DealCards | src/utils.js:63-70 | four hands, each sorted and each a permutation of its round-robin pile |
| Cards.DealPlacesRoundRobin | src/utils.js:65-67 | deck card i lands in hand i mod 4 |
| Cards.DealPartitions | src/utils.js:63-70 | the four hands together hold exactly the cards of the deck |
| Cards.DealFullDeck | src/utils.js:63-70 | a 52-card deck gives four hands of 13 |
| Subsets.Combinations | src/utils.js:171-185 | every combination has exactly n entries, and there are none when the array is shorter than n; the lemmas below give the count, the order and the contents |
| Subsets.CombinationsCount | src/utils.js:171-185 | the generator returns C(len, n) combinations |
| Subsets.CombinationsSelect | src/utils.js:171-185 | the k-th combination is the array at the k-th increasing position choice; the choices are exactly the increasing length-n ones, none repeated, C(len, n) of them |
| Subsets.CombinationsDrawnFrom | src/utils.js:171-185 | every combination has length n and is drawn from the array's cards |
| Subsets.CombinationsContainPick | src/utils.js:171-185 | every increasing choice of n positions appears among the combinations |
| Combos.RankCounts | src/utils.js:89-95 | a rank is a key exactly when some card has it, and maps to the number of cards of that rank |
| Combos.IsFourOfAKind | src/utils.js:98-100 | true iff some rank has count 4 |
| Combos.IsFullHouse | src/utils.js:103-106 | true iff some rank has count 3 and some rank has count 2 |
| Combos.IsStraight | src/utils.js:73-80 | true iff each card's rank index is the first card's plus its position; the lowest rank of a straight is then at most J, so no run wraps from 2 to 3 |
| Combos.IsFlush | src/utils.js:83-86 | true iff every two cards share a suit |
| Combos.IsRoyalFlush | src/utils.js:109-113 | true iff the cards are a flush and a straight starting at 10 |
| Combos.ClassifySorted | src/utils.js:131-167 | the class is in -1..5; it is 4 or 5 iff the cards are a straight and a flush; 3 only for four of a kind; 2 only for a full house; 1 only for a flush that is not a straight; 0 only for a straight that is not a flush; -1 only for cards that are neither |
| Combos.ClassifyCombo | src/utils.js:123-127 | the class is in -1..5 and is -1 for any length other than 5 |
| Combos.ClassifyMatchesShape | src/utils.js:73-168 | for five cards the class equals the order-free shape: royal flush 5, straight flush 4, four of a kind 3, full house 2, flush 1, straight 0 (runs 3..7 to J..2, no wrap), else -1, strongest first |
| Combos.ClassifyPermutationInvariant | src/utils.js:128-129 | the class does not depend on the order of the cards |
| Combos.CompareCombo | src/utils.js:266-370 | the result is -1, 0 or 1; the CompareCrossLength, CompareSingles, ComparePairs, CompareTriples, CompareFive* and CompareAntisymmetric rows below state what it means case by case |
| Combos.CompareCrossLength | src/utils.js:268-275 | a five-card set against a single wins iff its shape class is at least 3 and otherwise loses; every other length mismatch gives 0 |
| Combos.CompareSingles | src/utils.js:277-280 | singles never tie, and a single wins iff its card is higher in the card order |
| Combos.ComparePairs | src/utils.js:282-291 | two cards that are not both pairs give 0; pairs never tie and win iff their highest card is higher |
| Combos.CompareTriples | src/utils.js:293-304 | three cards that are not both triples give 0; triples never tie and win iff their highest card is higher |
| Combos.CompareFiveByClass | src/utils.js:308-320 | a set with no class gives 0; sets of different classes never tie and the higher class wins |
| Combos.CompareFiveStraights | src/utils.js:326-329 | straights, straight flushes and royal flushes of the same class win iff their highest card is higher |
| Combos.CompareFiveFlushes | src/utils.js:331-340 | flushes compare by suit, then by highest card when the suits agree |
| Combos.CompareFiveByGroup | src/utils.js:342-366 | full houses compare by the rank of their three, four of a kind by the rank of their four, and never tie |
| Combos.CompareAntisymmetric | src/utils.js:266-370 | if x beats y then y loses to x, unless x is a five-card set beating a single, where the reverse comparison is 0; equal-length sets that give 0 give 0 both ways |
| Combos.ValidPlay | src/utils.js:376-417 | a first play of the game without the 3 of clubs is rejected; on an empty table the play is accepted iff it is a single, equal-rank pair, equal-rank triple or classified five; on a non-empty table iff it beats the table |
| Combos.ValidIsCombination | src/utils.js:376-417 | every accepted play is a single, pair, triple or classified five-card set |
| Combos.BeatingIsCombination | src/utils.js:266-370 | only a single, a genuine pair or triple, or a classified five-card set can beat anything |
| Combos.Filter | src/utils.js:249-254 | keeps exactly the elements that pass the test, each as many times as it occurs in the input |
| Combos.FilterAppend | src/utils.js:249-254 | filtering a concatenation filters each part and concatenates the results, so the kept elements stay in their order |
| Combos.FilterKeepsOrder | src/utils.js:249-254 | a relation that holds from every element to every later one still holds after filtering |
| Combos.FilterSorted | src/App.jsx:79-83 | filtering an ascending hand leaves it ascending |
| Combos.FindPairs | src/utils.js:188-198 | every pair found has two cards of one rank drawn from the hand |
| Combos.FindPairsComplete | src/utils.js:188-198 | any two equal-rank cards of the hand, in hand order, are among the pairs found |
| Combos.FindTriples | src/utils.js:201-212 | every triple found has three cards of one rank drawn from the hand |
| Combos.FindTriplesComplete | src/utils.js:201-212 | any three equal-rank cards of the hand, in hand order, are among the triples found |
| Combos.FindFiveCardCombos | src/utils.js:215-226 | every set found has five cards with a class, drawn from the hand |
| Combos.FindFiveCardCombosComplete | src/utils.js:215-226 | any increasing choice of five cards with a class is among the sets found |
| Combos.CandidatesSound | src/utils.js:230-244 | every candidate is a legal unit made of cards of the hand |
| Combos.CandidatesComplete | src/utils.js:230-244 | every legal unit taken in order from the sorted hand is a candidate |
| Combos.CandidatesInOrder | src/utils.js:233-243 | the candidates of a sorted hand come by size: singles first, in card order, then pairs, triples and five-card sets |
| Combos.KeepLegal | src/utils.js:246-255 | keeps exactly the candidates that beat a non-empty table, or that hold the 3 of clubs at game start, or all of them otherwise; a list ordered by size stays ordered |
| Combos.KeepLegalAppend | src/utils.js:246-255 | the legal plays of a concatenation are the legal plays of each part, in order |
| Combos.CalculatePossiblePlays | src/utils.js:228-258 | every play offered is valid for the table and drawn from the hand; on a non-empty table each beats it, at game start each holds the 3 of clubs; the plays are listed by size, singles in card order first |
| Combos.PossiblePlaysComplete | src/utils.js:228-258 | every valid play made of the sorted hand's cards in order is offered |
| Combos.PossiblePlaysByGroup | src/utils.js:228-258 | the plays offered are the legal singles, then the legal pairs, triples and five-card sets of the sorted hand, each group in the generator's order |
| Combos.FirstPlayIsLowestSingle | src/utils.js:228-258 | on an empty table, after the first play or at game start with the 3 of clubs in hand, the first play offered is the lowest card alone; at game start that card is the 3 of clubs |
| Combos.EverySingleOnOpenTable | src/utils.js:228-258 | on an empty table after the first play, every card of the hand is offered as a single |
| Game.StartingPlayer | src/App.jsx:19-21 | the first seat whose hand holds the 3 of clubs, or -1 exactly when no hand does |
| Game.StartingPlayerOfShuffledDeck | src/App.jsx:9-21 | dealing any shuffle of the full deck gives the 3 of clubs to exactly one seat, and that seat starts |
| Game.InitialState | src/App.jsx:9-37 | four unranked players with 13 cards each; the holder of the 3 of clubs moves first; empty table and passed set, game start, no anchor, place counter 1 |
| Game.ActiveIds | src/App.jsx:62-64 | the seats with cards and no place, in seat order |
| Game.Scan | src/App.jsx:93-117 | either the first unblocked seat clockwise from the start, with every seat before it blocked, or a full loop exactly when every seat is blocked |
| Game.RemovePlayed | src/App.jsx:79-83 | a card stays in the hand iff no played card has its suit and rank; each kept card keeps its count, and the kept cards keep their order, so a sorted hand stays sorted |
| Game.AfterRemoval | src/App.jsx:77-90 | a pass changes nobody; a play changes only the mover, who loses exactly the played cards, keeps the count of every other card and keeps a sorted hand sorted, and takes the current place when that empties a non-empty hand |
| Game.NextRank | src/App.jsx:131-133 | the counter goes up by exactly one iff the mover goes out now or a player already sits with no cards holding the current place; otherwise it stays |
| Game.AssignLastPlace | src/App.jsx:137-144 | when three players hold a place the remaining one gets place 4; otherwise places are unchanged; hands never change |
| Game.NextTurn | src/App.jsx:92-128 | with an anchor and at least active-1 passes the anchor leads and the table clears; else the next seat is unblocked with every skipped seat blocked; after a full loop the table clears and the anchor, or seat 0 without one, leads |
| Game.SearchStart | src/App.jsx:151 | the search for a new anchor starts one seat after the old anchor, or at seat 1 when there is none |
| Game.ReanchorClockwise | src/App.jsx:147-166 | an active anchor stays; otherwise the first active seat clockwise after it, and none exactly when no seat is active |
| Game.ReanchorAsWritten | src/App.jsx:147-166 | the source's re-anchoring: an active seat, and none exactly when no seat is active |
| Game.ReanchorDifference | src/App.jsx:154-165 | the source's anchor differs from the clockwise one iff the old anchor is gone, the next seat is active and a lower seat is active too |
| Game.ReanchorSkipsNextSeat | src/App.jsx:154-165 | with anchor 2 gone and seats 0, 1, 3 active the source picks 0 where the clockwise rule picks 3 |
| Game.PlayMove | src/App.jsx:45-188 | one move: only the mover's hand changes, losing exactly the played cards and keeping the count of every other card; every sorted hand stays sorted; places, place counter, table, passed set and next player follow the rules above, with the anchor after a pass from `ReanchorClockwise` (the corrected rule; see Findings); the state keeps its shape; game start ends |
| Game.PlayMoveAsWritten | src/App.jsx:45-188 | the move as the source computes it: the same state as `PlayMove` except the anchor after a pass, which comes from `ReanchorAsWritten` |
| Game.AnchorSkipsSeatAfterFinisher | src/App.jsx:147-175 | in a concrete state where seat 2 has gone out and seat 3 passes, the source anchors seat 0 while the corrected move anchors seat 3 |
| Ai.HighestRank | src/ai.js:15-17 | the greatest rank index of the cards (a member's, in 0..12), or -1 standing for -Infinity when there are none |
| Ai.LowestRank | src/ai.js:19-21 | the least rank index of the cards (a member's, in 0..12), or 13 standing for +Infinity when there are none |
| Ai.LowestAtMostHighest | src/ai.js:15-21 | for non-empty cards 0 <= lowest <= highest < 13 |
| Ai.SortDesc | src/ai.js:31-35 | a permutation of the list in non-increasing key order |
| Ai.SortDescHead | src/ai.js:29-36 | the head of the stable sort is the earliest element with the greatest key |
| Ai.CreateAI | src/ai.js:66-77 | 'aggressive', 'conservative' and 'combo' give those strategies, and every other name gives the basic one |
| Ai.SelectPlay | src/ai.js:9-62 | nothing for an empty list; otherwise a member of the list: the first for the basic strategy; for the others, the earliest play with the greatest highest rank (aggressive), the least highest rank (conservative) or the greatest length (combo) |
| HumanHand.CanPass | src/HumanHand.jsx:14-20 | passing requires the human's turn, no earlier pass and a non-empty table; CanPassRules gives the full if-and-only-if, including the 3-of-clubs guard |
| HumanHand.CanPassRules | src/HumanHand.jsx:14-20 | no pass off-turn, after passing, on an empty table, or at game start while holding the 3 of clubs; in every other case (including holding the 3 of clubs after the start) passing is allowed |
| HumanHand.Unselect | src/HumanHand.jsx:35-37 | removes exactly the clicked card and keeps a repeat-free selection repeat-free |
| HumanHand.ToggleCard | src/HumanHand.jsx:27-41 | ignored off-turn or after passing; a selected card is removed; an unselected one is appended only when fewer than 5 are selected |
| HumanHand.ToggleKeepsSelectionOk | src/HumanHand.jsx:27-41 | clicks keep the selection at most five cards with none twice |
| HumanHand.ToggleTwice | src/HumanHand.jsx:27-41 | clicking a card twice, when the first click added it, restores the selection |
| HumanHand.IsValidPlay | src/HumanHand.jsx:44-47 | false for an empty selection; otherwise the table-legality of the selection, which is then a legal unit |
| HumanHand.PlaySelectedCards | src/HumanHand.jsx:50-57 | sends the selection exactly on the human's turn, not passed, with a non-empty valid selection, then clears it; otherwise sends nothing and keeps it |
| HumanHand.HandlePass | src/HumanHand.jsx:60-71 | sends the empty play exactly on the human's turn, not passed, and not at game start with the 3 of clubs, then clears the selection |
| HumanHand.HandlePassMatchesCanPass | src/HumanHand.jsx:14-71 | whenever passing is allowed the pass button sends a pass, and on a non-empty table it sends one only then |

## Left out

- Rendering: `src/Card.jsx`, the JSX of `src/App.jsx` (267-328) and of `src/HumanHand.jsx` (73-114). These are presentation only.
- The computer-turn driver in `useEffect` with its timer (`src/App.jsx:191-254`), `handleHumanMove` (257-265) and the React state hooks. These are scheduling and framework glue; `PlayMove` is the state change they trigger.
- Console debug output in `playMove`.
- `Math.random` in `shuffle`: the swap indices are a parameter (`picks[k]` is the j chosen when i = n-1-k, within 0..i).
- In-place mutation: `hand.sort` inside `classifyCombo`, `possiblePlays.sort` in the strategies, and `lastPlayer.rank = 4`, which also writes into the previous state's player object when that object was shared. Everything is a value here.
- Player names, `isHuman` and the attached strategy object. The strategies' unused `hand` and `tableCards` arguments.
- Ai.HighestRank: the empty-list results -Infinity and +Infinity are modelled as -1 and 13. Every real rank index lies strictly between them, so every comparison in the strategies comes out the same.
- Combos.CompareGroupRanks: when no rank has count 3 (or 4) in a full house (or four of a kind), `.find(...)[0]` would throw; the model returns 0 there. `CompareFiveByGroup` proves the case cannot arise for classified sets.
- Game.PlayMove: it takes any `played` cards; whether they come from the mover's hand is the caller's concern, as in the source.
- HumanHand.ToggleCard: it takes any card; the controls only offer cards of the hand.

## Findings

| source | as written | input that shows it | evidently intended | confidence | as-written member | corrected member |
|---|---|---|---|---|---|---|
| src/App.jsx:154-165 | the do-while search stops with `nextId` still equal to `startId` when the very first seat it tries is active, and the check at line 163 then replaces that hit by `activePlayers[0]` | seat 2 (the anchor) has gone out, seats 0, 1 and 3 are active, and seat 3 passes: the anchor becomes seat 0 | the anchor moves to the next active seat clockwise, seat 3, as the comment at line 148 says; the fallback is meant only for a search that finds nobody | medium, not executed | Game.ReanchorAsWritten, Game.PlayMoveAsWritten, Game.AnchorSkipsSeatAfterFinisher | Game.ReanchorClockwise, Game.PlayMove |
