# Poker solitaire: a verified model of the game core

The game deals a 6 x 8 board of cards. The player picks five cards that lie
on one row, column or diagonal, and claims them as a poker hand. A claim
scores the hand, removes its cards, lets the remaining cards fall to the
bottom of their columns, and deals as many new cards as the hand's type
awards.

This project models that core in Dafny and proves properties of the model:

- `Poker` is the hand classifier of game/game.ts: `GetHand`, `IsFlush`,
  `IsStraight` and `AdjustRankForAceAndIndex`. `Classify` is a pure function
  over the five cards, and `GetHand` and `IsStraight` are methods that sort the
  caller's array in place, as the source does.
- `HandRules` holds what the classifier means. It states which hand shapes
  classify as what, with which score, and that the result does not depend on
  the order of the cards.
- `HandExamples` checks the cases of test/TestGame.ts against those rules.
- `Columns` and `Board` are the board engine of game/game.ts. `Game` is a class
  over an `array2` of optional cards, with `StartGame` and `ClaimHand`. The
  steps of `ClaimHand` (remove, clear the new-card flags, drop, refill) are
  methods, each proved against a function on the columns.
- `MinMax` is src/better-minmax.ts: `min` and `max` with their `RangeError` on
  an empty array.
- `Selection` is the cell state machine of game/game-state.ts: the `Back` states,
  `getSelected`, `setAvailable`, `unselectAll`, the transitions of `tapCell`,
  and the state part of `updateCells`.
- `EarlyGame` is the early stub of src/game.ts, whose `GetHand` checks only the
  number of cards.

The model follows the code as written, including where it departs from what
the rules seem to intend:

- Every five of a kind scores 260, because the rank lookup searches for a
  count of 4.
- A-2-3-4-5 is a straight, and a suited one is a royal flush.
- The ranks in straights, full houses, threes and pairs are adjusted as Ace ->
  15, otherwise index + 1. Four of a kind uses index + 2.
- Two pair is scored by the pair with the larger index, so a pair of Aces
  never sets the score.
- `StartGame` lays new cards but leaves the score as it was.

## Model

| member | source | states |
|---|---|---|
| MinMax.SeqMin | src/better-minmax.ts:1-8 | the minimum of a non-empty sequence is one of its elements and no larger than any |
| MinMax.SeqMax | src/better-minmax.ts:10-17 | the maximum of a non-empty sequence is one of its elements and no smaller than any |
| MinMax.Min | src/better-minmax.ts:1-8 | fails with `RangeError("No values given")` exactly when the array is empty; otherwise returns an element of the array that is <= every element; reads the array without changing it |
| MinMax.Max | src/better-minmax.ts:10-17 | fails with `RangeError("No values given")` exactly when the array is empty; otherwise returns an element of the array that is >= every element; reads the array without changing it |
| Poker.AdjustRankForAceAndIndex | game/game.ts:131-133 | an Ace becomes 15 and no other rank does; any other rank becomes its index + 1, so results lie in 2..15 |
| Poker.IsFlush | game/game.ts:239-244 | five cards are a flush exactly when every two of them share a suit |
| Poker.SortByRank | game/game.ts:247 | the sorted hand is a permutation of the hand, ordered by rank |
| Poker.InsertByRankSorted | game/game.ts:247 | inserting a card into a hand sorted by rank keeps it sorted |
| Poker.IsStraight | game/game.ts:246-257 | sorts the caller's array in place by rank, and answers whether the sorted ranks step by one each time (or jump from Ace to 10) |
| Poker.CompareAceHigh | game/game.ts:142-146 | the comparator as written (`b1` computed from `a`) puts an Ace after every other rank and ties every other pair, Aces with Aces included |
| Poker.AceHighOrder | game/game.ts:142-146 | the sort by that comparator keeps the length and the set of ranks, moves every Ace after the other ranks, and changes nothing when there is no Ace |
| Poker.AceHighOrderPermutation | game/game.ts:142-146 | the sort is a permutation: every rank occurs as often as before |
| Poker.AceHighOrderStable | game/game.ts:142-146 | the sort is stable: the ranks other than Aces keep their relative order |
| Poker.AceHighOrderSorted | game/game.ts:142-146 | the order the comparator induces puts every Ace after every other rank |
| Poker.HighestRank | game/game.ts:142-146 | `highestRank`, element 4 of that order, is a rank the hand holds |
| Poker.FindIndex | game/game.ts:183 | `findIndex`: -1 exactly when the value is absent, otherwise the first index holding it |
| Poker.LastIndexOf | game/game.ts:216 | `lastIndexOf`: -1 exactly when the value is absent, otherwise the last index holding it |
| Poker.RankCounts | game/game.ts:149 | `qOfRank` has 14 entries, each between 0 and the number of cards |
| Poker.Decide | game/game.ts:150-234 | the first-match chain yields a valid hand exactly when some rank is counted 2 to 5 times, or the hand is a flush or a straight; a valid hand awards the new cards of its type and a positive score |
| Poker.Classify | game/game.ts:135-235 | any number of cards but five is invalid; a valid hand awards the new cards its type calls for, with a positive score |
| Poker.GetHand | game/game.ts:135-149 | returns the classification of the cards as given; leaves a five-card array sorted by rank and any other array untouched |
| Poker.MaxCount | game/game.ts:150 | `max(qOfRank)` is the largest count |
| Poker.MinPositive | game/game.ts:182 | `min` over the positive counts is the smallest positive count |
| Poker.FlushTransfer | game/game.ts:239-244 | being a flush (every suit equal to the first card's) survives any reordering of the five cards |
| Poker.ClassifyPermutation | game/game.ts:140-149 | reordering the cards does not change the classification |
| HandRules.RunShape | game/game.ts:249-255 | the walk `IsStraight` accepts is exactly five consecutive indices, or Ace, 10, J, Q, K |
| HandRules.StraightIff | game/game.ts:246-257 | a hand is a straight exactly when its ranks are five consecutive indices or Ace, 10, J, Q, K, whatever their order |
| HandRules.RepeatNotStraight | game/game.ts:251 | a hand with a repeated rank is never a straight |
| HandRules.HighestRankAceHigh | game/game.ts:142-146 | `highestRank` is the Ace when the hand holds one, otherwise the largest rank |
| HandRules.FiveOfAKindScore | game/game.ts:150-158 | the hand is five of a kind exactly when all five ranks agree, and then it scores 260 with 10 new cards whatever the rank |
| HandRules.RunScore | game/game.ts:159-205 | five consecutive ranks from r: suited and starting at the Ace, a royal flush (250, 8 cards); suited otherwise, a straight flush scoring 190 + 4 * (r + 5); unsuited, a straight scoring 53 + the adjusted top rank |
| HandRules.BroadwayScore | game/game.ts:159-205 | Ace, 10, J, Q, K is a royal flush when suited and otherwise a straight scoring 68 |
| HandRules.FourOfAKindScore | game/game.ts:173-181 | four of a kind scores 100 + 4 * (15 for Aces, otherwise index + 2) with 5 new cards, suited or not |
| HandRules.FullHouseScore | game/game.ts:182-190 | a full house scores 60 + 3 * the adjusted rank of its three, with 4 new cards |
| HandRules.ThreeOfAKindScore | game/game.ts:191-214 | three of a kind is a flush when suited, and otherwise scores 26 + 2 * the adjusted rank of the three, with 1 new card |
| HandRules.TwoPairScore | game/game.ts:215-223 | two pair is a flush when suited, and otherwise scores twice the adjusted rank of the pair with the larger index |
| HandRules.PairScore | game/game.ts:224-232 | one pair is a flush when suited, and otherwise scores the adjusted rank of the pair |
| HandRules.FlushScore | game/game.ts:191-197 | five suited cards of five different ranks that are not a straight are a flush scoring 70 with 3 new cards |
| HandRules.ValidIff | game/game.ts:148-234 | five cards are a valid hand exactly when they are a flush, a straight, or two of them share a rank |
| HandRules.PairIffMost | game/game.ts:224 | two cards share a rank exactly when `max(qOfRank)` is at least 2 |
| HandExamples.PairOfTens | test/TestGame.ts:11-17 | 10, 10, A, 9, 4 is valid: a pair of 10s scoring 10 |
| HandExamples.FiveNines | test/TestGame.ts:20-26 | five 9s are five of a kind scoring 260 with 10 new cards |
| HandExamples.RoyalClubs | test/TestGame.ts:27-33 | 10 to A of clubs is a royal flush scoring 250 with 8 new cards |
| HandExamples.StraightFlushClubs | test/TestGame.ts:34-40 | 9 to K of clubs is a straight flush scoring 242 with 6 new cards |
| HandExamples.FourNines | test/TestGame.ts:41-47 | an 8 and four 9s are four of a kind scoring 140 with 5 new cards |
| HandExamples.NinesFullOfEights | test/TestGame.ts:48-54 | two 8s and three 9s are a full house scoring 87 with 4 new cards |
| HandExamples.DiamondFlush | test/TestGame.ts:55-61 | five diamonds with a pair are a flush scoring 70 with 3 new cards |
| HandExamples.EightHighStraight | test/TestGame.ts:62-68 | 4 to 8 in two suits is a straight scoring 61 with 2 new cards |
| HandExamples.ThreeSixes | test/TestGame.ts:69-75 | 8, 2 and three 6s are three of a kind scoring 38 with 1 new card |
| HandExamples.SixesAndTwos | test/TestGame.ts:76-82 | 2, 2, 6, 6, A is two pair scoring 12, set by the 6s |
| HandExamples.PairOfTwos | test/TestGame.ts:83-89 | 2, 2, 6, 7, A is a pair scoring 2 |
| Columns.StackAppend | game/game.ts:92-103 | the cards of a column, top to bottom, are those of its upper part followed by those of its lower part |
| Columns.SettleKeepsCards | game/game.ts:92-103 | dropping a column leaves its cards contiguous at the bottom, in the same order and number |
| Columns.SettledUnique | game/game.ts:92-103 | a column settled with the same cards in the same order is the dropped column |
| Columns.SettleIdempotent | game/game.ts:92-103 | dropping a dropped column changes nothing |
| Columns.MoveDown | game/game.ts:96-100 | moving a card down into the empty cell below a run of empty cells keeps the column's cards and their order |
| Columns.PlaceOnTop | game/game.ts:116-122 | in a settled column with room, row H - count - 1 is empty, and a card placed there keeps the column settled and becomes its top card |
| Columns.StackUnmark | game/game.ts:85-90 | clearing the flags keeps a column's cards and their order, with `newCard` false |
| Board.RandInt | game/game.ts:115 | `randInt(lo, hi)` is some integer in [lo, hi) |
| Board.TotalBound | game/game.ts:117 | the board holds at most 48 cards, and fewer exactly when some column has room |
| Board.RemovedTotal | game/game.ts:83 | emptying k distinct occupied claimed cells removes exactly k cards |
| Board.DroppedTotal | game/game.ts:85-103 | clearing flags and dropping keep the number of cards |
| Board.ClaimSteps | game/game.ts:83-103 | after removing five claimed cells, clearing and dropping, every column is settled, holds the same cards in order with flags cleared, and the board has five fewer cards |
| Board.ColumnsAt | game/game.ts:114 | the columns whose count equals the lowest, in increasing order, and only those |
| Board.LowestCount | game/game.ts:113 | `min` of the column counts is one of the counts and no larger than any |
| Board.Evaluate | game/game.ts:80 | the hand of a claim is the classification of its cards |
| Board.Game.constructor | game/game.ts:259 | a new game has no cards and score 0 |
| Board.Game.StartGame | game/game.ts:67-76 | lays a fresh 6 x 8 board with every cell holding a card not marked new, and leaves the score unchanged |
| Board.Game.RemoveClaimed | game/game.ts:83 | empties exactly the claimed cells |
| Board.Game.ClearNew | game/game.ts:85-90 | clears `newCard` on every card and changes nothing else |
| Board.Game.DropColumn | game/game.ts:94-103 | the nested while-loop leaves column x dropped and the other columns as they were |
| Board.Game.Drop | game/game.ts:92-103 | every column is dropped |
| Board.Game.AddCard | game/game.ts:106-124 | picks a column of lowest count and row H - count - 1; places a new-marked card there when the row exists, otherwise changes nothing |
| Board.Game.Refill | game/game.ts:105-124 | after the refill loop every column is settled, the old cards lie under the new ones, and the board holds min(48, before + newCards) cards |
| Board.Game.Resolve | game/game.ts:83-124 | removal, clearing, drop and refill leave every column settled, its survivors (flags cleared) under any new cards, and min(48, before - 5 + newCards) cards |
| Board.Game.AddScore | game/game.ts:81 | adds the hand's score and leaves the board as it was |
| Board.Game.ClaimHand | game/game.ts:78-127 | adds the hand's score, resolves the board as `Resolve` states with the hand's new-card count, and reports one hand event carrying the hand |
| Selection.Refreshed | game/game-state.ts:438-484 | a cell without a card is `None`; a cell with a card is never `None` and otherwise keeps its state |
| Selection.Unselected | game/game-state.ts:425-434 | `unselectAll` makes a cell `Available` exactly when it holds a card and `None` exactly when it does not |
| Selection.SelectionHas | game/game-state.ts:165-175 | `getSelected` holds exactly the cells in state `Selected` or `Ready` |
| Selection.SelectionOrdered | game/game-state.ts:165-175 | `getSelected` lists cells on the board, ordered by x and then by y, without repeats |
| Selection.Near | game/game-state.ts:199-200 | the loops over `ix` and `iy` visit, around a cell on the board, exactly the cells of its 3 x 3 square that lie on the board |
| Selection.EndsFrom | game/game-state.ts:224-247 | each end the four direction cases pick lies outside the rectangle spanned by the selection's extreme coordinates |
| Selection.Ends | game/game-state.ts:219-247 | the ends `setAvailable` opens for two or more selected cells are never cells of the selection |
| Selection.NextBack | game/game-state.ts:178-251 | the state `setAvailable` leaves in a cell: it never judges a cell `Ready` or `Invalid`, only the one selected cell becomes `Selected`, and with five selected no cell is `Available` |
| Selection.GameState.GetSelected | game/game-state.ts:165-175 | the nested scan returns the selection, in scan order |
| Selection.FiveLocks | game/game-state.ts:180-187 | with five selected, every `Available` cell becomes `Unavailable` and no other state changes |
| Selection.NoneUnselects | game/game-state.ts:188-189 | with none selected, a cell holding a card becomes `Available` and an empty one `None` |
| Selection.OneOpensSquare | game/game-state.ts:190-209 | with one selected, the `Available` cells afterwards are exactly those of its board-clamped 3 x 3 square that were `Unavailable` or `Available`; the selected cell stays `Selected` |
| Selection.ManyOpensEnds | game/game-state.ts:210-248 | with two to four selected, a cell is `Available` afterwards exactly when it is one of the (at most two) ends past the line, and the ends lie on the board |
| Selection.EndsBounded | game/game-state.ts:226-247 | every cell `setAvailable` opens past the ends of a line lies on the board |
| Selection.GameState.LockAll | game/game-state.ts:181-187 | every `Available` cell becomes `Unavailable`, others unchanged |
| Selection.GameState.OpenSquare | game/game-state.ts:199-206 | cells of the clamped square that were `Unavailable` or `Available` become `Available`, all others unchanged |
| Selection.GameState.Bounds | game/game-state.ts:222-225 | `min` and `max` of the selection's coordinates |
| Selection.GameState.OpenEnds | game/game-state.ts:226-247 | exactly the end cells become `Available` |
| Selection.GameState.OpenAround | game/game-state.ts:190-209 | the one-selected branch moves every cell to its `setAvailable` state |
| Selection.GameState.OpenLine | game/game-state.ts:210-248 | the line branch moves every cell to its `setAvailable` state |
| Selection.GameState.SetAvailable | game/game-state.ts:178-251 | every cell moves to the state the rules above give it, for the selection before the call |
| Selection.GameState.UnselectAll | game/game-state.ts:425-436 | a cell showing a card becomes `Available`, an empty one `None` |
| Selection.GameState.UpdateCells | game/game-state.ts:438-484 | each cell takes the board's current card; a card cell in `None` becomes `Available`, an empty cell `None`; the cells then show the board |
| Selection.GameState.Judge | game/game-state.ts:287-294 | every `Selected` cell becomes `Ready` for a valid hand and `Invalid` otherwise; other cells unchanged |
| Selection.GameState.JudgeSelection | game/game-state.ts:284-286 | `GetHand` on the cards of the selected cells that hold one |
| Selection.TapSelects | game/game-state.ts:276-295 | tapping an `Available` cell puts it in the selection; alone it is `Selected`, and as the fifth it is `Ready` for a valid hand and `Invalid` otherwise |
| Selection.FiveJudged | game/game-state.ts:284-294 | when a tap makes five, every `Selected` cell is judged alike and no cell is left `Available` or `Selected` |
| Selection.GameState.SelectCell | game/game-state.ts:276-306 | tapping an `Available` cell selects it, applies `setAvailable` to the new selection and, at five, judges it |
| Selection.ClaimsCards | game/game-state.ts:323 | the cards of the claims are the cards `GetHand` judged |
| Selection.ReadyClaimable | game/game-state.ts:322-323 | the claims of a selection shown on the board are in bounds, distinct and occupied |
| Selection.GameState.SelectionClaims | game/game-state.ts:322-323 | the claims built from the selection are the selected positions with their cards, and `ClaimHand` accepts them |
| Selection.GameState.ClaimSelection | game/game-state.ts:320-339 | tapping a `Ready` cell claims exactly the selected cells, adds the hand's score, and unselects every cell |
| Selection.GameState.TapCell | game/game-state.ts:274-343 | per tapped state: `Available` selects; `Ready` claims the selection and scores it; every other state unselects all; the cells then show the board |
| Selection.GameState.constructor | game/game-state.ts:549-563 | a new game with a dealt board and score 0, every cell showing its card and `Available` |
| EarlyGame.GetHand | src/game.ts:49-54 | valid exactly for five cards; never carries a hand type or a score |
| EarlyGame.LengthOnly | src/game.ts:49-54 | the result depends only on the number of cards |
| EarlyGame.EmptyRejected | test/test1.ts:6-9 | no cards is invalid |
| EarlyGame.PairOfTensAccepted | test/test1.ts:10-17 | 10, 10, A, 9, 4 is valid |

## Left out

- Rendering, sound, screen-reader text, pointer hit-testing and the hand animation in game/game-state.ts are PIXI and DOM calls with nothing to state about the game.
- The screen framework (src/state.ts, the title, help and game-over screens), bootstrap, build and deploy scripts are not part of this model.
- src/game-state.ts is not part of this model: it targets a `Game` API that src/game.ts does not define.
- `randInt` from `./better-rand` is not part of this model; `Board.RandInt` is an arbitrary choice in [lo, hi), so dealing and the tie-break between lowest columns are nondeterministic.
- game/better-minmax.ts and game/better-rand.ts are not part of this model; `min` and `max` are assumed to be those of src/better-minmax.ts.
- Board.Game.ClaimHand: requires a valid hand and five distinct, in-bounds, occupied claims, because on an invalid hand the source adds `undefined` to the score and the score becomes NaN.
- Board.Game.ClaimHand: the `OnGameEvent` callback is not a field; the one event it receives is returned instead.
- Board.Game.Refill: states the settling, the count and that kept cards stay under new ones; which column each new card lands in is stated per step by `Board.Game.AddCard`, not for the loop as a whole.
- Cards are values: the source's card objects are shared between the board and the cells' snapshots, so clearing `newCard` also changes the snapshot; the `newCard` flag is read only from the board (game/game-state.ts:328-329 and 461), never from a snapshot card, whose suit and rank never change, so no state differs.
- Selection.GameState.TapCell: tapping a `Ready` cell requires that every selected cell shows a card and that those cards make a valid hand, which the source's own flow guarantees but the model does not prove as a class invariant.
- Selection.GameState.TapCell: the `newCard` text and the provisional and final score displays are left out.
- `Back.NewCard` is a sprite index that is never stored in a cell, so `Back` has no such state.
- Sprite rebuilding in `updateCells` is left out; only its state normalisation and the card snapshot are modelled.
- The JavaScript sort is assumed stable (as the language has required since 2019), which fixes `highestRank` as the last element of the comparator's order.
- Numbers are unbounded integers; every value the core computes is a small integer, so floating point never matters.
