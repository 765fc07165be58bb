# Knucklebones rules engine in Dafny

This project models the rules engine of the Knucklebones prototype:
- the shared `GameState` object;
- the handlers in `GameView.swift` that change that object.

The player and a computer opponent each own a 3×3 board. A board's rows fill from the bottom, so a column always holds its dice packed at the bottom.

A turn works like this:
1. The player rolls a die.
2. The player taps a column with room left, and the die lands in the lowest empty cell.
3. Every opponent die of the same face in that column is destroyed, and the dice above it fall.
4. Both boards' scores for that column are recomputed.
5. If the player's top row is now full, the game is decided. Otherwise the opponent rolls and drops its die the same way, into a column chosen by its difficulty setting.

A column scores each die as its face times the number of dice of that face in the column. The player wins only with a strictly greater total, so a tie goes to the opponent.

Modules:
- `Scoring` (scoring.dfy): `calculateColSum` and the score totals.
- `Columns` (columns.dfy): a single column as a sequence of cells, bottom row first:
  - the gravity invariant `Packed`;
  - what placing a die does (`Placed`);
  - what destroying a face does (`Collapsed`);
  - the source's own removal loops written out as functions (`PassFrom`, `Zeroed`, `DeferredFrom`);
  - proofs that those loops agree with `Collapsed`;
  - how each operation changes the score.
- `Board` (board.dfy): the boards as `seq<seq<int>>` values indexed `[row][col]`, with the column-level methods of the handlers: `addDieToCol`, the opponent's placement chain, the removal passes and the search for open columns.
- `Policy` (policy.dfy): how the opponent chooses a column on Easy and on Hard.
- `Game` (game.dfy):
  - the snapshot datatype `State` and its invariant `Inv`;
  - the value-level turns `Tap` and `OpponentMove`, each specified by a predicate (`Tapped`, `Dropped`) that says what the turn does to every field;
  - the class `GameState`, whose handler methods run on the object's fields and keep `Valid()`.

## Model

| member | source | states |
|---|---|---|
| Scoring.ColScoreIsCellwise | Knucklebones_Prototype/GameView.swift:257-275 | The if-chain of `calculateColSum` equals the sum, over the three cells, of the cell's value times the number of cells of that value. So a pair scores 4× its face and a triple 9×. |
| Scoring.ColScoreOrderFree | Knucklebones_Prototype/GameView.swift:257-275 | Two columns holding the same cells in any order score the same. |
| Scoring.SingleDieScore | Knucklebones_Prototype/GameView.swift:257-275 | A column holding a single die, in any row, scores that die's face. |
| Scoring.EmptyColumnScore | Knucklebones_Prototype/GameView.swift:257-260 | An empty column scores 0 (the all-equal branch on three empty cells). |
| Scoring.ColScoreBounds | Knucklebones_Prototype/GameView.swift:257-275 | A column of cells between 0 and 6 never scores below the plain sum of its cells, and never above 54, the score of three sixes. |
| Scoring.TotalUpdate | Knucklebones_Prototype/GameView.swift:379 | Replacing one column score changes the `reduce(0, +)` total by exactly the difference. |
| Columns.PlacedStacks | Knucklebones_Prototype/GameView.swift:196-203 | Placing a die in a packed column with room keeps the column packed. Its dice become the old dice with the new die on top. |
| Columns.PlacedAt | Knucklebones_Prototype/GameView.swift:196-203 | The die is written into the lowest empty row, which is the first row the loop finds empty, and the column stays packed. |
| Columns.PlacedFull | Knucklebones_Prototype/GameView.swift:196-203 | On a full column the loop writes nothing. |
| Columns.CollapsedProperties | Knucklebones_Prototype/GameView.swift:342-360 | After destroying face `v`, the column keeps its height and stays packed. It holds exactly the other dice in their old order, no die of face `v`, and no value it did not hold before. |
| Columns.CollapsedTop | Knucklebones_Prototype/GameView.swift:342-360 | A destruction never fills an empty top cell. |
| Columns.RemovalPassCollapses | Knucklebones_Prototype/GameView.swift:342-360 | On every packed column, the opponent's top-down removal pass with its two shift rules ends exactly in the collapsed column. |
| Columns.DeferredCollapseAgrees | Knucklebones_Prototype/GameView.swift:531-548 | The player's two-phase removal ends in the same column as the opponent's one-pass removal. It zeroes every match at once, then runs the delayed shifts in the order they were scheduled. |
| Columns.ZeroedScoresAsCollapsed | Knucklebones_Prototype/GameView.swift:531-564 | The zeroed, not yet shifted column scores what the settled column scores. So the score the tap handler writes before the shifts run is already final. |
| Columns.PlaceGain | Knucklebones_Prototype/GameView.swift:560-561 | Placing a die of face `v` in a column that holds `m` dice of that face raises the column score by `v·(2m+1)`. |
| Columns.DestroyCost | Knucklebones_Prototype/GameView.swift:563-564 | Destroying the `m` dice of face `v` in a column lowers its score by `v·m·m`. |
| Board.EmptyBoardScored | Knucklebones_Prototype/ContentView.swift:11-16 | The initial all-zero board is well formed, its scores `[0, 0, 0]` match its columns, and all three columns are open. |
| Board.OpenColumns | Knucklebones_Prototype/GameView.swift:292-297 | The open columns are exactly those whose top cell is empty, listed in increasing order. There are none iff the top row is full. |
| Board.PossibleCols | Knucklebones_Prototype/GameView.swift:292-297 | Removing each column with a full top from `[0, 1, 2]` leaves exactly `OpenColumns`. |
| Board.SearchColumns | Knucklebones_Prototype/GameView.swift:306-323 | A Hard-mode search loop returns the first listed column whose cells hold the roll. With no such column, it leaves `dieCol` as it was. |
| Board.AddDieToCol | Knucklebones_Prototype/GameView.swift:196-203 | The tapped column becomes the placed column, and every other cell is unchanged. The board stays well formed. |
| Board.PlaceOpponentDie | Knucklebones_Prototype/GameView.swift:330-339 | The if-chain places the die iff the column's top cell is empty, and the column becomes the placed column. The error branch writes nothing. |
| Board.RemoveMatches | Knucklebones_Prototype/GameView.swift:342-360 | The removal pass turns the target column into the collapsed column and leaves every other cell as it was. The board stays well formed. |
| Board.ZeroMatches | Knucklebones_Prototype/GameView.swift:531-535 | The zeroing loop clears exactly the cells of the tapped column that hold the player's face. |
| Board.ShiftDeferred | Knucklebones_Prototype/GameView.swift:536-548 | Running the scheduled shifts, row 2 first, produces the deferred-shift column and touches no other column. |
| Board.TwoPhaseRemoval | Knucklebones_Prototype/GameView.swift:531-548 | For every packed column and face, the two-phase removal scores and ends like the collapse. |
| Board.DeferredShiftSettles | Knucklebones_Prototype/GameView.swift:531-564 | After the delayed shifts, the opponent's board is well formed and its column is the collapsed column. The score written for the zeroed column matches the settled board, and the top row can only have emptied. |
| Board.CollapseKeepsTopOpen | Knucklebones_Prototype/GameView.swift:342-360 | A board whose top row was not full still has an open top cell after a removal pass. |
| Board.RescoredColumn | Knucklebones_Prototype/GameView.swift:363-368 | Writing the recomputed score of the one changed column brings the whole score array back in step with the board. |
| Board.OtherScoresKept | Knucklebones_Prototype/GameView.swift:363-368 | Between two scored boards that differ in one column, only that column's score differs. |
| Board.PlacementScores | Knucklebones_Prototype/GameView.swift:560-561 | A placement raises the board's total by `v·(2m+1)`, where `m` is the number of dice of face `v` already in the column. |
| Board.DestructionScores | Knucklebones_Prototype/GameView.swift:563-564 | A destruction lowers the board's total by `v·m·m`. |
| Policy.FirstHolding | Knucklebones_Prototype/GameView.swift:306-313 | The position found is the first listed column holding the value. Every earlier column lacks it. |
| Policy.Target | Knucklebones_Prototype/GameView.swift:298-324 | The chosen column is always one of the open columns. |
| Policy.EasyIsBlind | Knucklebones_Prototype/GameView.swift:298 | On Easy the choice ignores both boards and the roll, and every open column can be drawn. |
| Policy.HardDestroysFirst | Knucklebones_Prototype/GameView.swift:316-323 | On Hard, if any open column holds player dice of the rolled face, the opponent plays the first such column, whatever the random draw. |
| Policy.HardCombosSecond | Knucklebones_Prototype/GameView.swift:304-313 | On Hard with nothing to destroy, the opponent plays the first open column holding its own dice of the rolled face. |
| Policy.HardFallsBackToRandom | Knucklebones_Prototype/GameView.swift:298-324 | On Hard with nothing to destroy or join, the random draw stands. |
| Game.Verdict | Knucklebones_Prototype/GameView.swift:571-582 | The player wins iff their total is strictly greater, so a tie goes to the opponent. |
| Game.Decide | Knucklebones_Prototype/GameView.swift:571-582 | The end-of-game block sets the winner to the verdict on the current score totals. It adds one to `gamesWon` exactly when the player wins and changes no other field. |
| Game.Rescore | Knucklebones_Prototype/GameView.swift:560-564 | Rewriting column `col`'s score on both boards brings both score arrays back in step with their boards whenever only that column's scores were stale. No other field changes. |
| Game.Tap | Knucklebones_Prototype/GameView.swift:528-582 | An accepted tap keeps the game invariant and does everything `Tapped` lists. The die lands in the tapped column. The opponent's dice of that face there are destroyed and the rest fall. Nothing else on either board moves. The turn ends. The game is decided exactly when the player's top row is full, with the verdict on the new totals and a win counted only for the player. |
| Game.OpponentMove | Knucklebones_Prototype/GameView.swift:326-395 | The opponent's drop keeps the game invariant and does everything `Dropped` lists. The die lands in the chosen column. The player's dice of that face there are destroyed and the rest fall. The game is decided exactly when the opponent's top row is full. Otherwise the turn returns to the player with the opponent's roll cleared. |
| Game.GameState.constructor | Knucklebones_Prototype/ContentView.swift:10-27 | A new state has empty boards and zero scores, no pending rolls, the player to move, Easy difficulty, zeroed statistics and no winner. It satisfies the invariant. |
| Game.GameState.RollDie | Knucklebones_Prototype/GameView.swift:183-191 | An opponent roll only sets `p2roll`. A player roll sets `p1roll` and increments exactly that face's counter, so the histogram total grows by one. |
| Game.GameState.RollTapped | Knucklebones_Prototype/GameView.swift:171-174 | The roll button rolls iff it is the player's turn and no roll is pending. A roll sets `p1roll` and raises exactly the rolled face's counter by one, so no counter ever drops. Otherwise nothing changes. |
| Game.GameState.ChooseColumn | Knucklebones_Prototype/GameView.swift:298-324 | The column chosen by the random draw and the Hard-mode loops is `Target` of the current boards. It is an open column of the opponent's board. |
| Game.GameState.OpponentTurn | Knucklebones_Prototype/GameView.swift:289-397 | On the opponent's turn of an undecided game, the chosen column is `Target` of the boards before the move. The object ends as `Dropped` describes for the fresh roll, and `Valid()` is kept. |
| Game.GameState.PlayerTap | Knucklebones_Prototype/GameView.swift:519-582 | A tap is accepted iff a roll is pending and the column's top cell is empty. A refused tap changes nothing. An accepted one ends as `Tapped` describes. |
| Game.GameState.TapGesture | Knucklebones_Prototype/GameView.swift:519-588 | A tap is accepted iff a roll is pending and the column has room; a refused tap changes nothing. An accepted tap first reaches the state `mid`, which is `Tapped` from the old state. If that decides the game, `mid` is final. Otherwise the opponent's turn follows, and the final state is `Dropped` from `mid` with the opponent's roll, in an open column `dieCol`. After the reply, the game is decided iff the opponent's board is full, and an undecided game is back on the player's turn with both rolls cleared. The roll histogram, `gamesPlayed` and the difficulty are untouched. |
| Game.GameState.ResetGame | Knucklebones_Prototype/GameView.swift:402-429 | The boards, scores, rolls and winner are reset and `gamesPlayed` grows by one. `gamesWon`, the roll histogram and the difficulty are kept. `gameInProgress` is cleared unless the player plays again. |
| Game.GameState.TwoInCol | Knucklebones_Prototype/GameView.swift:217-235 | The nested loops answer true iff `num` is non-zero and occurs at least twice in the column. |
| Game.GameState.ThreeInCol | Knucklebones_Prototype/GameView.swift:240-252 | True iff the column holds three dice of one non-zero face. |

## Left out

- Rendering, animation, the flashing and preview cells, the opponent's sprite (`opponentAnimation`) and the `print` diagnostics are not modelled. They change nothing the rules read.
- The delays (`DispatchQueue.main.asyncAfter`) are modelled as if each handler ran to completion in order. For the player's removal, the shifts scheduled with a delay run after the rescoring and verdict of the same tap. `Board.DeferredShiftSettles` shows that the score already written is the final one.
- Randomness is passed in as parameters. `Int.random(in: 1 ... 6)` becomes the parameter `randomRoll`, or `opponentRoll` for the opponent. `randomElement()` becomes the index `pick % |possible|`.
- Game.GameState.OpponentTurn: requires an undecided game on the opponent's turn, so the defensive `return` at lines 298-301 is not modelled. Under the invariant, an undecided game leaves the opponent an open column, and the handler is only scheduled when the player's move did not end the game.
- The difficulty is the enumeration `Difficulty` rather than the strings `"Easy"`/`"Hard"`. Any string other than `"Hard"` behaves as Easy in the source.
- `winner` is not declared among the published fields of `GameState` in ContentView.swift. It is modelled as an optional `WinnerType`, with `nil` as `None`.
- Boards are Swift arrays, which are values. They are modelled as `seq<seq<int>>` values that the handlers replace, not as shared mutable arrays.
- The landing screen, the difficulty dialog that sets `gameInProgress` and `gameDifficulty`, and the statistics and rules screens (StatsView.swift, RulesView.swift) are not part of this model.
- Hard mode: the comment at line 305 says combos come first, but the destroy loop at lines 316-323 runs second and overwrites `dieCol`. The model follows the code: destroy first, then combo, then the random draw.
- When the opponent's move ends the game, the source leaves `p2roll` set; only the other branch clears it. The model keeps that behaviour.
