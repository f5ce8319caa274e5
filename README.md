# Game rules of noahs-spil, modelled in Dafny

This project models the discrete rules inside four of the browser games of
the `noahs-spil` collection. Rendering, networking, storage and timers are
left out. Everything else is stated as Dafny functions over values, or as
classes whose methods change their fields in place, just as the scripts
change their globals.

- **KrydsOgBolle** (tic-tac-toe against a bot). The model covers:
  - the 9-cell board, the eight winning lines, the winner check and the line-count heuristic
    (`tictactoe_board.dfy`, module `TicTacToeBoard`);
  - the full-depth minimax of the classic mode and `findBestMove` (`tictactoe_classic.dfy`, `ClassicSearch`);
  - the depth-4 alpha-beta search of the three-piece mode, its unpruned reference, and `findBestBotMove`
    (`tictactoe_movement.dfy`, `MovementSearch`);
  - the game flow as transitions on a `State` value (`tictactoe_rules.dfy`, `TicTacToeRules`):
    clicks, drags and drops, `movePiece`, `checkResult`, the two bot turns and the placement-to-movement
    phase switch;
  - the class `TicTacToe.Game` (`tictactoe_game.dfy`), which holds the board in an `array` and searches it
    in place, by placing a trial mark and undoing it.
- **Snake**. The model covers toroidal head movement, the collision rule, growth over time, the no-reverse
  rule, the bot's choice of a safe direction and the top-10 highscore list. `SnakeRules` (`snake.dfy`)
  states these over values; the class `Snake.SnakeGame` (`snake_game.dfy`) changes the snakes in place.
- **StarRunner**. The model covers the recursive-backtracker `MazeGenerator` and the cell picking and world
  mapping around it (`maze.dfy`, module `Maze`). It also covers the star score and the lava penalty
  (`starrunner_score.dfy`, `StarScore`).
- **StarMap**. The model covers constellation tracking (`starmap.dfy`, `StarMap`):
  - normalised line ids;
  - the required and completed lines of each constellation;
  - line validation;
  - completion and the found list;
  - the star-click state machine;
  - reset.

`Math.random` and `Date.now` enter as parameters: a boolean for each
"random below p" draw, a natural number for each random index, and the
elapsed milliseconds. The sentinels `-Infinity` and `Infinity` of the
searches are the integers -1000 and 1000; every real score lies strictly
between them.

## Model

| member | source | states |
|---|---|---|
| TicTacToeBoard.WinLine | KrydsOgBolle/script.js:19-29 | each of the eight winning lines is three distinct cells of the board |
| TicTacToeBoard.CheckWinner | KrydsOgBolle/script.js:569-577 | the winner is the mark on the first of the eight lines whose three cells are equal and non-empty; there is no winner exactly when no line is won |
| TicTacToeBoard.WinnerFromFirst | KrydsOgBolle/script.js:569-577 | the scan from line k finds nothing exactly when no line from k on is won, and otherwise returns the owner of the first won line |
| TicTacToeBoard.EvaluateBoard | KrydsOgBolle/script.js:479-501 | the heuristic lies in [-26, 26] |
| TicTacToeBoard.LineScoresFrom | KrydsOgBolle/script.js:482-494 | the line scores of lines k..7 add up to at most 3 per line in either direction |
| TicTacToeBoard.LineScore | KrydsOgBolle/script.js:483-493 | the score of one line: +3/-3 for two of a side and an empty cell, +1/-1 for one of a side and two empty cells; `LineScoreSwap` states that exchanging X and O negates it |
| TicTacToeBoard.Swap | KrydsOgBolle/script.js:479-501 | the board with X and O exchanged, cell by cell |
| TicTacToeBoard.LineScoreSwap | KrydsOgBolle/script.js:483-493 | exchanging X and O negates the score of one line |
| TicTacToeBoard.LineScoresSwap | KrydsOgBolle/script.js:482-494 | exchanging X and O negates the sum of the line scores |
| TicTacToeBoard.EvaluateSwap | KrydsOgBolle/script.js:479-501 | exchanging X and O negates `evaluateBoard` |
| TicTacToeBoard.WinnerSwap | KrydsOgBolle/script.js:569-577 | exchanging X and O exchanges the winner |
| TicTacToeBoard.IndicesBelow | KrydsOgBolle/script.js:382-385 | the cell scan lists only cells below n that hold the mark |
| TicTacToeBoard.IndicesBelowComplete | KrydsOgBolle/script.js:382-385 | the cell scan misses no cell that holds the mark |
| TicTacToeBoard.IndicesBelowAscending | KrydsOgBolle/script.js:382-385 | the cell scan lists its cells in strictly ascending order |
| TicTacToeBoard.Indices | KrydsOgBolle/script.js:382-385 | the positions list holds only cells with the mark |
| TicTacToeBoard.IndicesComplete | KrydsOgBolle/script.js:382-385 | a cell is in the positions list exactly when it holds the mark |
| TicTacToeBoard.IndicesAscending | KrydsOgBolle/script.js:382-385 | the positions list is strictly ascending, the order the loops try moves in |
| TicTacToeBoard.PlaceReducesEmpty | KrydsOgBolle/script.js:545-549 | a trial placement takes exactly one empty cell, so the search terminates |
| TicTacToeBoard.Relocate | KrydsOgBolle/script.js:247-259 | the target gets the source's mark, the source is emptied unless it is the target, and every other cell keeps its mark |
| TicTacToeBoard.RelocateMoves | KrydsOgBolle/script.js:247-259 | moving a piece puts its mark on the target, empties the source, leaves every other cell alone and keeps each side's piece count |
| ClassicSearch.Minimax | KrydsOgBolle/script.js:536-566 | `minimax`: 10 - depth on a bot win, depth - 10 on a human win, 0 on a full board, else the best child score for the side to move; `MinimaxRange` states its bounds |
| ClassicSearch.BestFrom | KrydsOgBolle/script.js:543-565 | the loop over the empty cells of one `minimax` call, keeping the better score; `BestFromWithin` states that it stays in any range its children respect |
| ClassicSearch.MinimaxRange | KrydsOgBolle/script.js:536-566 | every minimax score at depth d lies in [d-10, 10-d], and in [d-9, 9-d] when nobody has won and a cell is empty |
| ClassicSearch.BestFromWithin | KrydsOgBolle/script.js:543-565 | folding child scores that lie in a range keeps the best score in that range |
| ClassicSearch.TopScoreTen | KrydsOgBolle/script.js:536-541 | after the bot's move the reply search scores at most 10, and exactly 10 when the bot has already won |
| ClassicSearch.PlacementScoreTen | KrydsOgBolle/script.js:515-533 | a placement scores the maximum, 10, exactly when it wins at once |
| ClassicSearch.ImmediateWinChosen | KrydsOgBolle/script.js:515-533 | when some placement wins at once, `findBestMove` picks the lowest-index winning cell |
| ClassicSearch.PlacementsStep | KrydsOgBolle/script.js:519-530 | one step of the scan keeps the best placement so far, replacing it only on a strictly greater score |
| ClassicSearch.PlacementsDone | KrydsOgBolle/script.js:515-533 | the finished scan returns -1 exactly on a full board, and otherwise an empty cell with maximal score and ties going to the lowest index |
| MovementSearch.ABRowStep | KrydsOgBolle/script.js:440-471 | one iteration of the inner loop of `minimaxMovement` narrows the window and leaves the loop once beta <= alpha |
| MovementSearch.ABRowsStep | KrydsOgBolle/script.js:439-473 | one iteration of the outer loop continues with the window the inner loop ended with, or leaves on a cut-off |
| MovementSearch.AlphaBeta | KrydsOgBolle/script.js:421-476 | `minimaxMovement` with its window: ±10 on a won line, the heuristic at depth 0, else the pruned fold over the moves; `AlphaBetaBounded` and `AlphaBetaFullWindow` state its relation to `Plain` |
| MovementSearch.Plain | KrydsOgBolle/script.js:421-476 | the same search without pruning, the reference for `AlphaBeta`; `PlainRange` states that it stays within the sentinels |
| MovementSearch.MoveScore | KrydsOgBolle/script.js:393-401 | the score `findBestBotMove` gives a bot move; `MoveScoreIsMinimax` states that it is the unpruned depth-4 value |
| MovementSearch.PlainRowImproves | KrydsOgBolle/script.js:421-476 | the unpruned inner fold never makes the running score worse for the side to move |
| MovementSearch.PlainRowsImproves | KrydsOgBolle/script.js:421-476 | the unpruned outer fold never makes the running score worse for the side to move |
| MovementSearch.AlphaBetaBounded | KrydsOgBolle/script.js:421-476 | for any window within the sentinels, the pruned value equals the unpruned one when that lies strictly inside the window; at or below alpha the pruned value lies between the unpruned one and alpha, and at or above beta between beta and the unpruned one |
| MovementSearch.MaxRowBounded | KrydsOgBolle/script.js:437-455 | the maximizing inner loop either cuts off at a value at least beta, or keeps the window invariant |
| MovementSearch.MaxRowsBounded | KrydsOgBolle/script.js:437-455 | the maximizing loops bound the pruned value by the unpruned one |
| MovementSearch.MinRowBounded | KrydsOgBolle/script.js:456-475 | the minimizing inner loop either cuts off at a value at most alpha, or keeps the window invariant |
| MovementSearch.MinRowsBounded | KrydsOgBolle/script.js:456-475 | the minimizing loops bound the pruned value by the unpruned one |
| MovementSearch.PlainRange | KrydsOgBolle/script.js:421-476 | every unpruned score lies within the two sentinels |
| MovementSearch.PlainRowsRange | KrydsOgBolle/script.js:437-475 | the unpruned outer fold stays within the sentinels |
| MovementSearch.PlainRowRange | KrydsOgBolle/script.js:440-471 | the unpruned inner fold stays within the sentinels |
| MovementSearch.AlphaBetaFullWindow | KrydsOgBolle/script.js:421-476 | called with the full window, as `findBestBotMove` calls it, alpha-beta returns exactly the unpruned depth-limited minimax value |
| MovementSearch.MoveScoreIsMinimax | KrydsOgBolle/script.js:393-401 | every bot move is scored with the unpruned depth-4 minimax value of the position it leads to, within the sentinels |
| MovementSearch.BestSoFarStep | KrydsOgBolle/script.js:403-406 | trying one more move keeps it only on a strictly greater score and keeps the scan invariant |
| MovementSearch.TriedFromStep | KrydsOgBolle/script.js:391-408 | finishing the targets of one more source cell extends the set of tried moves to that source |
| MovementSearch.TriedFromAll | KrydsOgBolle/script.js:379-408 | after all bot cells and all empty cells, every legal bot move has been tried |
| MovementSearch.BestSoFarComplete | KrydsOgBolle/script.js:378-418 | once every legal move is tried, the kept move is a best one: no move if none scores above -Infinity, and otherwise a legal move with maximal score that beats every move tried before it |
| TicTacToeRules.RandomMove | KrydsOgBolle/script.js:504-512 | the random move is an empty cell, and there is one exactly when the board has an empty cell |
| TicTacToeRules.Started | KrydsOgBolle/script.js:51-65 | starting a game records the mode and changes nothing else |
| TicTacToeRules.Checked | KrydsOgBolle/script.js:580-631 | the game ends exactly on a won line or a full board in classic mode; the player switches exactly when the game goes on in classic mode; a draw only happens in classic mode on a full board; nothing else changes |
| TicTacToeRules.MovedPiece | KrydsOgBolle/script.js:247-278 | a move relocates the mark, clears the selection and keeps the mode, phase and counters |
| TicTacToeRules.ClassicClick | KrydsOgBolle/script.js:101-114 | a click on an occupied cell is ignored; on an empty cell the current player's mark goes there, the game ends exactly on a won line or a full board, the turn passes exactly when it goes on, and nothing else changes |
| TicTacToeRules.ThreePieceClick | KrydsOgBolle/script.js:117-156 | in the placement phase an occupied cell is ignored; an empty one gets the mark and the human's counter goes up; unless the game ends the bot is to move, and the phase becomes movement exactly when both counters have reached three. In the movement phase a human piece is selected, an empty cell with a selection is `MovedPiece`, and anything else is ignored |
| TicTacToeRules.CellClick | KrydsOgBolle/script.js:85-98 | a click is ignored when the game is over or on the bot's turn |
| TicTacToeRules.DragStarted | KrydsOgBolle/script.js:185-201 | a drag changes only the selection, and only to a human piece |
| TicTacToeRules.Dropped | KrydsOgBolle/script.js:225-235 | a drop from a human piece onto an empty cell is `MovedPiece`; any other drop changes nothing |
| TicTacToeRules.BotPlaced | KrydsOgBolle/script.js:296-312 | nothing happens once the game is over or without a cell; otherwise the mark goes on the chosen cell, the game ends exactly on a won line or (classic) a full board, the turn passes exactly when it goes on, and nothing else changes |
| TicTacToeRules.BotTurn | KrydsOgBolle/script.js:315-375 | nothing happens once the game is over or without a move. A placement puts the mark on the cell and raises the bot's counter; unless the game ends the human is to move and the phase becomes movement exactly when both counters have reached three. A movement relocates the bot piece and, unless the game ends, hands the turn to the human; counters, phase and selection stay |
| TicTacToeRules.PlaceCounts | KrydsOgBolle/script.js:123-124 | a placement adds one piece of the mover and changes no other count |
| TicTacToeRules.InitialConsistent | KrydsOgBolle/script.js:2-16 | the initial state satisfies the piece bookkeeping |
| TicTacToeRules.StartedConsistent | KrydsOgBolle/script.js:51-65 | choosing a mode keeps the bookkeeping |
| TicTacToeRules.MovedPieceConsistent | KrydsOgBolle/script.js:247-278 | a move keeps both piece counts |
| TicTacToeRules.CellClickConsistent | KrydsOgBolle/script.js:85-156 | every click keeps the bookkeeping; the human never has more than three pieces in the three-piece mode |
| TicTacToeRules.DroppedConsistent | KrydsOgBolle/script.js:225-235 | every drop in the movement phase keeps the bookkeeping |
| TicTacToeRules.DragStartedConsistent | KrydsOgBolle/script.js:185-201 | a drag keeps the bookkeeping |
| TicTacToeRules.BotPlacedConsistent | KrydsOgBolle/script.js:296-312 | the classic bot move keeps the bookkeeping |
| TicTacToeRules.BotTurnConsistent | KrydsOgBolle/script.js:315-375 | the three-piece bot turn keeps the bookkeeping; the bot never has more than three pieces, and the movement phase starts with three pieces each |
| TicTacToeRules.BotPlacementConsistent | KrydsOgBolle/script.js:330-346 | a bot placement keeps the bookkeeping and switches phase after three pieces each |
| TicTacToeRules.BotMovementConsistent | KrydsOgBolle/script.js:349-374 | a legal bot move keeps the bookkeeping |
| TicTacToeRules.MovementThreeEach | KrydsOgBolle/script.js:334-342 | in the movement phase each side has exactly three pieces and three cells are empty |
| TicTacToeRules.MarkTotal | KrydsOgBolle/script.js:2 | the counts of the three marks add up to the number of cells |
| TicTacToe.Game.constructor | KrydsOgBolle/script.js:2-16 | the initial state |
| TicTacToe.Game.StartGame | KrydsOgBolle/script.js:51-65 | the new state is `Started` of the old one |
| TicTacToe.Game.Minimax | KrydsOgBolle/script.js:536-566 | the board is restored and the score is the classic minimax value of the board it was called on |
| TicTacToe.Game.FindBestMove | KrydsOgBolle/script.js:515-533 | the board is restored and the result is the best placement: -1 exactly on a full board, else an empty cell of maximal score, ties to the lowest index |
| TicTacToe.Game.TryPlacement | KrydsOgBolle/script.js:520-523 | placing, scoring and undoing restores the board and yields the placement's score |
| TicTacToe.Game.Positions | KrydsOgBolle/script.js:428-435 | the two scans list the mover's cells and the empty cells in ascending order |
| TicTacToe.Game.MinimaxMovement | KrydsOgBolle/script.js:421-476 | the board is restored; the score is the alpha-beta value: +10 or -10 on a won line with no depth discount, the heuristic at depth 0 |
| TicTacToe.Game.SearchMoves | KrydsOgBolle/script.js:437-475 | the two nested loops compute the window of the alpha-beta fold and restore the board |
| TicTacToe.Game.SearchRow | KrydsOgBolle/script.js:440-471 | the inner loop computes the window of the inner fold and restores the board |
| TicTacToe.Game.TryMove | KrydsOgBolle/script.js:441-447 | moving, searching and moving back restores the board and yields the child's alpha-beta value |
| TicTacToe.Game.TryTargets | KrydsOgBolle/script.js:392-407 | the inner loop of `findBestBotMove` restores the board, keeps the best-so-far invariant and tries exactly the moves from one source |
| TicTacToe.Game.FindBestBotMove | KrydsOgBolle/script.js:378-418 | the board is restored, every returned move (random or not) is legal, and without the random draw the move is the best one |
| TicTacToe.Game.ScoreAllMoves | KrydsOgBolle/script.js:387-408 | the nested loops restore the board and return the best move |
| TicTacToe.Game.CheckResult | KrydsOgBolle/script.js:580-631 | the result is whether the game ended, and the new state is `Checked` of the old one |
| TicTacToe.Game.MovePiece | KrydsOgBolle/script.js:247-278 | the new state is `MovedPiece` of the old one |
| TicTacToe.Game.HandleCellClick | KrydsOgBolle/script.js:85-98 | the new state is `CellClick` of the old one |
| TicTacToe.Game.HandleClassicClick | KrydsOgBolle/script.js:101-114 | the new state is `ClassicClick` of the old one |
| TicTacToe.Game.HandleThreePieceClick | KrydsOgBolle/script.js:117-156 | the new state is `ThreePieceClick` of the old one |
| TicTacToe.Game.HandleDragStart | KrydsOgBolle/script.js:185-201 | the new state is `DragStarted` of the old one |
| TicTacToe.Game.HandleDrop | KrydsOgBolle/script.js:225-235 | the new state is `Dropped` of the old one |
| TicTacToe.Game.BotMove | KrydsOgBolle/script.js:296-312 | the chosen cell is empty, the new state is `BotPlaced`, nothing happens once the game is over, and without the random draw the cell is `findBestMove`'s |
| TicTacToe.Game.BotMoveThreePiece | KrydsOgBolle/script.js:315-375 | the placement is on an empty cell, the move is legal, the new state is `BotTurn`, and without the random draw each is the best one |
| TicTacToe.Game.BotPlacement | KrydsOgBolle/script.js:318-346 | the placement branch places on an empty cell and, without the random draw, on the best cell |
| TicTacToe.Game.PlaceBotMark | KrydsOgBolle/script.js:330-346 | placing, counting, checking and handing over is `BotTurn` with that placement |
| TicTacToe.Game.BotMovement | KrydsOgBolle/script.js:347-374 | the movement branch makes a legal move, the best one without the random draw |
| TicTacToe.Game.RestartGame | KrydsOgBolle/script.js:649-678 | back to the initial state on a fresh board |
| SnakeRules.NextHead | Snake/script.js:244-247 | from a cell on the grid a step in any direction lands on the grid, at the coordinates wrapped modulo 25 |
| SnakeRules.Grown | Snake/script.js:266-274 | the head leads, the old body follows in order, and the length is one more or the target, whichever is less |
| SnakeRules.Step | Snake/script.js:243-274 | one move of a snake under the corrected collision rule; `StepShape`, `StepNoRepeats` and `StepDiffersOnlyOnGrowth` state its properties and its difference from the script |
| SnakeRules.StepShape | Snake/script.js:243-274 | under the corrected collision rule, a successful step keeps the snake on the grid, no longer than the target length or one more than before, with the new head on neither snake; a step fails exactly when `Blocked` holds |
| SnakeRules.StartShapes | Snake/script.js:190-227 | the starting snakes are three cells on the grid, do not overlap themselves, and share no cell |
| SnakeRules.SafeAmongSpec | Snake/script.js:339-374 | the safe list holds exactly the directions that do not reverse and lead onto neither snake |
| SnakeRules.SafeAmong | Snake/script.js:339-374 | the `possibleDirs` list; `SafeAmongSpec` states its contents |
| SnakeRules.Decided | Snake/script.js:376-392 | with no safe direction the previous one stays; otherwise the result is safe, and it is the current direction when that is safe and the 80% draw says so |
| SnakeRules.DecidedIsSafe | Snake/script.js:327-393 | whenever a safe direction exists, the bot's next direction does not reverse and leads onto neither snake |
| SnakeRules.PermittedUnlessReverse | Snake/script.js:525-542 | the only turn refused is the reversal of the current direction |
| SnakeRules.InsertByTime | Snake/script.js:446 | inserting into a list ordered best first keeps it ordered and adds exactly the new entry |
| SnakeRules.SortByTime | Snake/script.js:446 | the sort is ordered best first and is a permutation of its input |
| SnakeRules.AddedScore | Snake/script.js:444-449 | the list holds min(n + 1, 10) entries, is ordered best first, is a prefix of the stable sort of the old list with the new entry, and loses nothing while there is room |
| SnakeRules.AddedScoreKeepsBest | Snake/script.js:444-449 | no entry the list drops has a better time than an entry it keeps |
| SnakeRules.InsertByTimeStable | Snake/script.js:446 | insertion puts the new entry behind every entry with the same time |
| SnakeRules.SortByTimeStable | Snake/script.js:446 | the sort is stable: for every time, the entries with that time keep their order |
| SnakeRules.AddedScoreStable | Snake/script.js:444-449 | among entries with the same time, the list keeps those added first |
| SnakeRules.Reset | Snake/script.js:190-227 | after a reset the game runs, the invariant holds, the player's snake has three segments, the highscores stay, and against the bot the two snakes share no cell |
| SnakeRules.UpdateOutcome | Snake/script.js:238-325 | under the corrected collision rule, a crash leaves both snakes where they were and stops the game; otherwise the player's snake moved by one step, then the bot's |
| SnakeRules.Updated | Snake/script.js:238-282 | `update` over values under the corrected collision rule; `UpdateOutcome` and `UpdatedSound` state its effect and the invariant it keeps |
| SnakeRules.BotStepped | Snake/script.js:285-325 | `updateBot` over values under the corrected collision rule; `BotSteppedSound` states the invariant it keeps |
| SnakeRules.BotDecided | Snake/script.js:327-393 | `botDecideDirection` over values; `DecidedIsSafe` states that the choice is safe whenever a safe direction exists |
| SnakeRules.Lost | Snake/script.js:395-422 | the game stops, nothing but the highscores changes, and the bot's time enters them only against the bot and, when the list has room, the bot's time is kept |
| SnakeRules.Won | Snake/script.js:424-442 | the game stops, nothing but the highscores changes, and the player's time enters them while there is room |
| SnakeRules.BotSteppedSound | Snake/script.js:285-325 | under the corrected collision rule, `updateBot` keeps the invariant, including that the bot's snake does not overlap itself |
| SnakeRules.UpdatedSound | Snake/script.js:238-282 | under the corrected collision rule, `update` keeps the invariant: both snakes stay on the grid, neither overlaps itself, and neither is set to reverse |
| SnakeRules.TurnedSound | Snake/script.js:525-542 | `handleDirection` never queues a reversal |
| SnakeRules.Turned | Snake/script.js:525-542 | only the queued direction can change, and it changes only while the game runs, to the pressed direction, when that is permitted |
| SnakeRules.GrowingIntoTail | Snake/script.js:258-274 | the step as the script writes it lets a growing snake move onto its own last segment, so the snake overlaps itself |
| SnakeRules.StepDiffersOnlyOnGrowth | Snake/script.js:258-274 | the modelled collision rule agrees with the script's except when the snake grows and the head lands on its last segment |
| SnakeRules.StepNoRepeats | Snake/script.js:250-274 | under the modelled collision rule a snake that does not overlap itself never comes to overlap itself, and its head is never on the other snake |
| Snake.Occupies | Snake/script.js:250-263 | the segment scan finds the cell exactly when it is a segment |
| Snake.SnakeGame.constructor | Snake/script.js:6-66 | the state on load, with the stored highscores |
| Snake.SnakeGame.StartGame | Snake/script.js:178-188 | the highscores are cleared, then the game resets |
| Snake.SnakeGame.ResetGame | Snake/script.js:190-227 | the new state is `Reset` of the old one |
| Snake.SnakeGame.Update | Snake/script.js:238-282 | the new state is `Updated` of the old one, so the player's snake follows the corrected collision rule |
| Snake.SnakeGame.UpdateBot | Snake/script.js:285-325 | the new state is `BotStepped` of the old one, so the bot's snake follows the corrected collision rule |
| Snake.SnakeGame.Trimmed | Snake/script.js:266-274 | the pop loop leaves the grown snake |
| Snake.SnakeGame.BotDecideDirection | Snake/script.js:327-393 | the new state is `BotDecided` of the old one |
| Snake.SnakeGame.SafeDirections | Snake/script.js:339-374 | the loop collects exactly `SafeAmong` of the four directions |
| Snake.SnakeGame.HandleLoss | Snake/script.js:395-422 | the new state is `Lost` of the old one |
| Snake.SnakeGame.HandleWin | Snake/script.js:424-442 | the new state is `Won` of the old one |
| Snake.SnakeGame.AddHighscore | Snake/script.js:444-449 | the new highscores are `AddedScore` of the old ones |
| Snake.SnakeGame.HandleDirection | Snake/script.js:525-542 | the new state is `Turned` of the old one |
| Maze.Edit | StarRunner/script.js:93-130 | replacing one cell keeps the grid's shape |
| Maze.UnvisitedNeighbors | StarRunner/script.js:132-142 | `getUnvisitedNeighbors`; `UnvisitedNeighborsSpec` states its contents and order |
| Maze.UnvisitedNeighborsSpec | StarRunner/script.js:132-142 | `getUnvisitedNeighbors` lists exactly the in-grid, adjacent, unvisited cells, at most four, in north, south, east, west order, and is empty exactly when all neighbours are visited |
| Maze.NeighborsMembers | StarRunner/script.js:132-142 | a cell is listed exactly when it is in the grid, adjacent and unvisited |
| Maze.NeighborsOrdered | StarRunner/script.js:132-142 | the neighbours come in north, south, east, west order |
| Maze.RankAppend | StarRunner/script.js:132-142 | appending a later-ranked neighbour keeps the order |
| Maze.NeighborPicked | StarRunner/script.js:112-117 | the neighbour `generate` picks is adjacent, in the grid and unvisited |
| Maze.NoNeighborLeft | StarRunner/script.js:122-124 | a cell is popped only when all its neighbours are visited |
| Maze.WallRemoved | StarRunner/script.js:144-161 | removing a wall keeps the grid's shape |
| Maze.TwoEdits | StarRunner/script.js:144-161 | the two cell updates of `removeWall` give the grid `WallRemoved` describes |
| Maze.CellAfterRemoveSide | StarRunner/script.js:144-161 | a wall of a cell comes down exactly when the cell is `current` facing `next`, or `next` facing `current`; the visited flag stays |
| Maze.WallRemovedAt | StarRunner/script.js:144-161 | every cell after `removeWall` is that cell's update |
| Maze.WallRemovedEffect | StarRunner/script.js:144-161 | for adjacent cells, `removeWall` takes down the wall of `current` facing `next` and the opposite wall of `next`, and nothing else |
| Maze.FacingAcross | StarRunner/script.js:144-161 | the two walls taken down face each other |
| Maze.WallRemovedSymmetric | StarRunner/script.js:144-161 | `removeWall` keeps the walls symmetric and the outer wall closed |
| Maze.WallRemovedPairs | StarRunner/script.js:144-161 | `removeWall` keeps every pair of facing walls in agreement |
| Maze.WallRemovedEastWest | StarRunner/script.js:144-161 | an east wall still agrees with its neighbour's west wall |
| Maze.WallRemovedSouthNorth | StarRunner/script.js:144-161 | a south wall still agrees with its neighbour's north wall |
| Maze.WallRemovedOuter | StarRunner/script.js:144-161 | `removeWall` on adjacent cells never opens the outer wall |
| Maze.PushGrid | StarRunner/script.js:117-121 | a push step opens the passage between the two cells and no other, marks the new cell, and keeps the walls symmetric and the outer wall closed |
| Maze.PushOpensOne | StarRunner/script.js:117-121 | a passage open after `removeWall` and the visit was open before, or is the one between `current` and `next` |
| Maze.VisitKeepsWalls | StarRunner/script.js:120 | marking a cell visited keeps every wall |
| Maze.SameWallsKeep | StarRunner/script.js:93-130 | grids with the same walls agree on symmetry and the outer wall |
| Maze.WallRemovedGrows | StarRunner/script.js:144-161 | `removeWall` keeps every visited flag, only takes walls down, and opens the passage |
| Maze.VisitGrows | StarRunner/script.js:120 | marking a cell visited keeps open passages open and visits only that cell |
| Maze.TreeGrows | StarRunner/script.js:107-125 | the passages of the tree built so far stay open |
| Maze.GridVisit | StarRunner/script.js:120 | each visit lowers the number of unvisited cells by one |
| Maze.FreshUnvisited | StarRunner/script.js:95-105 | a fresh grid has w·h unvisited cells |
| Maze.AllVisitedNone | StarRunner/script.js:107-125 | a grid with every cell visited has no unvisited cell |
| Maze.CarveStart | StarRunner/script.js:95-110 | the fresh grid with (0, 0) visited and on the stack satisfies the loop invariant, with no passage open |
| Maze.PushKeepsRest | StarRunner/script.js:117-121 | a push step leaves rows past the height alone |
| Maze.CarvePush | StarRunner/script.js:113-121 | pushing an unvisited neighbour keeps the loop invariant, counts one wall removal and visits one more cell |
| Maze.PushOnlyTree | StarRunner/script.js:117-121 | the one passage a push opens is the new tree edge, so every open passage is still a tree edge |
| Maze.PushTree | StarRunner/script.js:117-121 | the newly visited cell joins the spanning tree through an open passage to its parent |
| Maze.PushFinished | StarRunner/script.js:117-121 | cells off the stack still have all neighbours visited after a push |
| Maze.CarvePop | StarRunner/script.js:122-124 | popping a cell with no unvisited neighbour keeps the loop invariant |
| Maze.Reached | StarRunner/script.js:107-125 | when every visited cell has all its neighbours visited, every cell is visited |
| Maze.CarveDone | StarRunner/script.js:107-125 | with the stack empty every cell is visited, w·h − 1 walls were removed and w·h cells entered |
| Maze.PerfectMazePassages | StarRunner/script.js:107-125 | in the generated maze a passage between adjacent cells is open exactly when it joins a cell to the cell it was entered from |
| Maze.Scale | StarRunner/script.js:251-252 | a scaled random draw lies below its bound |
| Maze.FirstFree | StarRunner/script.js:248-256 | the cell the retry loop settles on; `FirstFreeSpec` states that it is the first non-excluded draw |
| Maze.CellToWorldPosition | StarRunner/script.js:258-263 | `cellToWorldPosition`; `CellToWorldPositionInverse` states that it is the centre of the cell's square and invertible |
| Maze.FirstFreeSpec | StarRunner/script.js:248-256 | the cell found is the first drawn cell outside `exclude`, in the grid; none is found exactly when every draw lands on an excluded cell |
| Maze.FullExclusionNeverFree | StarRunner/script.js:248-256 | when `exclude` covers the grid no draw is free: the retry loop never ends |
| Maze.CellToWorldPositionInverse | StarRunner/script.js:258-263 | a cell maps to (4x+2, 4y+2), strictly inside its square; mapping back gives the cell, and distinct cells get distinct positions |
| Maze.MazeGenerator.constructor | StarRunner/script.js:85-91 | the size is recorded; no cells, entrance or exit yet |
| Maze.MazeGenerator.Generate | StarRunner/script.js:93-130 | the result is a perfect maze: all cells visited, walls symmetric, the outer wall closed, open passages that form a spanning tree from (0, 0) (each cell after the first joined to an earlier one, and no other passage open), w·h − 1 removals, a stack never above w·h, the entrance at (0, 0) and the exit at the opposite corner |
| Maze.MazeGenerator.InitCells | StarRunner/script.js:95-105 | the nested loops build a fresh grid of closed, unvisited cells |
| Maze.MazeGenerator.Carve | StarRunner/script.js:107-125 | the backtracking loop ends with a perfect maze whose only open passages are the w·h − 1 tree edges, w·h − 1 removals and a stack never above w·h |
| Maze.MazeGenerator.Advance | StarRunner/script.js:117-121 | the new grid is `removeWall` followed by the visit; the passage opens and no other, the neighbour is the one newly visited cell, and symmetry and the outer wall are kept |
| Maze.MazeGenerator.RemoveWall | StarRunner/script.js:144-161 | the stored grid becomes `WallRemoved` of the old one |
| Maze.MazeGenerator.GetRandomEmptyCell | StarRunner/script.js:248-256 | the result is the first drawn cell outside `exclude` |
| Maze.ResetRow | StarRunner/script.js:96-97 | starting a new row keeps the earlier rows fresh |
| Maze.RowDone | StarRunner/script.js:96-104 | a finished row extends the fresh prefix |
| Maze.AppendCell | StarRunner/script.js:98-103 | each new cell is closed and unvisited |
| StarScore.ApplySound | StarRunner/script.js:405-406 | each score event keeps the score between 0 and 1000 per star |
| StarScore.PlaySound | StarRunner/script.js:405-406 | whatever happens, the score stays between 0 and 1000 points per star |
| StarScore.PickupScore | StarRunner/script.js:848-849 | right after a pickup the score is exactly 1000 per star collected |
| StarScore.StarsCounted | StarRunner/script.js:848 | without a restart the star count grows by one per pickup and by nothing else |
| StarScore.BurnedPenalty | StarRunner/script.js:640-643 | lava costs 300 points, or all that is left, only when the overlay is down; it raises the overlay and never makes the score negative |
| StarScore.LavaOnce | StarRunner/script.js:640-643 | standing in the lava while the overlay is up is charged once |
| StarScore.PickupForgetsLava | StarRunner/script.js:848-849 | a pickup recomputes the score from the star count, so an earlier penalty is lost |
| StarScore.Restarted | StarRunner/script.js:405-406 | the reset of `startGame`; `PlaySound` states that every event sequence keeps the score sound |
| StarScore.Collected | StarRunner/script.js:848-849 | a star pickup; `PickupScore` and `StarsCounted` state its effect |
| StarScore.Burned | StarRunner/script.js:640-643 | a lava touch; `BurnedPenalty` and `LavaOnce` state its effect |
| StarScore.Cooled | StarRunner/script.js:664-672 | the overlay timer running out; `ApplySound` states that it keeps the score sound |
| StarScore.ScoreKeeper.constructor | StarRunner/script.js:39-52 | no stars, no points, no overlay |
| StarScore.ScoreKeeper.ResetScore | StarRunner/script.js:405-406 | the new tally is `Restarted` of the old one |
| StarScore.ScoreKeeper.CollectStar | StarRunner/script.js:848-849 | the new tally is `Collected` of the old one |
| StarScore.ScoreKeeper.HitLava | StarRunner/script.js:640-643 | the new tally is `Burned` of the old one |
| StarScore.ScoreKeeper.UpdateOuch | StarRunner/script.js:664-672 | the overlay goes down exactly when its timer has run out |
| StarMap.CreateLineIdSpec | StarMap/script.js:575-578 | a line id ignores the drawing direction, puts the smaller number first, and two ids are equal exactly when they join the same two stars |
| StarMap.CreateLineId | StarMap/script.js:575-578 | `createLineId`; `CreateLineIdSpec` states that it ignores direction and tells lines apart |
| StarMap.RequiredLinked | StarMap/script.js:556-569 | a line is required by a constellation exactly when the constellation lists its stars adjacently, in either order |
| StarMap.JoiningSpec | StarMap/script.js:955-990 | validation names exactly the constellations joining the stars, each once, and finds one exactly when some constellation joins them |
| StarMap.Joining | StarMap/script.js:955-990 | the constellations `validateLine` finds; `JoiningSpec` states its contents |
| StarMap.ContainingSpec | StarMap/script.js:845-860 | the constellations of a star are exactly those listing it |
| StarMap.Containing | StarMap/script.js:845-860 | the constellations of a star; `ContainingSpec` states its contents |
| StarMap.FullyCompletedSpec | StarMap/script.js:845-860 | a star in no constellation is never complete; otherwise it is complete exactly when all its constellations are found |
| StarMap.FullyCompleted | StarMap/script.js:845-860 | `isStarFullyCompleted`; `FullyCompletedSpec` states when it holds |
| StarMap.TrackedSpec | StarMap/script.js:553-573 | tracking gives each constellation its consecutive lines as required and nothing completed |
| StarMap.Tracked | StarMap/script.js:553-573 | `initConstellationTracking` over values; `TrackedSpec` and `TrackedValid` state its result |
| StarMap.ReachedNext | StarMap/script.js:1048-1054 | each loop step adds the line when it is already correct |
| StarMap.ReachedAll | StarMap/script.js:1048-1054 | the loop adds exactly the required lines that are correct |
| StarMap.SubsetSize | StarMap/script.js:1057 | completed lines never outnumber required ones |
| StarMap.SubsetSameSize | StarMap/script.js:1057 | as many completed lines as required lines means all are completed |
| StarMap.CheckedFrame | StarMap/script.js:1040-1060 | a completion check changes only one progress entry and may append only that name |
| StarMap.CheckedAllFrame | StarMap/script.js:984-986 | checking several constellations only extends the found list |
| StarMap.Checked | StarMap/script.js:1040-1060 | `checkConstellationCompletion` over values; `CheckedFrame` and `CheckedValid` state its effect |
| StarMap.CheckedAll | StarMap/script.js:984-986 | the `forEach` over the constellations a line joins; `CheckedAllFrame` and `CheckedAllValid` state its effect |
| StarMap.ProgressValid | StarMap/script.js:1048-1054 | completing more required, correct lines keeps the game valid |
| StarMap.FoundValid | StarMap/script.js:1057-1065 | finding a complete constellation not found before keeps the game valid, with no duplicates |
| StarMap.CheckedValid | StarMap/script.js:1040-1060 | a completion check keeps the game valid: completed ⊆ required, completed ⊆ correct lines, no duplicate finds |
| StarMap.CheckedAllValid | StarMap/script.js:984-986 | checking several constellations keeps the game valid |
| StarMap.DrawnValid | StarMap/script.js:929-978 | recording a validated line, and its id when correct, keeps the game valid |
| StarMap.ValidatedValid | StarMap/script.js:903-997 | drawing keeps the game valid, and the line's id joins the correct lines exactly when some constellation joins its stars |
| StarMap.Validated | StarMap/script.js:903-997 | `attemptDrawLine` and `validateLine` over values; `ValidatedValid` states its effect |
| StarMap.ClickedValid | StarMap/script.js:822-843 | a click keeps the game valid |
| StarMap.ClickedSpec | StarMap/script.js:822-843 | a completed star is ignored, the first click selects, the same star deselects, and another star records a line from the selected one and clears the selection |
| StarMap.Clicked | StarMap/script.js:822-843 | `handleStarClick` over values; `ClickedSpec` and `ClickedValid` state its effect |
| StarMap.ResetValid | StarMap/script.js:1248-1282 | reset keeps every required set, empties completed, correct lines, found list, lines and selection, and the game stays valid |
| StarMap.ResetSky | StarMap/script.js:1248-1282 | `resetGame` over values; `ResetValid` states its effect |
| StarMap.TrackedValid | StarMap/script.js:553-573 | tracking a game with nothing found gives a valid game |
| StarMap.FoundMeansDrawn | StarMap/script.js:1057-1065 | every line of a found constellation has been drawn correctly |
| StarMap.StarMapGame.constructor | StarMap/script.js:24-52 | empty progress, lines and found list, nothing selected, and the game is valid |
| StarMap.StarMapGame.InitConstellationTracking | StarMap/script.js:553-573 | progress becomes `Tracked`, and the game stays valid when nothing is found yet |
| StarMap.StarMapGame.RequiredLines | StarMap/script.js:558-564 | the loop collects exactly the ids of consecutive star pairs |
| StarMap.StarMapGame.HandleStarClick | StarMap/script.js:822-843 | the new state is `Clicked` of the old one, and the game stays valid |
| StarMap.StarMapGame.IsStarFullyCompleted | StarMap/script.js:845-860 | the result is `FullyCompleted` |
| StarMap.StarMapGame.AttemptDrawLine | StarMap/script.js:899-945 | the new state is `Validated` of the old one |
| StarMap.StarMapGame.ValidateLine | StarMap/script.js:947-997 | the nested loops with `break` collect exactly `Joining` |
| StarMap.StarMapGame.CheckConstellationCompletion | StarMap/script.js:1040-1060 | the new state is `Checked` of the old one |
| StarMap.StarMapGame.CompletedLines | StarMap/script.js:1048-1054 | the loop adds exactly the required lines that are correct |
| StarMap.StarMapGame.OnConstellationComplete | StarMap/script.js:1062-1065 | the name is appended to the found list |
| StarMap.StarMapGame.ResetGame | StarMap/script.js:1248-1282 | the new state is `ResetSky` of the old one |

## Left out

- Drawing and the DOM: canvas and Three.js scenes, meshes and sprites, raycasting, status texts, highlight classes, banners and the minimap.
- Networking: the WebRTC signalling and data channels of Snake, and the messages it sends. The peer's snake is never updated in the model.
- Storage: `localStorage` in Snake and StarMap (`loadProgress`, `saveProgress`, `clearProgress`). The stored highscores enter the Snake constructor as a parameter.
- Timers: `setTimeout`, `setInterval` and `requestAnimationFrame`. A scheduled call, such as the bot's turn or the restart after a crash, is a separate method call. The bot's move in the movement phase, which the script applies 300 ms after choosing it, is applied at once. The one-second ouch timer enters as whether it has run out.
- Floating point: StarRunner's player physics, the lava distance test and the time bonus. `HitLava` stands for the moment the player touches lava. StarMap's star colours and sizes and the camera are left out too.
- Randomness: `Math.random` enters as parameters.
- Maze.MazeGenerator.GetRandomEmptyCell: draws from a finite sequence and returns None when it runs out; the script draws forever, and `FullExclusionNeverFree` shows the case where it never stops.
- `TicTacToe.Game.BotMove` on a full board: the script throws when `getRandomMove` or `findBestMove` finds no cell. The model leaves the state unchanged and returns None.
- The `x` and `y` fields of the maze's cell objects: they always equal the cell's position and are not stored.
- StarMap line ids: they are ordered pairs rather than "lo-hi" strings. Two different pairs never give the same id, which the strings also guarantee.
- StarMap: the fading and removal of wrong lines (a timer), hard mode, star names and labels, and the victory screen after 90 finds.
- StarMap.Checked: a name missing from the catalogue, where the script would fail on an undefined entry, leaves the state unchanged.
- Snake: the date string of a highscore entry, and the peer's copy of the highscore list.
- SnakeRules.Step: uses the corrected collision rule (see Findings), not the script's. `StepAsWritten` is the script's rule.
- SnakeRules.StepShape: its collision is `Blocked`, the corrected rule, not the scan of Snake/script.js:258-263.
- SnakeRules.Updated: moves the player's snake by the corrected `Step`. On a growing step onto its own last segment the script moves the snake, and the model crashes it.
- SnakeRules.BotStepped: moves the bot's snake by the corrected `Step`. On a growing step onto its own last segment the script moves the bot, and the model crashes it.
- SnakeRules.UpdateOutcome: describes `Updated`, so its "moved by one step" is the corrected step.
- SnakeRules.UpdatedSound: the invariant it proves includes freedom from overlaps, which holds only under the corrected rule. `GrowingIntoTail` shows the script's `update` breaking it.
- SnakeRules.BotSteppedSound: the same for `updateBot`. The script's scan at Snake/script.js:305-310 does not keep freedom from overlaps.
- Snake.SnakeGame.Update: scans the segments that are still there after the step, not all but the last. It crashes where the script lets a growing snake move onto its last segment.
- Snake.SnakeGame.UpdateBot: the same departure for the bot's snake.

## Findings

| source | as written | input that shows it | evidently intended | confidence | as-written member | corrected member |
|---|---|---|---|---|---|---|
| Snake/script.js:258-274 (also 303-319 for the bot) | the self-collision loop skips the snake's last segment because "it will move", but when the snake grows on this step the last segment stays | the four-long snake (0,0),(1,0),(1,1),(0,1) moving down at 4000 ms (target length 5): its head goes to (0,1), its own tail, and the step succeeds with that cell twice in the snake | the last segment is exempt only when it actually moves away, so a snake never overlaps itself | medium, not executed | SnakeRules.GrowingIntoTail | SnakeRules.StepNoRepeats |
