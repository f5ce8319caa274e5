/**
 * The tic-tac-toe game state of KrydsOgBolle and the operations that
 * change it: the in-place searches (trial move, recurse, undo on the one
 * shared board), the bot's move pickers, the result check, piece movement
 * and the placement-to-movement phase switch.
 */
module TicTacToe {
  import opened Wrappers
  import opened TicTacToeBoard
  import opened ClassicSearch
  import opened MovementSearch
  import opened TicTacToeRules

  class Game {
    var board: array<Mark>
    var currentPlayer: Mark
    var gameActive: bool
    var gameMode: Mode
    var humanPiecesPlaced: nat
    var botPiecesPlaced: nat
    var phase: Phase
    var selectedPiece: Option<nat>

    /** The state as a value. */
    function Snapshot(): State
      reads this, board
      requires board.Length == 9
    {
      State(board[..], currentPlayer, gameActive, gameMode, humanPiecesPlaced, botPiecesPlaced, phase, selectedPiece)
    }

    ghost predicate Valid()
      reads this, board
    {
      board.Length == 9 && WellFormed(Snapshot())
    }

    /** The board as a value. */
    function Cells(): Board
      reads this, board
      requires board.Length == 9
    {
      board[..]
    }

    /** The state on load (lines 2-16). */
    constructor ()
      ensures Valid() && fresh(board)
      ensures Snapshot() == Initial
    {
      board := new Mark[9](_ => Empty);
      currentPlayer := Human;
      gameActive := true;
      gameMode := NoMode;
      humanPiecesPlaced := 0;
      botPiecesPlaced := 0;
      phase := Placement;
      selectedPiece := None;
      new;
      assert board[..] == EmptyBoard;
    }

    /** `startGame(mode)`: records the chosen mode. */
    method StartGame(mode: Mode)
      requires Valid() && mode != NoMode
      modifies this
      ensures Valid() && board == old(board)
      ensures Snapshot() == Started(old(Snapshot()), mode)
    {
      gameMode := mode;
    }

    /**
     * `minimax`: the board is restored on return and the score is the
     * classic minimax value of the board it was called on. The winner
     * check reads the shared board, which is the board being searched.
     */
    method Minimax(depth: nat, isMax: bool) returns (score: int)
      requires board.Length == 9
      modifies board
      ensures board[..] == old(board[..])
      ensures score == ClassicSearch.Minimax(old(Cells()), depth, isMax)
      decreases CountEmpty(board[..])
    {
      var winner := CheckWinner(board[..]);
      if winner == Some(Bot) { return 10 - depth; }
      if winner == Some(Human) { return depth - 10; }
      if Empty !in board[..] { return 0; }
      ghost var b0: Board := board[..];
      var mark := Mover(isMax);
      var bestScore := Seed(isMax);
      for i := 0 to 9
        invariant board[..] == b0
        invariant BestFrom(b0, depth, isMax, i, bestScore) == BestFrom(b0, depth, isMax, 0, Seed(isMax))
      {
        if board[i] == Empty {
          board[i] := mark;
          PlaceReducesEmpty(b0, i, mark);
          var s := Minimax(depth + 1, !isMax);
          board[i] := Empty;
          bestScore := Better(isMax, s, bestScore);
        }
      }
      score := bestScore;
    }

    /**
     * `findBestMove`: tries the bot's mark on each empty cell in index
     * order, undoing each trial, and keeps a cell only when its score is
     * strictly greater than the best so far.
     */
    method FindBestMove() returns (bestMove: int)
      requires board.Length == 9
      modifies board
      ensures board[..] == old(board[..])
      ensures IsBestPlacement(old(Cells()), bestMove)
    {
      ghost var b0: Board := board[..];
      var bestScore := NegInf;
      bestMove := -1;
      for i := 0 to 9
        invariant board[..] == b0
        invariant PlacementsSoFar(b0, i, bestMove, bestScore)
      {
        if board[i] == Empty {
          var score := TryPlacement(i);
          PlacementsStep(b0, i, bestMove, bestScore, score);
          if score > bestScore {
            bestScore := score;
            bestMove := i;
          }
        } else {
          PlacementsStep(b0, i, bestMove, bestScore, 0);
        }
      }
      PlacementsDone(b0, bestMove, bestScore);
    }

    /** One step of `findBestMove`'s loop: the bot's mark is put on cell i, scored, and taken off again. */
    method TryPlacement(i: nat) returns (score: int)
      requires board.Length == 9 && i < 9 && board[i] == Empty
      modifies board
      ensures board[..] == old(board[..])
      ensures score == PlacementScore(old(Cells()), i) && NegInf < score
    {
      ghost var b0: Board := board[..];
      board[i] := Bot;
      assert board[..] == b0[i := Bot];
      score := Minimax(0, false);
      board[i] := Empty;
      assert board[..] == b0;
      PlaceReducesEmpty(b0, i, Bot);
      MinimaxRange(b0[i := Bot], 0, false);
    }

    /**
     * The scan both movement searches open with: the cells holding
     * `player` and the empty cells, each in ascending index order.
     */
    method Positions(player: Mark) returns (positions: seq<nat>, emptyPositions: seq<nat>)
      requires board.Length == 9
      ensures positions == Indices(Cells(), player)
      ensures emptyPositions == Indices(Cells(), Empty)
    {
      positions := [];
      emptyPositions := [];
      for i := 0 to 9
        invariant positions == IndicesBelow(Cells(), player, i)
        invariant emptyPositions == IndicesBelow(Cells(), Empty, i)
      {
        if board[i] == player { positions := positions + [i]; }
        if board[i] == Empty { emptyPositions := emptyPositions + [i]; }
      }
    }

    /**
     * `minimaxMovement`: the board is restored on return and the score is
     * the alpha-beta value of the board it was called on. A won line scores
     * +10 or -10 with no depth discount; at depth 0 the score is the
     * heuristic.
     */
    method MinimaxMovement(depth: nat, isMax: bool, alpha: int, beta: int) returns (score: int)
      requires board.Length == 9
      modifies board
      ensures board[..] == old(board[..])
      ensures score == AlphaBeta(old(Cells()), depth, isMax, alpha, beta)
      ensures CheckWinner(old(Cells())) == Some(Bot) ==> score == 10
      ensures CheckWinner(old(Cells())) == Some(Human) ==> score == -10
      ensures CheckWinner(old(Cells())).None? && depth == 0 ==> score == EvaluateBoard(old(Cells()))
      decreases depth, 2
    {
      var winner := CheckWinner(board[..]);
      if winner == Some(Bot) { return 10; }
      if winner == Some(Human) { return -10; }
      if depth == 0 { return EvaluateBoard(board[..]); }
      var st := SearchMoves(depth, isMax, alpha, beta);
      score := st.best;
    }

    /**
     * The two nested loops of `minimaxMovement`: every move of one of the
     * mover's pieces to an empty cell, in ascending order of source and
     * target cell, narrowing the (alpha, beta) window and leaving both
     * loops as soon as beta <= alpha.
     */
    method SearchMoves(depth: nat, isMax: bool, alpha: int, beta: int) returns (st: Window)
      requires board.Length == 9 && 1 <= depth
      modifies board
      ensures board[..] == old(board[..])
      ensures st == ABRows(old(Cells()), depth, isMax, 0, Window(alpha, beta, Seed(isMax)))
      decreases depth, 1
    {
      ghost var b0: Board := board[..];
      var player := Mover(isMax);
      var positions, emptyPositions := Positions(player);
      st := Window(alpha, beta, Seed(isMax));
      ghost var result := ABRows(b0, depth, isMax, 0, st);
      var pi := 0;
      while pi < |positions|
        invariant 0 <= pi <= |positions|
        invariant board[..] == b0
        invariant ABRows(b0, depth, isMax, pi, st) == result
      {
        ghost var rowStart := st;
        st := SearchRow(b0, positions[pi], emptyPositions, depth, isMax, st);
        ABRowsStep(b0, depth, isMax, pi, rowStart, st);
        if st.beta <= st.alpha { break; }
        pi := pi + 1;
      }
    }

    /** The inner loop of `minimaxMovement`: the moves of the piece on `from` to each empty cell. */
    method SearchRow(ghost b0: Board, from: nat, emptyPositions: seq<nat>, depth: nat, isMax: bool, st0: Window) returns (st: Window)
      requires board.Length == 9 && board[..] == b0 && 1 <= depth
      requires from < 9 && b0[from] == Mover(isMax) && emptyPositions == Indices(b0, Empty)
      modifies board
      ensures board[..] == b0
      ensures st == ABRow(b0, depth, isMax, from, 0, st0)
      decreases depth, 0
    {
      st := st0;
      var ej := 0;
      while ej < |emptyPositions|
        invariant 0 <= ej <= |emptyPositions|
        invariant board[..] == b0
        invariant ABRow(b0, depth, isMax, from, ej, st) == ABRow(b0, depth, isMax, from, 0, st0)
      {
        var to := emptyPositions[ej];
        var evalScore := TryMove(b0, from, to, Mover(isMax), depth - 1, !isMax, st.alpha, st.beta);
        ABRowStep(b0, depth, isMax, from, ej, st, evalScore);
        st := Step(isMax, st, evalScore);
        if st.beta <= st.alpha { break; }
        ej := ej + 1;
      }
    }

    /**
     * One trial of the movement searches: move `player`'s piece from
     * `from` to `to`, search the result, and move the piece back.
     */
    method TryMove(ghost b0: Board, from: nat, to: nat, player: Mark, depth: nat, isMax: bool, alpha: int, beta: int) returns (score: int)
      requires board.Length == 9 && board[..] == b0 && from < 9 && to < 9
      requires b0[from] == player && b0[to] == Empty
      modifies board
      ensures board[..] == b0
      ensures score == AlphaBeta(Apply(b0, from, to, player), depth, isMax, alpha, beta)
      decreases depth, 3
    {
      board[from] := Empty;
      board[to] := player;
      assert board[..] == Apply(b0, from, to, player);
      score := MinimaxMovement(depth, isMax, alpha, beta);
      board[from] := player;
      board[to] := Empty;
      assert board[..] == b0;
    }

    /**
     * The inner loop of `findBestBotMove`: every move of the bot piece on
     * `from` to an empty cell, in ascending target order, each kept only
     * when it scores strictly more than the best so far.
     */
    method TryTargets(from: nat, emptyPositions: seq<nat>, move0: Option<Move>, bestScore0: int, ghost tried0: set<Move>)
      returns (move: Option<Move>, bestScore: int, ghost tried: set<Move>)
      requires board.Length == 9 && from < 9 && board[from] == Bot
      requires emptyPositions == Indices(Cells(), Empty)
      requires BestSoFar(Cells(), tried0, move0, bestScore0)
      requires forall mv :: mv in tried0 ==> mv.from < from
      modifies board
      ensures board[..] == old(board[..])
      ensures BestSoFar(old(Cells()), tried, move, bestScore)
      ensures forall mv :: mv in tried <==> mv in tried0 || (mv.from == from && mv.to in emptyPositions)
    {
      ghost var b0: Board := board[..];
      IndicesAscending(b0, Empty);
      IndicesComplete(b0, Empty);
      move, bestScore, tried := move0, bestScore0, tried0;
      for ej := 0 to |emptyPositions|
        invariant board[..] == b0
        invariant BestSoFar(b0, tried, move, bestScore)
        invariant forall mv :: mv in tried <==> mv in tried0 || (mv.from == from && mv.to in emptyPositions[..ej])
      {
        var to := emptyPositions[ej];
        assert emptyPositions[..ej + 1] == emptyPositions[..ej] + [to];
        AscendingPrefix(emptyPositions, ej);
        var score := TryMove(b0, from, to, Bot, SearchDepth, false, NegInf, PosInf);
        BestSoFarStep(b0, tried, move, bestScore, Move(from, to));
        tried := tried + {Move(from, to)};
        if score > bestScore {
          bestScore := score;
          move := Some(Move(from, to));
        }
      }
      assert emptyPositions[..|emptyPositions|] == emptyPositions;
    }

    /**
     * `findBestBotMove`: tries every move of a bot piece to an empty cell,
     * undoing each trial, and keeps a move only when its score is strictly
     * greater than the best so far. With the 2% random draw
     * (`randomMove`), a random bot piece and a random empty cell are
     * returned instead; `pickFrom` and `pickTo` stand for the two random
     * index draws.
     */
    method FindBestBotMove(randomMove: bool, pickFrom: nat, pickTo: nat) returns (move: Option<Move>)
      requires board.Length == 9
      modifies board
      ensures board[..] == old(board[..])
      ensures move.Some? ==> Legal(old(Cells()), move.value.from, move.value.to, Bot)
      ensures !randomMove ==> IsBestBotMove(old(Cells()), move)
    {
      var botPositions, emptyPositions := Positions(Bot);
      move := ScoreAllMoves(botPositions, emptyPositions);
      if randomMove && |botPositions| > 0 && |emptyPositions| > 0 {
        IndicesComplete(board[..], Bot);
        IndicesComplete(board[..], Empty);
        var fromIndex := pickFrom % |botPositions|;
        var toIndex := pickTo % |emptyPositions|;
        assert botPositions[fromIndex] in botPositions && emptyPositions[toIndex] in emptyPositions;
        return Some(Move(botPositions[fromIndex], emptyPositions[toIndex]));
      }
    }

    /** The two nested loops of `findBestBotMove`: every move of a bot mark to an empty cell, scored in turn. */
    method ScoreAllMoves(botPositions: seq<nat>, emptyPositions: seq<nat>) returns (move: Option<Move>)
      requires board.Length == 9
      requires botPositions == Indices(Cells(), Bot) && emptyPositions == Indices(Cells(), Empty)
      modifies board
      ensures board[..] == old(board[..])
      ensures IsBestBotMove(old(Cells()), move)
    {
      ghost var b0: Board := board[..];
      IndicesAscending(b0, Bot);
      var bestScore := NegInf;
      move := None;
      ghost var tried: set<Move> := {};
      for pi := 0 to |botPositions|
        invariant board[..] == b0
        invariant BestSoFar(b0, tried, move, bestScore)
        invariant TriedFrom(tried, botPositions[..pi], emptyPositions)
      {
        var from := botPositions[pi];
        assert botPositions[..pi + 1] == botPositions[..pi] + [from];
        AscendingPrefix(botPositions, pi);
        IndicesComplete(b0, Bot);
        assert from in botPositions;
        ghost var tried0 := tried;
        move, bestScore, tried := TryTargets(from, emptyPositions, move, bestScore, tried);
        TriedFromStep(tried0, tried, botPositions[..pi], from, emptyPositions);
      }
      assert botPositions[..|botPositions|] == botPositions;
      TriedFromAll(b0, tried);
      BestSoFarComplete(b0, tried, move, bestScore);
    }

    /**
     * `checkResult`: scans the eight lines, skipping any with an empty
     * cell and stopping at the first whose three marks agree; a won line
     * ends the game, so does a full board in classic mode, and otherwise
     * the classic mode hands the turn to the other player.
     */
    method CheckResult() returns (ended: bool)
      requires Valid()
      modifies this
      ensures Valid() && board == old(board)
      ensures ended == Ends(Cells(), gameMode)
      ensures Snapshot() == Checked(old(Snapshot()))
    {
      var roundWon := false;
      ghost var winning: nat := 0;
      for i := 0 to 8
        invariant !roundWon
        invariant forall j :: 0 <= j < i ==> !LineWon(Cells(), j)
      {
        var line := WinLine(i);
        var a, b, c := board[line.0], board[line.1], board[line.2];
        if a == Empty || b == Empty || c == Empty {
          continue;
        }
        if a == b && b == c {
          roundWon := true;
          winning := i;
          break;
        }
      }
      if roundWon {
        assert LineWon(Cells(), winning);
        gameActive := false;
        return true;
      }
      assert CheckWinner(Cells()).None?;
      if gameMode == Classic && Empty !in board[..] {
        gameActive := false;
        return true;
      }
      if gameMode == Classic {
        currentPlayer := Other(currentPlayer);
      }
      return false;
    }

    /** `movePiece(from, to)`: relocates the mark, clears the selection, checks the result and, unless the game ended, switches the player. */
    method MovePiece(from: nat, to: nat)
      requires Valid() && from < 9 && to < 9
      modifies this, board
      ensures Valid() && board == old(board)
      ensures Snapshot() == MovedPiece(old(Snapshot()), from, to)
    {
      var player := board[from];
      board[from] := Empty;
      board[to] := player;
      selectedPiece := None;
      assert Cells() == Relocate(old(Cells()), from, to);
      var ended := CheckResult();
      if ended {
        return;
      }
      currentPlayer := Other(currentPlayer);
    }

    /** `handleCellClick(index)`: ignored when the game is over or on the bot's turn; otherwise dispatched on the mode. */
    method HandleCellClick(index: nat)
      requires Valid() && index < 9
      modifies this, board
      ensures Valid() && board == old(board)
      ensures Snapshot() == CellClick(old(Snapshot()), index)
    {
      if !gameActive || currentPlayer == Bot {
        return;
      }
      if gameMode == Classic {
        HandleClassicClick(index);
      } else {
        HandleThreePieceClick(index);
      }
    }

    /** `handleClassicClick(index)`: on an empty cell, `updateCell` and `checkResult`. */
    method HandleClassicClick(index: nat)
      requires Valid() && index < 9
      modifies this, board
      ensures Valid() && board == old(board)
      ensures Snapshot() == ClassicClick(old(Snapshot()), index)
    {
      if board[index] != Empty {
        return;
      }
      board[index] := currentPlayer;
      var ended := CheckResult();
    }

    /** `handleThreePieceClick(index)`: a placement with the phase switch, or a selection or move in the movement phase. */
    method HandleThreePieceClick(index: nat)
      requires Valid() && index < 9
      modifies this, board
      ensures Valid() && board == old(board)
      ensures Snapshot() == ThreePieceClick(old(Snapshot()), index)
    {
      if phase == Placement {
        if board[index] != Empty {
          return;
        }
        board[index] := currentPlayer;
        humanPiecesPlaced := humanPiecesPlaced + 1;
        var ended := CheckResult();
        if ended {
          return;
        }
        currentPlayer := Bot;
        if humanPiecesPlaced >= MaxPieces && botPiecesPlaced >= MaxPieces {
          phase := Movement;
        }
      } else {
        if board[index] == Human {
          selectedPiece := Some(index);
        } else if selectedPiece.Some? && board[index] == Empty {
          MovePiece(selectedPiece.value, index);
        }
      }
    }

    /** `handleDragStart(index)`: selects a human piece in the movement phase on the human's turn. */
    method HandleDragStart(index: nat)
      requires Valid() && index < 9
      modifies this
      ensures Valid() && board == old(board)
      ensures Snapshot() == DragStarted(old(Snapshot()), index)
    {
      if phase != Movement || currentPlayer != Human {
        return;
      }
      if board[index] != Human {
        return;
      }
      selectedPiece := Some(index);
    }

    /** `handleDrop(source, target)`: moves a human piece onto an empty cell. */
    method HandleDrop(source: nat, target: nat)
      requires Valid()
      modifies this, board
      ensures Valid() && board == old(board)
      ensures Snapshot() == Dropped(old(Snapshot()), source, target)
    {
      if target < 9 && source < 9 && board[target] == Empty && board[source] == Human {
        MovePiece(source, target);
      }
    }

    /**
     * `botMove` (classic mode): with the 2% random draw (`randomMove`) a
     * random empty cell (`pick` stands for the random index), otherwise the
     * `findBestMove` cell, gets the current player's mark and the result is
     * checked. The chosen cell is returned; None means no cell was chosen
     * (the game is over, or the board is full and the source fails before
     * changing anything).
     */
    method BotMove(randomMove: bool, pick: nat) returns (move: Option<nat>)
      requires Valid()
      modifies this, board
      ensures Valid() && board == old(board)
      ensures move.Some? ==> move.value < 9 && old(Cells())[move.value] == Empty
      ensures Snapshot() == BotPlaced(old(Snapshot()), move)
      ensures !old(gameActive) ==> move == None
      ensures old(gameActive) && !randomMove ==> IsBestPlacement(old(Cells()), if move.Some? then move.value else -1)
    {
      if !gameActive {
        return None;
      }
      if randomMove {
        move := RandomMove(board[..], pick);
      } else {
        var best := FindBestMove();
        move := if best == -1 then None else Some(best);
      }
      if move.None? {
        return;
      }
      board[move.value] := currentPlayer;
      var ended := CheckResult();
    }

    /**
     * `botMoveThreePiece`: nothing once the game is over; otherwise the
     * bot's placement or, in the movement phase, its move. The placement or
     * move made is returned.
     */
    method BotMoveThreePiece(randomMove: bool, pick: nat, pickFrom: nat, pickTo: nat)
      returns (placement: Option<nat>, movement: Option<Move>)
      requires Valid()
      modifies this, board
      ensures Valid() && board == old(board)
      ensures placement.Some? ==> placement.value < 9 && old(Cells())[placement.value] == Empty
      ensures movement.Some? ==> Legal(old(Cells()), movement.value.from, movement.value.to, Bot)
      ensures Snapshot() == BotTurn(old(Snapshot()), placement, movement)
      ensures old(gameActive) && old(phase) == Placement && !randomMove ==>
                IsBestPlacement(old(Cells()), if placement.Some? then placement.value else -1)
      ensures old(gameActive) && old(phase) == Movement && !randomMove ==> IsBestBotMove(old(Cells()), movement)
    {
      placement, movement := None, None;
      if !gameActive {
        return;
      }
      if phase == Placement {
        placement := BotPlacement(randomMove, pick);
      } else {
        movement := BotMovement(randomMove, pickFrom, pickTo);
      }
    }

    /**
     * The placement branch of `botMoveThreePiece`: a cell chosen as in
     * `botMove` gets the current player's mark, the bot's counter goes up,
     * the result is checked and, unless the game ended, the turn passes to
     * the human, switching to the movement phase once both sides have
     * placed three pieces.
     */
    method BotPlacement(randomMove: bool, pick: nat) returns (placement: Option<nat>)
      requires Valid() && gameActive && phase == Placement
      modifies this, board
      ensures Valid() && board == old(board)
      ensures placement.Some? ==> placement.value < 9 && old(Cells())[placement.value] == Empty
      ensures Snapshot() == BotTurn(old(Snapshot()), placement, None)
      ensures !randomMove ==> IsBestPlacement(old(Cells()), if placement.Some? then placement.value else -1)
    {
      if randomMove {
        placement := RandomMove(board[..], pick);
      } else {
        var best := FindBestMove();
        placement := if best == -1 then None else Some(best);
      }
      if placement.None? {
        return;
      }
      PlaceBotMark(placement.value);
    }

    /** The placement branch of `botMoveThreePiece` once a cell is chosen: place, count, check, hand over. */
    method PlaceBotMark(cell: nat)
      requires Valid() && gameActive && phase == Placement && cell < 9
      modifies this, board
      ensures Valid() && board == old(board)
      ensures Snapshot() == BotTurn(old(Snapshot()), Some(cell), None)
    {
      board[cell] := currentPlayer;
      botPiecesPlaced := botPiecesPlaced + 1;
      var ended := CheckResult();
      if ended {
        return;
      }
      if humanPiecesPlaced >= MaxPieces && botPiecesPlaced >= MaxPieces {
        phase := Movement;
        currentPlayer := Human;
      } else {
        currentPlayer := Human;
      }
    }

    /**
     * The movement branch of `botMoveThreePiece`: the `findBestBotMove`
     * move is made, the result is checked and, unless the game ended, the
     * turn passes to the human.
     */
    method BotMovement(randomMove: bool, pickFrom: nat, pickTo: nat) returns (movement: Option<Move>)
      requires Valid() && gameActive && phase == Movement
      modifies this, board
      ensures Valid() && board == old(board)
      ensures movement.Some? ==> Legal(old(Cells()), movement.value.from, movement.value.to, Bot)
      ensures Snapshot() == BotTurn(old(Snapshot()), None, movement)
      ensures !randomMove ==> IsBestBotMove(old(Cells()), movement)
    {
      movement := FindBestBotMove(randomMove, pickFrom, pickTo);
      if movement.None? {
        return;
      }
      board[movement.value.from] := Empty;
      board[movement.value.to] := Bot;
      assert Cells() == Apply(old(Cells()), movement.value.from, movement.value.to, Bot);
      var ended := CheckResult();
      if ended {
        return;
      }
      currentPlayer := Human;
    }

    /** `restartGame`: a fresh empty board and the initial state, with no mode chosen. */
    method RestartGame()
      requires Valid()
      modifies this
      ensures Valid() && fresh(board)
      ensures Snapshot() == Initial
    {
      board := new Mark[9](_ => Empty);
      currentPlayer := Human;
      gameActive := true;
      humanPiecesPlaced := 0;
      botPiecesPlaced := 0;
      phase := Placement;
      selectedPiece := None;
      gameMode := NoMode;
      assert board[..] == EmptyBoard;
    }
  }
}
