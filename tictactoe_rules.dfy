/**
 * The game-flow rules of KrydsOgBolle as transitions of a game-state
 * value: the result check, the human's clicks and drops, piece movement,
 * the bot's turns, the placement-to-movement phase switch and restart.
 * The class `TicTacToe.Game` performs each transition in place and is
 * specified by these functions.
 */
module TicTacToeRules {
  import opened Wrappers
  import opened TicTacToeBoard
  import opened MovementSearch

  /** `gameMode`: null before a mode is chosen, then 'classic' or 'threePiece'. */
  datatype Mode = NoMode | Classic | ThreePiece

  /** `phase` of the three-piece variant. */
  datatype Phase = Placement | Movement

  /** `maxPieces`: each side places three pieces in the three-piece variant. */
  const MaxPieces: nat := 3

  /** The other player: X becomes O and anything else becomes X. */
  function Other(m: Mark): Mark
  {
    if m == X then O else X
  }

  /** How many cells hold mark m. */
  function Pieces(b: Board, m: Mark): nat
  {
    multiset(b)[m]
  }

  /** `getRandomMove`: an empty cell picked by the random index `pick`, or None (the source's `undefined`) on a full board. */
  function RandomMove(b: Board, pick: nat): (r: Option<nat>)
    ensures r.Some? <==> Empty in b
    ensures r.Some? ==> r.value < 9 && b[r.value] == Empty
  {
    var available := Indices(b, Empty);
    IndicesComplete(b, Empty);
    if |available| == 0 then None else Some(available[pick % |available|])
  }

  /** Whether `checkResult` ends the game on board b: a won line, or (classic mode only) a full board. */
  predicate Ends(b: Board, mode: Mode)
  {
    CheckWinner(b).Some? || (mode == Classic && Empty !in b)
  }

  /** The global state of the game script. */
  datatype State = State(
    board: Board,
    currentPlayer: Mark,
    gameActive: bool,
    gameMode: Mode,
    humanPiecesPlaced: nat,
    botPiecesPlaced: nat,
    phase: Phase,
    selectedPiece: Option<nat>)

  /**
   * The shape every state has: someone is to move, a selected piece is a
   * cell, and the movement phase is only entered once both sides have
   * placed their three pieces.
   */
  predicate WellFormed(s: State)
  {
    && s.currentPlayer != Empty
    && (s.selectedPiece.Some? ==> s.selectedPiece.value < 9)
    && (s.phase == Movement ==> s.humanPiecesPlaced >= MaxPieces && s.botPiecesPlaced >= MaxPieces)
  }

  /** The state on load and after `restartGame`: an empty board, X to move, no mode chosen. */
  const Initial: State := State(EmptyBoard, Human, true, NoMode, 0, 0, Placement, None)

  /** `startGame(mode)`: only the mode is recorded. */
  function Started(s: State, mode: Mode): (r: State)
    ensures r.gameMode == mode && r.(gameMode := s.gameMode) == s
  {
    s.(gameMode := mode)
  }

  /**
   * `checkResult`: a won line, or a full board in classic mode, ends the
   * game; otherwise the classic mode hands the turn to the other player.
   * Nothing else changes: the board, the mode, the phase, the counters and
   * the selection stay as they were.
   */
  function Checked(s: State): (r: State)
    requires WellFormed(s)
    ensures WellFormed(r)
    ensures r.(gameActive := s.gameActive, currentPlayer := s.currentPlayer) == s
    ensures r.gameActive == (s.gameActive && !Ends(s.board, s.gameMode))
    ensures r.currentPlayer != s.currentPlayer <==> !Ends(s.board, s.gameMode) && s.gameMode == Classic
    ensures !r.gameActive && s.gameActive && CheckWinner(s.board).None? ==> s.gameMode == Classic && Empty !in s.board
  {
    if Ends(s.board, s.gameMode) then s.(gameActive := false)
    else if s.gameMode == Classic then s.(currentPlayer := Other(s.currentPlayer))
    else s
  }

  /**
   * `movePiece(from, to)`: the mark on `from` goes to `to`, the selection
   * is cleared, and unless the result check ends the game the turn passes
   * to the other player.
   */
  function MovedPiece(s: State, from: nat, to: nat): (r: State)
    requires WellFormed(s) && from < 9 && to < 9
    ensures WellFormed(r)
    ensures r.board == Relocate(s.board, from, to) && r.selectedPiece == None
    ensures r.gameMode == s.gameMode && r.phase == s.phase
    ensures r.humanPiecesPlaced == s.humanPiecesPlaced && r.botPiecesPlaced == s.botPiecesPlaced
  {
    var moved := s.(board := Relocate(s.board, from, to), selectedPiece := None);
    var c := Checked(moved);
    if Ends(moved.board, moved.gameMode) then c
    else c.(currentPlayer := Other(c.currentPlayer))
  }

  /** `handleClassicClick(i)`: an occupied cell is ignored; otherwise the current player's mark goes on cell i and the result is checked. */
  function ClassicClick(s: State, i: nat): (r: State)
    requires WellFormed(s) && i < 9
    ensures WellFormed(r)
    ensures s.board[i] != Empty ==> r == s
    ensures s.board[i] == Empty ==>
              && r.board == s.board[i := s.currentPlayer]
              && r.gameActive == (s.gameActive && !Ends(r.board, s.gameMode))
              && (r.currentPlayer != s.currentPlayer <==> s.gameMode == Classic && !Ends(r.board, s.gameMode))
              && r.(board := s.board, gameActive := s.gameActive, currentPlayer := s.currentPlayer) == s
  {
    if s.board[i] != Empty then s
    else Checked(s.(board := s.board[i := s.currentPlayer]))
  }

  /**
   * `handleThreePieceClick(i)`. In the placement phase the current
   * player's mark goes on an empty cell, the human's counter goes up, and
   * unless the game ends the turn passes to the bot and the phase switches
   * to movement once both sides have placed three pieces. In the movement
   * phase a click on a human piece selects it, and a click on an empty
   * cell while a piece is selected moves that piece there.
   */
  function ThreePieceClick(s: State, i: nat): (r: State)
    requires WellFormed(s) && i < 9
    ensures WellFormed(r)
    ensures s.phase == Placement && s.board[i] != Empty ==> r == s
    ensures s.phase == Placement && s.board[i] == Empty ==>
              && r.board == s.board[i := s.currentPlayer]
              && r.humanPiecesPlaced == s.humanPiecesPlaced + 1 && r.botPiecesPlaced == s.botPiecesPlaced
              && r.gameActive == (s.gameActive && !Ends(r.board, s.gameMode))
              && r.gameMode == s.gameMode && r.selectedPiece == s.selectedPiece
              && (Ends(r.board, s.gameMode) ==> r.currentPlayer == s.currentPlayer && r.phase == Placement)
              && (!Ends(r.board, s.gameMode) ==>
                    && r.currentPlayer == Bot
                    && (r.phase == Movement <==> r.humanPiecesPlaced >= MaxPieces && r.botPiecesPlaced >= MaxPieces))
    ensures s.phase == Movement && s.board[i] == Human ==> r == s.(selectedPiece := Some(i))
    ensures s.phase == Movement && s.board[i] == Empty && s.selectedPiece.Some? ==> r == MovedPiece(s, s.selectedPiece.value, i)
    ensures s.phase == Movement && s.board[i] != Human && (s.board[i] != Empty || s.selectedPiece.None?) ==> r == s
  {
    if s.phase == Placement then
      if s.board[i] != Empty then s
      else
        var placed := s.(board := s.board[i := s.currentPlayer], humanPiecesPlaced := s.humanPiecesPlaced + 1);
        var c := Checked(placed);
        if Ends(placed.board, placed.gameMode) then c
        else if c.humanPiecesPlaced >= MaxPieces && c.botPiecesPlaced >= MaxPieces then c.(currentPlayer := Bot, phase := Movement)
        else c.(currentPlayer := Bot)
    else if s.board[i] == Human then s.(selectedPiece := Some(i))
    else if s.selectedPiece.Some? && s.board[i] == Empty then MovedPiece(s, s.selectedPiece.value, i)
    else s
  }

  /** `handleCellClick(i)`: ignored when the game is over or it is the bot's turn; otherwise dispatched on the mode (anything but classic takes the three-piece path). */
  function CellClick(s: State, i: nat): (r: State)
    requires WellFormed(s) && i < 9
    ensures WellFormed(r)
    ensures !s.gameActive || s.currentPlayer == Bot ==> r == s
  {
    if !s.gameActive || s.currentPlayer == Bot then s
    else if s.gameMode == Classic then ClassicClick(s, i)
    else ThreePieceClick(s, i)
  }

  /** `handleDragStart(i)`: in the movement phase, on the human's turn, a drag from a human piece selects it. */
  function DragStarted(s: State, i: nat): (r: State)
    requires WellFormed(s) && i < 9
    ensures WellFormed(r)
    ensures r.selectedPiece != s.selectedPiece ==> r.selectedPiece == Some(i) && s.board[i] == Human
    ensures r.(selectedPiece := s.selectedPiece) == s
  {
    if s.phase != Movement || s.currentPlayer != Human then s
    else if s.board[i] != Human then s
    else s.(selectedPiece := Some(i))
  }

  /**
   * `handleDrop(source, target)`: the human piece on `source` moves to an
   * empty `target`; any other drop (including an index off the board) is
   * ignored. The handler checks neither the phase nor whose turn it is.
   */
  function Dropped(s: State, source: nat, target: nat): (r: State)
    requires WellFormed(s)
    ensures WellFormed(r)
    ensures ValidDrop(s, source, target) ==> r == MovedPiece(s, source, target)
    ensures !ValidDrop(s, source, target) ==> r == s
  {
    if ValidDrop(s, source, target) then MovedPiece(s, source, target) else s
  }

  /** A drop `handleDrop` carries out: from a human piece onto an empty cell, both on the board. */
  predicate ValidDrop(s: State, source: nat, target: nat)
  {
    source < 9 && target < 9 && s.board[source] == Human && s.board[target] == Empty
  }

  /**
   * `botMove` (classic mode): nothing happens once the game is over;
   * otherwise the current player's mark goes on the chosen cell and the
   * result is checked. With no cell to play (a full board) the source
   * fails before changing any modelled state, so the state is unchanged.
   */
  function BotPlaced(s: State, move: Option<nat>): (r: State)
    requires WellFormed(s) && (move.Some? ==> move.value < 9)
    ensures WellFormed(r)
    ensures !s.gameActive || move.None? ==> r == s
    ensures s.gameActive && move.Some? ==>
              && r.board == s.board[move.value := s.currentPlayer]
              && r.gameActive == !Ends(r.board, s.gameMode)
              && (r.currentPlayer != s.currentPlayer <==> s.gameMode == Classic && !Ends(r.board, s.gameMode))
              && r.(board := s.board, gameActive := s.gameActive, currentPlayer := s.currentPlayer) == s
  {
    if !s.gameActive || move.None? then s
    else Checked(s.(board := s.board[move.value := s.currentPlayer]))
  }

  /**
   * `botMoveThreePiece`: nothing happens once the game is over. In the
   * placement phase the chosen cell (`placement`) gets the current
   * player's mark and the bot's counter goes up; unless the game ends, the
   * turn passes to the human and the phase switches to movement once both
   * sides have placed three pieces. In the movement phase the bot piece on
   * `movement.from` moves to `movement.to` and, unless the game ends, the
   * turn passes to the human. Without a move the state is unchanged.
   */
  function BotTurn(s: State, placement: Option<nat>, movement: Option<Move>): (r: State)
    requires WellFormed(s)
    requires placement.Some? ==> placement.value < 9
    requires movement.Some? ==> movement.value.from < 9 && movement.value.to < 9
    ensures WellFormed(r)
    ensures !s.gameActive ==> r == s
    ensures s.phase == Placement && placement.None? ==> r == s
    ensures s.phase == Movement && movement.None? ==> r == s
    ensures s.gameActive && s.phase == Placement && placement.Some? ==>
              && r.board == s.board[placement.value := s.currentPlayer]
              && r.botPiecesPlaced == s.botPiecesPlaced + 1 && r.humanPiecesPlaced == s.humanPiecesPlaced
              && r.gameActive == !Ends(r.board, s.gameMode)
              && r.gameMode == s.gameMode && r.selectedPiece == s.selectedPiece
              && (Ends(r.board, s.gameMode) ==> r.currentPlayer == s.currentPlayer && r.phase == Placement)
              && (!Ends(r.board, s.gameMode) ==>
                    && r.currentPlayer == Human
                    && (r.phase == Movement <==> r.humanPiecesPlaced >= MaxPieces && r.botPiecesPlaced >= MaxPieces))
    ensures s.gameActive && s.phase == Movement && movement.Some? ==>
              && r.board == Apply(s.board, movement.value.from, movement.value.to, Bot)
              && (s.board[movement.value.from] == Bot ==> r.board == Relocate(s.board, movement.value.from, movement.value.to))
              && r.gameActive == !Ends(r.board, s.gameMode)
              && (!Ends(r.board, s.gameMode) ==> r.currentPlayer == Human)
              && r.(board := s.board, gameActive := s.gameActive, currentPlayer := s.currentPlayer) == s
  {
    if !s.gameActive then s
    else if s.phase == Placement then
      if placement.None? then s
      else
        var placed := s.(board := s.board[placement.value := s.currentPlayer], botPiecesPlaced := s.botPiecesPlaced + 1);
        var c := Checked(placed);
        if Ends(placed.board, placed.gameMode) then c
        else if c.humanPiecesPlaced >= MaxPieces && c.botPiecesPlaced >= MaxPieces then c.(phase := Movement, currentPlayer := Human)
        else c.(currentPlayer := Human)
    else if movement.None? then s
    else
      var moved := s.(board := Apply(s.board, movement.value.from, movement.value.to, Bot));
      var c := Checked(moved);
      if Ends(moved.board, moved.gameMode) then c
      else c.(currentPlayer := Human)
  }

  /** Placing mark m on an empty cell adds one m and takes nothing from any other mark. */
  lemma PlaceCounts(b: Board, i: nat, m: Mark)
    requires i < 9 && b[i] == Empty && m != Empty
    ensures Pieces(b[i := m], m) == Pieces(b, m) + 1
    ensures forall n :: n != m && n != Empty ==> Pieces(b[i := m], n) == Pieces(b, n)
  {
  }

  /**
   * The bookkeeping of a game as it is played. The selected piece is
   * always one of the human's. Unless the mode is classic, the counters
   * equal the pieces each side has on the board, neither side has more
   * than three, and while the game is running in the placement phase the
   * human and the bot alternate: on the human's turn both have placed the
   * same number (fewer than three), on the bot's turn the human has placed
   * one more.
   */
  ghost predicate Consistent(s: State)
  {
    && WellFormed(s)
    && (s.selectedPiece.Some? ==> s.board[s.selectedPiece.value] == Human)
    && (s.gameMode != Classic ==>
         && Pieces(s.board, Human) == s.humanPiecesPlaced <= MaxPieces
         && Pieces(s.board, Bot) == s.botPiecesPlaced <= MaxPieces
         && (s.gameActive && s.phase == Placement && s.currentPlayer == Human ==>
               s.humanPiecesPlaced == s.botPiecesPlaced < MaxPieces)
         && (s.gameActive && s.phase == Placement && s.currentPlayer == Bot ==>
               s.humanPiecesPlaced == s.botPiecesPlaced + 1))
  }

  lemma InitialConsistent()
    ensures Consistent(Initial)
  {
    assert Pieces(Initial.board, Human) == 0 && Pieces(Initial.board, Bot) == 0;
  }

  /** Choosing a mode from the mode selector, which is only shown while no mode is chosen, keeps the bookkeeping. */
  lemma StartedConsistent(s: State, mode: Mode)
    requires Consistent(s) && s.gameMode == NoMode
    ensures Consistent(Started(s, mode))
  {
  }

  /** A human move relocates a human piece onto an empty cell and so keeps both piece counts. */
  lemma {:induction false} MovedPieceConsistent(s: State, from: nat, to: nat)
    requires Consistent(s) && s.phase == Movement
    requires from < 9 && to < 9 && s.board[from] == Human && s.board[to] == Empty
    ensures Consistent(MovedPiece(s, from, to))
  {
    RelocateMoves(s.board, from, to);
  }

  /**
   * Every click keeps the bookkeeping; in particular in the three-piece
   * variant the human never has more than three pieces on the board.
   */
  lemma {:induction false} CellClickConsistent(s: State, i: nat)
    requires Consistent(s) && i < 9
    ensures Consistent(CellClick(s, i))
  {
    if s.gameActive && s.currentPlayer != Bot && s.gameMode != Classic {
      if s.phase == Placement {
        if s.board[i] == Empty {
          PlaceCounts(s.board, i, Human);
        }
      } else if s.board[i] != Human && s.selectedPiece.Some? && s.board[i] == Empty {
        MovedPieceConsistent(s, s.selectedPiece.value, i);
      }
    } else if s.gameActive && s.currentPlayer != Bot && s.board[i] == Empty {
      var t := s.(board := s.board[i := s.currentPlayer]);
      assert s.selectedPiece.Some? ==> s.selectedPiece.value != i;
      assert Consistent(t);
    }
  }

  /** A drag can only start in the movement phase, so every drop that moves a piece keeps the bookkeeping. */
  lemma {:induction false} DroppedConsistent(s: State, source: nat, target: nat)
    requires Consistent(s) && s.phase == Movement
    ensures Consistent(Dropped(s, source, target))
  {
    if ValidDrop(s, source, target) {
      MovedPieceConsistent(s, source, target);
    }
  }

  lemma DragStartedConsistent(s: State, i: nat)
    requires Consistent(s) && i < 9
    ensures Consistent(DragStarted(s, i))
  {
  }

  /**
   * The classic bot move, which is only scheduled in classic mode, on an
   * empty cell keeps the bookkeeping.
   */
  lemma BotPlacedConsistent(s: State, move: Option<nat>)
    requires Consistent(s) && s.gameMode == Classic
    requires move.Some? ==> move.value < 9 && s.board[move.value] == Empty
    ensures Consistent(BotPlaced(s, move))
  {
  }

  /**
   * The three-piece bot turn, which is only scheduled on the bot's turn,
   * keeps the bookkeeping when it places on an empty cell or makes a legal
   * move: in particular the bot never has more than three pieces, and the
   * movement phase is entered with exactly three pieces on each side.
   */
  lemma {:induction false} BotTurnConsistent(s: State, placement: Option<nat>, movement: Option<Move>)
    requires Consistent(s) && s.currentPlayer == Bot
    requires placement.Some? ==> placement.value < 9 && s.board[placement.value] == Empty
    requires movement.Some? ==> Legal(s.board, movement.value.from, movement.value.to, Bot)
    ensures Consistent(BotTurn(s, placement, movement))
  {
    if s.gameActive {
      if s.phase == Placement {
        if placement.Some? {
          BotPlacementConsistent(s, placement.value);
        }
      } else if movement.Some? {
        BotMovementConsistent(s, movement.value);
      }
    }
  }

  /** The placement half of the bot turn: one more bot mark on an empty cell. */
  lemma BotPlacementConsistent(s: State, cell: nat)
    requires Consistent(s) && s.currentPlayer == Bot && s.gameActive && s.phase == Placement
    requires cell < 9 && s.board[cell] == Empty
    ensures Consistent(BotTurn(s, Some(cell), None))
  {
    PlaceCounts(s.board, cell, Bot);
    assert s.selectedPiece.Some? ==> s.selectedPiece.value != cell;
  }

  /** The movement half of the bot turn: a bot piece relocated onto an empty cell. */
  lemma BotMovementConsistent(s: State, m: Move)
    requires Consistent(s) && s.currentPlayer == Bot && s.gameActive && s.phase == Movement
    requires Legal(s.board, m.from, m.to, Bot)
    ensures Consistent(BotTurn(s, None, Some(m)))
  {
    RelocateMoves(s.board, m.from, m.to);
    assert Apply(s.board, m.from, m.to, Bot) == Relocate(s.board, m.from, m.to);
  }

  /** In the movement phase of the three-piece variant each side has exactly three pieces on the board. */
  lemma MovementThreeEach(s: State)
    requires Consistent(s) && s.gameMode != Classic && s.phase == Movement
    ensures Pieces(s.board, Human) == MaxPieces && Pieces(s.board, Bot) == MaxPieces
    ensures Pieces(s.board, Empty) == 3
  {
    assert |s.board| == multiset(s.board)[Empty] + multiset(s.board)[X] + multiset(s.board)[O] by {
      MarkTotal(s.board);
    }
  }

  /** Every cell holds one of the three marks, so the three counts add up to the nine cells. */
  lemma {:induction false} MarkTotal(b: seq<Mark>)
    ensures |b| == multiset(b)[Empty] + multiset(b)[X] + multiset(b)[O]
  {
    if b != [] {
      MarkTotal(b[1..]);
      assert b == [b[0]] + b[1..];
      assert multiset(b) == multiset{b[0]} + multiset(b[1..]);
      assert b[0] == Empty || b[0] == X || b[0] == O;
    }
  }
}
