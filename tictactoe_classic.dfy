/**
 * The classic (placement-only) search of the tic-tac-toe bot: full-depth
 * minimax with depth-adjusted scores, stated as functions over a board
 * value. The in-place search that computes it is `TicTacToe.Game.Minimax`.
 */
module ClassicSearch {
  import opened Wrappers
  import opened TicTacToeBoard

  /** Stand-ins for the search's `-Infinity` and `Infinity` seeds; every real score lies strictly between. */
  const NegInf: int := -1000
  const PosInf: int := 1000

  function Max(a: int, b: int): int { if a >= b then a else b }
  function Min(a: int, b: int): int { if a <= b then a else b }

  /** The mark the side to move places: the bot when maximizing, the human when minimizing. */
  function Mover(isMax: bool): Mark { if isMax then Bot else Human }

  /** The seed of the best score: `-Infinity` when maximizing, `Infinity` when minimizing. */
  function Seed(isMax: bool): int { if isMax then NegInf else PosInf }

  /** The better of two scores for the side to move. */
  function Better(isMax: bool, a: int, b: int): int { if isMax then Max(a, b) else Min(a, b) }

  /**
   * `minimax(board, depth, isMaximizing)`: a bot win scores 10 - depth, a
   * human win depth - 10, a full board 0; otherwise the best child score
   * over the empty cells in index order.
   */
  function Minimax(b: Board, depth: nat, isMax: bool): int
    decreases CountEmpty(b), 1, 0
  {
    var w := CheckWinner(b);
    if w == Some(Bot) then 10 - depth
    else if w == Some(Human) then depth - 10
    else if Empty !in b then 0
    else BestFrom(b, depth, isMax, 0, Seed(isMax))
  }

  /** The loop over cells i..8 of one `minimax` call, `best` being the score so far. */
  function BestFrom(b: Board, depth: nat, isMax: bool, i: nat, best: int): int
    requires i <= 9
    decreases CountEmpty(b), 0, 9 - i
  {
    if i == 9 then best
    else if b[i] == Empty then
      PlaceReducesEmpty(b, i, Mover(isMax));
      var score := Minimax(b[i := Mover(isMax)], depth + 1, !isMax);
      BestFrom(b, depth, isMax, i + 1, Better(isMax, score, best))
    else BestFrom(b, depth, isMax, i + 1, best)
  }

  /** The score `findBestMove` computes for placing the bot's mark on cell i. */
  function PlacementScore(b: Board, i: nat): int
    requires i < 9 && b[i] == Empty
  {
    Minimax(b[i := Bot], 0, false)
  }

  /**
   * What `findBestMove` returns: -1 exactly when no cell is empty; otherwise
   * an empty cell whose score is maximal, and strictly greater than that of
   * every empty cell before it (ties go to the lowest index).
   */
  ghost predicate IsBestPlacement(b: Board, r: int)
  {
    && (r == -1 <==> Empty !in b)
    && (r != -1 ==>
         && 0 <= r < 9 && b[r] == Empty
         && (forall j :: 0 <= j < 9 && b[j] == Empty ==> PlacementScore(b, j) <= PlacementScore(b, r))
         && (forall j :: 0 <= j < r && b[j] == Empty ==> PlacementScore(b, j) < PlacementScore(b, r)))
  }

  /** The state of `findBestMove`'s scan after cells 0..i-1: the best placement among them, if any. */
  ghost predicate PlacementsSoFar(b: Board, i: nat, bestMove: int, bestScore: int)
  {
    && i <= 9
    && (bestMove == -1 ==> bestScore == NegInf && forall j :: 0 <= j < i ==> b[j] != Empty)
    && (bestMove != -1 ==> 0 <= bestMove < i && b[bestMove] == Empty && bestScore == PlacementScore(b, bestMove))
    && (forall j :: 0 <= j < i && b[j] == Empty ==> PlacementScore(b, j) <= bestScore)
    && (bestMove != -1 ==> forall j :: 0 <= j < bestMove && b[j] == Empty ==> PlacementScore(b, j) < bestScore)
  }

  /** One step of the scan: an empty cell with a strictly greater score replaces the best, anything else leaves it. */
  lemma PlacementsStep(b: Board, i: nat, bestMove: int, bestScore: int, score: int)
    requires PlacementsSoFar(b, i, bestMove, bestScore) && i < 9
    requires b[i] == Empty ==> score == PlacementScore(b, i) && NegInf < score
    ensures b[i] == Empty && score > bestScore ==> PlacementsSoFar(b, i + 1, i, score)
    ensures !(b[i] == Empty && score > bestScore) ==> PlacementsSoFar(b, i + 1, bestMove, bestScore)
  {
  }

  /** The finished scan returns the best placement. */
  lemma PlacementsDone(b: Board, bestMove: int, bestScore: int)
    requires PlacementsSoFar(b, 9, bestMove, bestScore)
    ensures IsBestPlacement(b, bestMove)
  {
    if Empty in b {
      var j :| 0 <= j < 9 && b[j] == Empty;
    }
  }

  /** Folding child scores that all lie in [lo, hi] keeps the result in [lo, hi], provided one child exists or the seed is already in range. */
  lemma {:induction false} BestFromWithin(b: Board, depth: nat, isMax: bool, i: nat, best: int, lo: int, hi: int)
    requires i <= 9
    requires NegInf < lo <= hi < PosInf
    requires forall j :: i <= j < 9 && b[j] == Empty ==> lo <= Minimax(b[j := Mover(isMax)], depth + 1, !isMax) <= hi
    requires lo <= best <= hi || (best == Seed(isMax) && Empty in b[i..])
    ensures lo <= BestFrom(b, depth, isMax, i, best) <= hi
    decreases 9 - i
  {
    if i < 9 {
      if b[i] == Empty {
        BestFromWithin(b, depth, isMax, i + 1, Better(isMax, Minimax(b[i := Mover(isMax)], depth + 1, !isMax), best), lo, hi);
      } else {
        assert b[i..] == [b[i]] + b[i + 1..];
        BestFromWithin(b, depth, isMax, i + 1, best, lo, hi);
      }
    }
  }

  /**
   * Every `minimax` score at depth d lies in [d - 10, 10 - d], as long as
   * the depth plus the empty cells left does not exceed 10 (at the top of
   * `findBestMove` the depth is 0 and at most 8 cells are empty). In
   * particular every score lies in [-10, 10]. Without a winner yet, the
   * score lies one step further in, in [d - 9, 9 - d].
   */
  lemma {:induction false} MinimaxRange(b: Board, depth: nat, isMax: bool)
    requires depth + CountEmpty(b) <= 10
    ensures depth - 10 <= Minimax(b, depth, isMax) <= 10 - depth
    ensures CheckWinner(b).None? && Empty in b ==> depth - 9 <= Minimax(b, depth, isMax) <= 9 - depth
    decreases CountEmpty(b)
  {
    var w := CheckWinner(b);
    if w != Some(Bot) && w != Some(Human) && Empty in b {
      assert CountEmpty(b) >= 1;
      forall j | 0 <= j < 9 && b[j] == Empty
        ensures depth + 1 - 10 <= Minimax(b[j := Mover(isMax)], depth + 1, !isMax) <= 10 - depth - 1
      {
        PlaceReducesEmpty(b, j, Mover(isMax));
        MinimaxRange(b[j := Mover(isMax)], depth + 1, !isMax);
      }
      assert b[0..] == b;
      BestFromWithin(b, depth, isMax, 0, Seed(isMax), depth + 1 - 10, 10 - depth - 1);
    }
  }

  /** Placing the bot's mark on cell i wins at once. */
  predicate WinsAt(b: Board, i: nat)
    requires i < 9
  {
    b[i] == Empty && CheckWinner(b[i := Bot]) == Some(Bot)
  }

  /** A position after the bot's move scores 10 exactly when the bot has already won; otherwise at most 9. */
  lemma TopScoreTen(c: Board)
    requires CountEmpty(c) <= 10
    ensures Minimax(c, 0, false) <= 10
    ensures Minimax(c, 0, false) == 10 <==> CheckWinner(c) == Some(Bot)
  {
    MinimaxRange(c, 0, false);
  }

  /** A placement scores the maximum, 10, exactly when it wins at once; every other placement scores less. */
  lemma PlacementScoreTen(b: Board, i: nat)
    requires i < 9 && b[i] == Empty
    ensures PlacementScore(b, i) <= 10
    ensures PlacementScore(b, i) == 10 <==> WinsAt(b, i)
  {
    PlaceReducesEmpty(b, i, Bot);
    TopScoreTen(b[i := Bot]);
  }

  /**
   * Depth preference: when some placement wins at once, the move
   * `findBestMove` picks is the lowest-index cell that wins at once.
   */
  lemma ImmediateWinChosen(b: Board, r: int, i: nat)
    requires IsBestPlacement(b, r)
    requires i < 9 && WinsAt(b, i)
    ensures 0 <= r < 9 && WinsAt(b, r)
    ensures forall j :: 0 <= j < r ==> !WinsAt(b, j)
  {
    assert Empty in b by { assert b[i] == Empty; }
    PlacementScoreTen(b, i);
    PlacementScoreTen(b, r);
    forall j | 0 <= j < r
      ensures !WinsAt(b, j)
    {
      if b[j] == Empty {
        PlacementScoreTen(b, j);
      }
    }
  }
}
