/**
 * The movement-phase search of the three-piece variant: depth-limited
 * minimax with alpha-beta pruning over "slide one of the mover's pieces to
 * an empty cell" moves, stated as functions over a board value, together
 * with an unpruned reference search and the proof that, called with the
 * full window, the pruned search returns the unpruned value.
 */
module MovementSearch {
  import opened Wrappers
  import opened TicTacToeBoard
  import opened ClassicSearch

  /** The depth `findBestBotMove` searches each candidate move to. */
  const SearchDepth: nat := 4

  /** A trial move of the search: `board[from] = ''; board[to] = player`. */
  function Apply(b: Board, from: nat, to: nat, p: Mark): Board
    requires from < 9 && to < 9
  {
    b[from := Empty][to := p]
  }

  /** The search window and the best score so far (`maxEval`/`minEval`). */
  datatype Window = Window(alpha: int, beta: int, best: int)

  /** One child score folded in: the maximizer raises alpha, the minimizer lowers beta. */
  function Step(isMax: bool, st: Window, v: int): Window
  {
    if isMax then Window(Max(st.alpha, v), st.beta, Max(st.best, v))
    else Window(st.alpha, Min(st.beta, v), Min(st.best, v))
  }

  /** `minimaxMovement(board, depth, isMaximizing, alpha, beta)`. */
  function AlphaBeta(b: Board, depth: nat, isMax: bool, alpha: int, beta: int): int
    decreases depth, 2, 0
  {
    var w := CheckWinner(b);
    if w == Some(Bot) then 10
    else if w == Some(Human) then -10
    else if depth == 0 then EvaluateBoard(b)
    else ABRows(b, depth, isMax, 0, Window(alpha, beta, Seed(isMax))).best
  }

  /** The outer loop over the mover's pieces, from the i-th on. */
  function ABRows(b: Board, depth: nat, isMax: bool, i: nat, st: Window): Window
    requires 1 <= depth && i <= |Indices(b, Mover(isMax))|
    decreases depth, 1, |Indices(b, Mover(isMax))| - i
  {
    var P := Indices(b, Mover(isMax));
    if i == |P| then st
    else
      var st' := ABRow(b, depth, isMax, P[i], 0, st);
      if st'.beta <= st'.alpha then st' else ABRows(b, depth, isMax, i + 1, st')
  }

  /** The inner loop over the empty cells, from the j-th on, for the piece on `from`. */
  function ABRow(b: Board, depth: nat, isMax: bool, from: nat, j: nat, st: Window): Window
    requires 1 <= depth && from < 9 && j <= |Indices(b, Empty)|
    decreases depth, 0, |Indices(b, Empty)| - j
  {
    var E := Indices(b, Empty);
    if j == |E| then st
    else
      var v := AlphaBeta(Apply(b, from, E[j], Mover(isMax)), depth - 1, !isMax, st.alpha, st.beta);
      var st' := Step(isMax, st, v);
      if st'.beta <= st'.alpha then st' else ABRow(b, depth, isMax, from, j + 1, st')
  }

  /** One iteration of the inner loop, given the value v of the child position it searches. */
  lemma ABRowStep(b: Board, depth: nat, isMax: bool, from: nat, j: nat, st: Window, v: int)
    requires 1 <= depth && from < 9 && j < |Indices(b, Empty)|
    requires v == AlphaBeta(Apply(b, from, Indices(b, Empty)[j], Mover(isMax)), depth - 1, !isMax, st.alpha, st.beta)
    ensures var st' := Step(isMax, st, v);
            ABRow(b, depth, isMax, from, j, st) == if st'.beta <= st'.alpha then st' else ABRow(b, depth, isMax, from, j + 1, st')
  {
  }

  /** One iteration of the outer loop, given the window `row` the inner loop ends with. */
  lemma ABRowsStep(b: Board, depth: nat, isMax: bool, i: nat, st: Window, row: Window)
    requires 1 <= depth && i < |Indices(b, Mover(isMax))|
    requires row == ABRow(b, depth, isMax, Indices(b, Mover(isMax))[i], 0, st)
    ensures ABRows(b, depth, isMax, i, st) == if row.beta <= row.alpha then row else ABRows(b, depth, isMax, i + 1, row)
  {
  }

  /** The reference: the same depth-limited minimax, same leaves and same move order, without pruning. */
  function Plain(b: Board, depth: nat, isMax: bool): int
    decreases depth, 2, 0
  {
    var w := CheckWinner(b);
    if w == Some(Bot) then 10
    else if w == Some(Human) then -10
    else if depth == 0 then EvaluateBoard(b)
    else PlainRows(b, depth, isMax, 0, Seed(isMax))
  }

  function PlainRows(b: Board, depth: nat, isMax: bool, i: nat, acc: int): int
    requires 1 <= depth && i <= |Indices(b, Mover(isMax))|
    decreases depth, 1, |Indices(b, Mover(isMax))| - i
  {
    var P := Indices(b, Mover(isMax));
    if i == |P| then acc
    else PlainRows(b, depth, isMax, i + 1, PlainRow(b, depth, isMax, P[i], 0, acc))
  }

  function PlainRow(b: Board, depth: nat, isMax: bool, from: nat, j: nat, acc: int): int
    requires 1 <= depth && from < 9 && j <= |Indices(b, Empty)|
    decreases depth, 0, |Indices(b, Empty)| - j
  {
    var E := Indices(b, Empty);
    if j == |E| then acc
    else
      var c := Plain(Apply(b, from, E[j], Mover(isMax)), depth - 1, !isMax);
      PlainRow(b, depth, isMax, from, j + 1, Better(isMax, acc, c))
  }

  /** r is at least as good as acc for the side to move. */
  predicate Improves(isMax: bool, acc: int, r: int)
  {
    if isMax then acc <= r else r <= acc
  }

  lemma {:induction false} PlainRowImproves(b: Board, depth: nat, isMax: bool, from: nat, j: nat, acc: int)
    requires 1 <= depth && from < 9 && j <= |Indices(b, Empty)|
    ensures Improves(isMax, acc, PlainRow(b, depth, isMax, from, j, acc))
    decreases |Indices(b, Empty)| - j
  {
    var E := Indices(b, Empty);
    if j < |E| {
      var c := Plain(Apply(b, from, E[j], Mover(isMax)), depth - 1, !isMax);
      PlainRowImproves(b, depth, isMax, from, j + 1, Better(isMax, acc, c));
    }
  }

  lemma {:induction false} PlainRowsImproves(b: Board, depth: nat, isMax: bool, i: nat, acc: int)
    requires 1 <= depth && i <= |Indices(b, Mover(isMax))|
    ensures Improves(isMax, acc, PlainRows(b, depth, isMax, i, acc))
    decreases |Indices(b, Mover(isMax))| - i
  {
    var P := Indices(b, Mover(isMax));
    if i < |P| {
      var acc' := PlainRow(b, depth, isMax, P[i], 0, acc);
      PlainRowImproves(b, depth, isMax, P[i], 0, acc);
      PlainRowsImproves(b, depth, isMax, i + 1, acc');
    }
  }

  /**
   * The fail-soft alpha-beta guarantee: with v the unpruned value and r the
   * pruned one, r is exact inside the window, an upper bound on v at or
   * below alpha, and a lower bound on v at or above beta.
   */
  ghost predicate Bounded(v: int, r: int, alpha: int, beta: int)
  {
    && (v <= alpha ==> v <= r <= alpha)
    && (beta <= v ==> beta <= r <= v)
    && (alpha < v < beta ==> r == v)
  }

  /** The state of a maximizing node that has not been cut off yet, against the unpruned score m0 of the same moves. */
  ghost predicate MaxInv(alpha0: int, beta: int, st: Window, m0: int)
  {
    && st.beta == beta && st.alpha == Max(alpha0, st.best) && st.alpha < beta
    && m0 <= st.best && (st.best > alpha0 ==> m0 == st.best)
  }

  /** The same for a minimizing node. */
  ghost predicate MinInv(alpha: int, beta0: int, st: Window, m0: int)
  {
    && st.alpha == alpha && st.beta == Min(beta0, st.best) && alpha < st.beta
    && st.best <= m0 && (st.best < beta0 ==> m0 == st.best)
  }

  /** Called with any window inside [NegInf, PosInf], the pruned search is bounded by the unpruned one. */
  lemma {:induction false} AlphaBetaBounded(b: Board, depth: nat, isMax: bool, alpha: int, beta: int)
    requires NegInf <= alpha < beta <= PosInf
    ensures Bounded(Plain(b, depth, isMax), AlphaBeta(b, depth, isMax, alpha, beta), alpha, beta)
    decreases depth, 2, 0
  {
    var w := CheckWinner(b);
    if w != Some(Bot) && w != Some(Human) && depth != 0 {
      if isMax {
        MaxRowsBounded(b, depth, 0, alpha, beta, Window(alpha, beta, NegInf), NegInf);
      } else {
        MinRowsBounded(b, depth, 0, alpha, beta, Window(alpha, beta, PosInf), PosInf);
      }
    }
  }

  lemma {:induction false} MaxRowBounded(b: Board, depth: nat, from: nat, j: nat, alpha0: int, beta: int, st: Window, m0: int)
    requires 1 <= depth && from < 9 && j <= |Indices(b, Empty)|
    requires NegInf <= alpha0 < beta <= PosInf
    requires MaxInv(alpha0, beta, st, m0)
    ensures var fin := ABRow(b, depth, true, from, j, st);
            var v := PlainRow(b, depth, true, from, j, m0);
            (fin.beta <= fin.alpha ==> beta <= fin.best <= v) && (fin.alpha < fin.beta ==> MaxInv(alpha0, beta, fin, v))
    decreases depth, 0, |Indices(b, Empty)| - j
  {
    var E := Indices(b, Empty);
    if j < |E| {
      var child := Apply(b, from, E[j], Bot);
      var c := Plain(child, depth - 1, false);
      var r := AlphaBeta(child, depth - 1, false, st.alpha, st.beta);
      AlphaBetaBounded(child, depth - 1, false, st.alpha, st.beta);
      var st' := Step(true, st, r);
      var m0' := Better(true, m0, c);
      assert ABRow(b, depth, true, from, j, st) == if st'.beta <= st'.alpha then st' else ABRow(b, depth, true, from, j + 1, st');
      assert PlainRow(b, depth, true, from, j, m0) == PlainRow(b, depth, true, from, j + 1, m0');
      if st'.beta <= st'.alpha {
        assert beta <= r <= c;
        assert st'.best == r;
        PlainRowImproves(b, depth, true, from, j + 1, m0');
      } else {
        assert c <= r && (r > st.alpha ==> c == r);
        MaxRowBounded(b, depth, from, j + 1, alpha0, beta, st', m0');
      }
    }
  }

  lemma {:induction false} MaxRowsBounded(b: Board, depth: nat, i: nat, alpha0: int, beta: int, st: Window, m0: int)
    requires 1 <= depth && i <= |Indices(b, Bot)|
    requires NegInf <= alpha0 < beta <= PosInf
    requires MaxInv(alpha0, beta, st, m0)
    ensures Bounded(PlainRows(b, depth, true, i, m0), ABRows(b, depth, true, i, st).best, alpha0, beta)
    decreases depth, 1, |Indices(b, Bot)| - i
  {
    var P := Indices(b, Bot);
    if i < |P| {
      var st' := ABRow(b, depth, true, P[i], 0, st);
      var m0' := PlainRow(b, depth, true, P[i], 0, m0);
      MaxRowBounded(b, depth, P[i], 0, alpha0, beta, st, m0);
      if st'.beta <= st'.alpha {
        PlainRowsImproves(b, depth, true, i + 1, m0');
      } else {
        MaxRowsBounded(b, depth, i + 1, alpha0, beta, st', m0');
      }
    }
  }

  lemma {:induction false} MinRowBounded(b: Board, depth: nat, from: nat, j: nat, alpha: int, beta0: int, st: Window, m0: int)
    requires 1 <= depth && from < 9 && j <= |Indices(b, Empty)|
    requires NegInf <= alpha < beta0 <= PosInf
    requires MinInv(alpha, beta0, st, m0)
    ensures var fin := ABRow(b, depth, false, from, j, st);
            var v := PlainRow(b, depth, false, from, j, m0);
            (fin.beta <= fin.alpha ==> v <= fin.best <= alpha) && (fin.alpha < fin.beta ==> MinInv(alpha, beta0, fin, v))
    decreases depth, 0, |Indices(b, Empty)| - j
  {
    var E := Indices(b, Empty);
    if j < |E| {
      var child := Apply(b, from, E[j], Human);
      var c := Plain(child, depth - 1, true);
      var r := AlphaBeta(child, depth - 1, true, st.alpha, st.beta);
      AlphaBetaBounded(child, depth - 1, true, st.alpha, st.beta);
      var st' := Step(false, st, r);
      var m0' := Better(false, m0, c);
      if st'.beta <= st'.alpha {
        PlainRowImproves(b, depth, false, from, j + 1, m0');
      } else {
        MinRowBounded(b, depth, from, j + 1, alpha, beta0, st', m0');
      }
    }
  }

  lemma {:induction false} MinRowsBounded(b: Board, depth: nat, i: nat, alpha: int, beta0: int, st: Window, m0: int)
    requires 1 <= depth && i <= |Indices(b, Human)|
    requires NegInf <= alpha < beta0 <= PosInf
    requires MinInv(alpha, beta0, st, m0)
    ensures Bounded(PlainRows(b, depth, false, i, m0), ABRows(b, depth, false, i, st).best, alpha, beta0)
    decreases depth, 1, |Indices(b, Human)| - i
  {
    var P := Indices(b, Human);
    if i < |P| {
      var st' := ABRow(b, depth, false, P[i], 0, st);
      var m0' := PlainRow(b, depth, false, P[i], 0, m0);
      MinRowBounded(b, depth, P[i], 0, alpha, beta0, st, m0);
      if st'.beta <= st'.alpha {
        PlainRowsImproves(b, depth, false, i + 1, m0');
      } else {
        MinRowsBounded(b, depth, i + 1, alpha, beta0, st', m0');
      }
    }
  }

  /** Every unpruned score lies in [NegInf, PosInf] (the sentinels are reached only when the mover has no move). */
  lemma {:induction false} PlainRange(b: Board, depth: nat, isMax: bool)
    ensures NegInf <= Plain(b, depth, isMax) <= PosInf
    decreases depth, 2, 0
  {
    var w := CheckWinner(b);
    if w != Some(Bot) && w != Some(Human) && depth != 0 {
      PlainRowsRange(b, depth, isMax, 0, Seed(isMax));
    }
  }

  lemma {:induction false} PlainRowsRange(b: Board, depth: nat, isMax: bool, i: nat, acc: int)
    requires 1 <= depth && i <= |Indices(b, Mover(isMax))|
    requires NegInf <= acc <= PosInf
    ensures NegInf <= PlainRows(b, depth, isMax, i, acc) <= PosInf
    decreases depth, 1, |Indices(b, Mover(isMax))| - i
  {
    var P := Indices(b, Mover(isMax));
    if i < |P| {
      PlainRowRange(b, depth, isMax, P[i], 0, acc);
      PlainRowsRange(b, depth, isMax, i + 1, PlainRow(b, depth, isMax, P[i], 0, acc));
    }
  }

  lemma {:induction false} PlainRowRange(b: Board, depth: nat, isMax: bool, from: nat, j: nat, acc: int)
    requires 1 <= depth && from < 9 && j <= |Indices(b, Empty)|
    requires NegInf <= acc <= PosInf
    ensures NegInf <= PlainRow(b, depth, isMax, from, j, acc) <= PosInf
    decreases depth, 0, |Indices(b, Empty)| - j
  {
    var E := Indices(b, Empty);
    if j < |E| {
      var c := Plain(Apply(b, from, E[j], Mover(isMax)), depth - 1, !isMax);
      PlainRange(Apply(b, from, E[j], Mover(isMax)), depth - 1, !isMax);
      PlainRowRange(b, depth, isMax, from, j + 1, Better(isMax, acc, c));
    }
  }

  /**
   * Pruning only skips work: called with the full window, as
   * `findBestBotMove` calls it, the alpha-beta search returns exactly the
   * unpruned depth-limited minimax value.
   */
  lemma AlphaBetaFullWindow(b: Board, depth: nat, isMax: bool)
    ensures AlphaBeta(b, depth, isMax, NegInf, PosInf) == Plain(b, depth, isMax)
  {
    AlphaBetaBounded(b, depth, isMax, NegInf, PosInf);
    PlainRange(b, depth, isMax);
  }

  /** A bot move: the source cell and the target cell. */
  datatype Move = Move(from: nat, to: nat)

  /** Moving p's piece from `from` to `to` is allowed: the source holds p and the target is empty. */
  predicate Legal(b: Board, from: nat, to: nat, p: Mark)
  {
    from < 9 && to < 9 && b[from] == p && b[to] == Empty
  }

  /** The order `findBestBotMove` tries moves in: by source cell, then by target cell. */
  predicate Before(f: nat, t: nat, f2: nat, t2: nat)
  {
    f < f2 || (f == f2 && t < t2)
  }

  /** The score `findBestBotMove` gives the bot's move from -> to. */
  function MoveScore(b: Board, from: nat, to: nat): int
    requires from < 9 && to < 9
  {
    AlphaBeta(Apply(b, from, to, Bot), SearchDepth, false, NegInf, PosInf)
  }

  /** The score of every bot move is the unpruned depth-4 minimax value of the position it leads to. */
  lemma MoveScoreIsMinimax(b: Board, from: nat, to: nat)
    requires from < 9 && to < 9
    ensures MoveScore(b, from, to) == Plain(Apply(b, from, to, Bot), SearchDepth, false)
    ensures NegInf <= MoveScore(b, from, to) <= PosInf
  {
    AlphaBetaFullWindow(Apply(b, from, to, Bot), SearchDepth, false);
    PlainRange(Apply(b, from, to, Bot), SearchDepth, false);
  }

  /**
   * What the search part of `findBestBotMove` returns: no move when no
   * legal move scores above `-Infinity`; otherwise a legal move whose score
   * is maximal and strictly greater than that of every legal move tried
   * before it.
   */
  ghost predicate IsBestBotMove(b: Board, m: Option<Move>)
  {
    match m
    case None => forall f, t :: Legal(b, f, t, Bot) ==> MoveScore(b, f, t) <= NegInf
    case Some(mv) =>
      && Legal(b, mv.from, mv.to, Bot) && NegInf < MoveScore(b, mv.from, mv.to)
      && (forall f, t :: Legal(b, f, t, Bot) ==> MoveScore(b, f, t) <= MoveScore(b, mv.from, mv.to))
      && (forall f, t :: Legal(b, f, t, Bot) && Before(f, t, mv.from, mv.to) ==> MoveScore(b, f, t) < MoveScore(b, mv.from, mv.to))
  }

  /**
   * The state of the scan in `findBestBotMove` after trying the moves in
   * `tried`: the kept move is one of them with score `best` above
   * `-Infinity` (or there is none and `best` is `-Infinity`), no tried
   * move scores more, and every tried move that comes before the kept one
   * scores strictly less.
   */
  ghost predicate BestSoFar(b: Board, tried: set<Move>, m: Option<Move>, best: int)
  {
    && (forall mv :: mv in tried ==> Legal(b, mv.from, mv.to, Bot))
    && (m.None? ==> best == NegInf)
    && (m.Some? ==> m.value in tried && NegInf < best)
    && (forall mv :: mv in tried ==> MoveScore(b, mv.from, mv.to) <= best)
    && (m.Some? ==> best == MoveScore(b, m.value.from, m.value.to))
    && (m.Some? ==> forall mv :: mv in tried && Before(mv.from, mv.to, m.value.from, m.value.to) ==> MoveScore(b, mv.from, mv.to) < best)
  }

  /** Trying one more move, later than all tried ones, and keeping it only when it scores strictly more keeps `BestSoFar`. */
  lemma BestSoFarStep(b: Board, tried: set<Move>, m: Option<Move>, best: int, mv: Move)
    requires BestSoFar(b, tried, m, best) && Legal(b, mv.from, mv.to, Bot)
    requires forall t :: t in tried ==> Before(t.from, t.to, mv.from, mv.to)
    ensures var score := MoveScore(b, mv.from, mv.to);
            if score > best then BestSoFar(b, tried + {mv}, Some(mv), score)
            else BestSoFar(b, tried + {mv}, m, best)
  {
    var score := MoveScore(b, mv.from, mv.to);
    if score <= best && m.Some? {
      assert Before(m.value.from, m.value.to, mv.from, mv.to);
      assert !Before(mv.from, mv.to, m.value.from, m.value.to);
    }
  }

  /** The moves `findBestBotMove` has tried: every move from one of `froms` to one of `tos`. */
  ghost predicate TriedFrom(tried: set<Move>, froms: seq<nat>, tos: seq<nat>)
  {
    forall mv :: mv in tried <==> mv.from in froms && mv.to in tos
  }

  /** Trying every move from the next source cell extends the tried set to one more source. */
  lemma TriedFromStep(tried0: set<Move>, tried: set<Move>, froms: seq<nat>, from: nat, tos: seq<nat>)
    requires TriedFrom(tried0, froms, tos)
    requires forall mv :: mv in tried <==> mv in tried0 || (mv.from == from && mv.to in tos)
    ensures TriedFrom(tried, froms + [from], tos)
  {
  }

  /** Once every bot cell has been a source and every empty cell a target, every legal bot move was tried. */
  lemma TriedFromAll(b: Board, tried: set<Move>)
    requires TriedFrom(tried, Indices(b, Bot), Indices(b, Empty))
    ensures forall f, t :: Legal(b, f, t, Bot) ==> Move(f, t) in tried
  {
    IndicesComplete(b, Bot);
    IndicesComplete(b, Empty);
  }

  /** Once every legal move has been tried, the kept move is the one `IsBestBotMove` describes. */
  lemma BestSoFarComplete(b: Board, tried: set<Move>, m: Option<Move>, best: int)
    requires BestSoFar(b, tried, m, best)
    requires forall f, t :: Legal(b, f, t, Bot) ==> Move(f, t) in tried
    ensures IsBestBotMove(b, m)
  {
    forall f, t | Legal(b, f, t, Bot)
      ensures MoveScore(b, f, t) <= best
    {
      assert Move(f, t) in tried;
    }
  }
}
