/**
 * The 3x3 board of the tic-tac-toe game (KrydsOgBolle): cells, the eight
 * win lines, the winner check, the line-count heuristic and the index
 * scans the search uses to enumerate moves.
 */
module TicTacToeBoard {
  import opened Wrappers

  /** A cell: the empty string, or one of the two marks. */
  datatype Mark = Empty | X | O

  /** The human always plays X and the bot always plays O. */
  const Human: Mark := X
  const Bot: Mark := O

  type Board = b: seq<Mark> | |b| == 9 witness [Empty, Empty, Empty, Empty, Empty, Empty, Empty, Empty, Empty]

  const EmptyBoard: Board := [Empty, Empty, Empty, Empty, Empty, Empty, Empty, Empty, Empty]

  /** The eight winning triples, in the order the game scans them: rows, columns, diagonals. */
  function WinLine(k: nat): (l: (nat, nat, nat))
    requires k < 8
    ensures l.0 < 9 && l.1 < 9 && l.2 < 9
    ensures l.0 != l.1 && l.1 != l.2 && l.0 != l.2
  {
    if k == 0 then (0, 1, 2)
    else if k == 1 then (3, 4, 5)
    else if k == 2 then (6, 7, 8)
    else if k == 3 then (0, 3, 6)
    else if k == 4 then (1, 4, 7)
    else if k == 5 then (2, 5, 8)
    else if k == 6 then (0, 4, 8)
    else (2, 4, 6)
  }

  /** Line k holds three equal, non-empty marks. */
  predicate LineWon(b: Board, k: nat)
    requires k < 8
  {
    var (p, q, r) := WinLine(k);
    b[p] != Empty && b[p] == b[q] && b[p] == b[r]
  }

  /** The mark on line k (meaningful when the line is won). */
  function LineOwner(b: Board, k: nat): Mark
    requires k < 8
  {
    b[WinLine(k).0]
  }

  /**
   * The scan of `checkWinner` from line k on. Like the other scans below,
   * it names the board in its decreases clause, so that a scan started at
   * a literal index is unfolded on demand rather than all at once.
   */
  function WinnerFrom(b: Board, k: nat): (w: Option<Mark>)
    requires k <= 8
    decreases 8 - k, b
  {
    if k == 8 then None
    else if LineWon(b, k) then Some(LineOwner(b, k))
    else WinnerFrom(b, k + 1)
  }

  lemma {:induction false} WinnerFromFirst(b: Board, k: nat)
    requires k <= 8
    ensures WinnerFrom(b, k).None? <==> forall j :: k <= j < 8 ==> !LineWon(b, j)
    ensures WinnerFrom(b, k).Some? ==>
      exists j :: k <= j < 8 && LineWon(b, j) && LineOwner(b, j) == WinnerFrom(b, k).value &&
        forall i :: k <= i < j ==> !LineWon(b, i)
    decreases 8 - k
  {
    if k < 8 && !LineWon(b, k) {
      WinnerFromFirst(b, k + 1);
      if WinnerFrom(b, k).Some? {
        var j :| k + 1 <= j < 8 && LineWon(b, j) && LineOwner(b, j) == WinnerFrom(b, k).value &&
          forall i :: k + 1 <= i < j ==> !LineWon(b, i);
        assert forall i :: k <= i < j ==> !LineWon(b, i);
      }
    }
  }

  /**
   * `checkWinner`: the mark on the first of the eight lines whose three
   * cells are equal and non-empty, or None.
   */
  function CheckWinner(b: Board): (w: Option<Mark>)
    ensures w.None? <==> forall k :: 0 <= k < 8 ==> !LineWon(b, k)
    ensures w.Some? ==> w.value != Empty
    ensures w.Some? ==>
      exists k :: 0 <= k < 8 && LineWon(b, k) && LineOwner(b, k) == w.value &&
        forall j :: 0 <= j < k ==> !LineWon(b, j)
  {
    WinnerFromFirst(b, 0);
    WinnerFrom(b, 0)
  }

  function Count(p: Mark, q: Mark, r: Mark, m: Mark): nat
  {
    (if p == m then 1 else 0) + (if q == m then 1 else 0) + (if r == m then 1 else 0)
  }

  /** The contribution of line k to `evaluateBoard`. */
  function LineScore(b: Board, k: nat): int
    requires k < 8
  {
    var (p, q, r) := WinLine(k);
    var bots := Count(b[p], b[q], b[r], Bot);
    var humans := Count(b[p], b[q], b[r], Human);
    var empties := Count(b[p], b[q], b[r], Empty);
    (if bots == 2 && empties == 1 then 3 else 0)
    - (if humans == 2 && empties == 1 then 3 else 0)
    + (if bots == 1 && empties == 2 then 1 else 0)
    - (if humans == 1 && empties == 2 then 1 else 0)
  }

  /** The sum of the line scores of lines k..7; each line adds at most 3 in either direction. */
  function LineScoresFrom(b: Board, k: nat): (s: int)
    requires k <= 8
    ensures -3 * (8 - k) <= s <= 3 * (8 - k)
    decreases 8 - k, b
  {
    if k == 8 then 0 else LineScore(b, k) + LineScoresFrom(b, k + 1)
  }

  function CenterBonus(b: Board): int
  {
    if b[4] == Bot then 2 else if b[4] == Human then -2 else 0
  }

  /**
   * `evaluateBoard`: +3/-3 per line two-thirds held by the bot/human with
   * the third cell empty, +1/-1 per line one-third held with two empty
   * cells, and +2/-2 for the centre.
   */
  function EvaluateBoard(b: Board): (s: int)
    ensures -26 <= s <= 26
  {
    LineScoresFrom(b, 0) + CenterBonus(b)
  }

  function SwapMark(m: Mark): Mark
  {
    match m
    case Empty => Empty
    case X => O
    case O => X
  }

  /** The board with every X and O exchanged. */
  function Swap(b: Board): (s: Board)
    ensures forall i :: 0 <= i < 9 ==> s[i] == SwapMark(b[i])
  {
    seq(9, i requires 0 <= i < 9 => SwapMark(b[i]))
  }

  lemma CountSwap(p: Mark, q: Mark, r: Mark, m: Mark)
    ensures Count(SwapMark(p), SwapMark(q), SwapMark(r), SwapMark(m)) == Count(p, q, r, m)
  {
  }

  lemma LineScoreSwap(b: Board, k: nat)
    requires k < 8
    ensures LineScore(Swap(b), k) == -LineScore(b, k)
  {
    var (p, q, r) := WinLine(k);
    var s := Swap(b);
    assert s[p] == SwapMark(b[p]) && s[q] == SwapMark(b[q]) && s[r] == SwapMark(b[r]);
    CountSwap(b[p], b[q], b[r], Bot);
    CountSwap(b[p], b[q], b[r], Human);
    CountSwap(b[p], b[q], b[r], Empty);
  }

  lemma {:induction false} LineScoresSwap(b: Board, k: nat)
    requires k <= 8
    ensures LineScoresFrom(Swap(b), k) == -LineScoresFrom(b, k)
    decreases 8 - k
  {
    if k < 8 {
      LineScoresSwap(b, k + 1);
      LineScoreSwap(b, k);
    }
  }

  /** Exchanging X and O negates the heuristic. */
  lemma EvaluateSwap(b: Board)
    ensures EvaluateBoard(Swap(b)) == -EvaluateBoard(b)
  {
    LineScoresSwap(b, 0);
  }

  /** Exchanging X and O exchanges the winner. */
  lemma WinnerSwap(b: Board)
    ensures CheckWinner(Swap(b)) == if CheckWinner(b).Some? then Some(SwapMark(CheckWinner(b).value)) else None
  {
    var s := Swap(b);
    forall k | 0 <= k < 8
      ensures LineWon(s, k) == LineWon(b, k) && LineOwner(s, k) == SwapMark(LineOwner(b, k))
    {
      var (p, q, r) := WinLine(k);
      assert s[p] == SwapMark(b[p]) && s[q] == SwapMark(b[q]) && s[r] == SwapMark(b[r]);
    }
    WinnerFromSwap(b, 0);
  }

  lemma {:induction false} WinnerFromSwap(b: Board, k: nat)
    requires k <= 8
    requires forall j :: 0 <= j < 8 ==> LineWon(Swap(b), j) == LineWon(b, j) && LineOwner(Swap(b), j) == SwapMark(LineOwner(b, j))
    ensures WinnerFrom(Swap(b), k) == if WinnerFrom(b, k).Some? then Some(SwapMark(WinnerFrom(b, k).value)) else None
    decreases 8 - k
  {
    if k < 8 {
      WinnerFromSwap(b, k + 1);
    }
  }

  /** The indices below n whose cell holds m, in ascending order (the scans `for (i = 0; i < 9; i++) if (board[i] === m) push(i)`). */
  function IndicesBelow(b: Board, m: Mark, n: nat): (r: seq<nat>)
    requires n <= 9
    ensures forall k :: 0 <= k < |r| ==> r[k] < n && b[r[k]] == m
    decreases n, b
  {
    if n == 0 then [] else IndicesBelow(b, m, n - 1) + (if b[n - 1] == m then [n - 1] else [])
  }

  /** The scan misses no cell below n that holds m. */
  lemma {:induction false} IndicesBelowComplete(b: Board, m: Mark, n: nat)
    requires n <= 9
    ensures forall i :: 0 <= i < n && b[i] == m ==> i in IndicesBelow(b, m, n)
  {
    if n > 0 {
      IndicesBelowComplete(b, m, n - 1);
    }
  }

  /** The scan lists its cells in strictly ascending order. */
  lemma {:induction false} IndicesBelowAscending(b: Board, m: Mark, n: nat)
    requires n <= 9
    ensures forall k, l :: 0 <= k < l < |IndicesBelow(b, m, n)| ==> IndicesBelow(b, m, n)[k] < IndicesBelow(b, m, n)[l]
  {
    if n > 0 {
      IndicesBelowAscending(b, m, n - 1);
      var prefix := IndicesBelow(b, m, n - 1);
      var tail: seq<nat> := if b[n - 1] == m then [n - 1] else [];
      var r := prefix + tail;
      assert r == IndicesBelow(b, m, n);
      forall k, l | 0 <= k < l < |r|
        ensures r[k] < r[l]
      {
        if l >= |prefix| {
          assert r[l] == n - 1 && r[k] == prefix[k];
        } else {
          assert r[k] == prefix[k] && r[l] == prefix[l];
        }
      }
    }
  }

  /** All indices whose cell holds m, ascending. */
  function Indices(b: Board, m: Mark): (r: seq<nat>)
    ensures forall k :: 0 <= k < |r| ==> r[k] < 9 && b[r[k]] == m
  {
    IndicesBelow(b, m, 9)
  }

  /** A cell is listed by `Indices` exactly when it holds m. */
  lemma IndicesComplete(b: Board, m: Mark)
    ensures forall i :: 0 <= i < 9 ==> (b[i] == m <==> i in Indices(b, m))
  {
    IndicesBelowComplete(b, m, 9);
  }

  /** `Indices` lists the cells in strictly ascending order. */
  lemma IndicesAscending(b: Board, m: Mark)
    ensures forall k, l :: 0 <= k < l < |Indices(b, m)| ==> Indices(b, m)[k] < Indices(b, m)[l]
  {
    IndicesBelowAscending(b, m, 9);
    assert Indices(b, m) == IndicesBelow(b, m, 9);
  }

  /** In an ascending sequence every element before position i is smaller than the i-th. */
  lemma AscendingPrefix(s: seq<nat>, i: nat)
    requires forall k, l :: 0 <= k < l < |s| ==> s[k] < s[l]
    requires i < |s|
    ensures forall x :: x in s[..i] ==> x < s[i]
  {
    forall x | x in s[..i]
      ensures x < s[i]
    {
      var k :| 0 <= k < i && s[..i][k] == x;
    }
  }

  /** The number of empty cells. */
  function CountEmpty(b: Board): nat
  {
    multiset(b)[Empty]
  }

  lemma PlaceReducesEmpty(b: Board, i: nat, m: Mark)
    requires i < 9 && b[i] == Empty && m != Empty
    ensures CountEmpty(b[i := m]) == CountEmpty(b) - 1
  {
  }

  /** `movePiece`: read the mark at `from`, empty `from`, then write the mark at `to`. */
  function Relocate(b: Board, from: nat, to: nat): (r: Board)
    requires from < 9 && to < 9
    ensures r[to] == b[from] && (from != to ==> r[from] == Empty)
    ensures forall i :: 0 <= i < 9 && i != from && i != to ==> r[i] == b[i]
  {
    var player := b[from];
    b[from := Empty][to := player]
  }

  /**
   * A relocation from an occupied cell to an empty one moves the mark,
   * empties the source, leaves every other cell alone and keeps each side's
   * piece count (the multiset of marks) unchanged.
   */
  lemma RelocateMoves(b: Board, from: nat, to: nat)
    requires from < 9 && to < 9
    requires b[from] != Empty && b[to] == Empty
    ensures Relocate(b, from, to)[to] == b[from]
    ensures Relocate(b, from, to)[from] == Empty
    ensures forall i :: 0 <= i < 9 && i != from && i != to ==> Relocate(b, from, to)[i] == b[i]
    ensures multiset(Relocate(b, from, to)) == multiset(b)
  {
    var mid := b[from := Empty];
    assert multiset(mid) == multiset(b) - multiset{b[from]} + multiset{Empty};
    assert multiset(mid[to := b[from]]) == multiset(mid) - multiset{Empty} + multiset{b[from]};
  }
}
