/**
 * The outcome evaluator of src/App.tsx: `calculateWinner` scans eight fixed
 * lines of three squares and reports the first one held entirely by one
 * player; a draw is a full board with no such line.
 */
module Outcomes {
  import opened Wrappers
  import opened Boards

  /** Three distinct squares. */
  type Line = l: (Index, Index, Index) | l.0 != l.1 && l.0 != l.2 && l.1 != l.2
    witness (0, 1, 2)

  /** The lines in the order they are scanned: rows, columns, diagonals. */
  const Lines: seq<Line> := [
    (0, 1, 2), (3, 4, 5), (6, 7, 8),
    (0, 3, 6), (1, 4, 7), (2, 5, 8),
    (0, 4, 8), (2, 4, 6)
  ]

  /** All three squares of `l` are non-empty and hold the same mark. */
  predicate Complete(b: Board, l: Line)
  {
    b[l.0] != Empty && b[l.0] == b[l.1] && b[l.0] == b[l.2]
  }

  /** What `calculateWinner` returns when it finds a line. */
  datatype WinInfo = WinInfo(winner: Player, line: Line)

  /** The position of the first complete line at or after `k`, or `|Lines|` when there is none. */
  function FirstComplete(b: Board, k: nat): (j: nat)
    requires k <= |Lines|
    ensures k <= j <= |Lines|
    ensures j < |Lines| ==> Complete(b, Lines[j])
    ensures forall i {:trigger Complete(b, Lines[i])} :: k <= i < j ==> !Complete(b, Lines[i])
    decreases |Lines| - k
  {
    if k == |Lines| then k
    else if Complete(b, Lines[k]) then k
    else FirstComplete(b, k + 1)
  }

  /**
   * The result of `calculateWinner`: nothing exactly when no line is
   * complete, and otherwise the first complete line in scan order together
   * with the mark that fills it.
   */
  function Winner(b: Board): (r: Option<WinInfo>)
    ensures r.None? <==> forall k {:trigger Complete(b, Lines[k])} :: 0 <= k < |Lines| ==> !Complete(b, Lines[k])
    ensures r.Some? ==>
      exists k {:trigger Complete(b, Lines[k])} :: 0 <= k < |Lines| && Lines[k] == r.value.line && Complete(b, Lines[k]) &&
        b[Lines[k].0] == Mark(r.value.winner) &&
        forall j {:trigger Complete(b, Lines[j])} :: 0 <= j < k ==> !Complete(b, Lines[j])
  {
    var k := FirstComplete(b, 0);
    if k < |Lines| then Some(WinInfo(b[Lines[k].0].player, Lines[k])) else None
  }

  /** `calculateWinner(b)?.winner === p`. */
  predicate WinsFor(b: Board, p: Player)
    ensures WinsFor(b, p) ==>
      exists k {:trigger Complete(b, Lines[k])} :: 0 <= k < |Lines| && Complete(b, Lines[k]) && b[Lines[k].0] == Mark(p)
  {
    Winner(b).Some? && Winner(b).value.winner == p
  }

  /** `winnerInfo?.winner || null`: the winning mark alone. */
  function WinnerMark(b: Board): (r: Option<Player>)
    ensures r.Some? <==> Winner(b).Some?
    ensures r.Some? ==> WinsFor(b, r.value)
  {
    if Winner(b).Some? then Some(Winner(b).value.winner) else None
  }

  /** `!winner && board.every(Boolean)`. */
  predicate IsDraw(b: Board)
    ensures IsDraw(b) <==> IsFull(b) && forall k {:trigger Complete(b, Lines[k])} :: 0 <= k < |Lines| ==> !Complete(b, Lines[k])
  {
    Winner(b).None? && IsFull(b)
  }

  /** The scan of `calculateWinner` itself: the loop over `lines` with its early return. */
  method CalculateWinner(b: Board) returns (r: Option<WinInfo>)
    ensures r == Winner(b)
  {
    for k := 0 to |Lines|
      invariant forall j {:trigger Complete(b, Lines[j])} :: 0 <= j < k ==> !Complete(b, Lines[j])
    {
      var line := Lines[k];
      if b[line.0] != Empty && b[line.0] == b[line.1] && b[line.0] == b[line.2] {
        return Some(WinInfo(b[line.0].player, line));
      }
    }
    return None;
  }

  /** The three squares of `l` other than `i` hold `p`, and `i` is one of its squares. */
  predicate Completes(b: Board, i: Index, p: Player, l: Line)
  {
    (l.0 == i && b[l.1] == Mark(p) && b[l.2] == Mark(p)) ||
    (l.1 == i && b[l.0] == Mark(p) && b[l.2] == Mark(p)) ||
    (l.2 == i && b[l.0] == Mark(p) && b[l.1] == Mark(p))
  }

  /**
   * On a board without a complete line, marking an empty square `i` for
   * `p` can only complete lines through `i`, all of them `p`'s: so if the new
   * board has a winner it is `p`, and `p` wins exactly when some line
   * through `i` already holds two of `p`'s marks.
   */
  lemma PlaceOnOpenBoard(b: Board, i: Index, p: Player)
    requires Winner(b).None? && b[i] == Empty
    ensures Winner(Place(b, i, p)).Some? ==> Winner(Place(b, i, p)).value.winner == p
    ensures WinsFor(Place(b, i, p), p) <==> exists k {:trigger Completes(b, i, p, Lines[k])} :: 0 <= k < |Lines| && Completes(b, i, p, Lines[k])
  {
    var c := Place(b, i, p);
    forall k | 0 <= k < |Lines|
      ensures Complete(c, Lines[k]) <==> Completes(b, i, p, Lines[k])
      ensures Complete(c, Lines[k]) ==> c[Lines[k].0] == Mark(p)
    {
      assert !Complete(b, Lines[k]);
    }
  }

  /** A new game: nobody has won, the board is not full and neither player has a mark on it. */
  lemma NewBoardOpen()
    ensures Winner(NewBoard()).None? && !IsFull(NewBoard())
    ensures Count(NewBoard(), X) == 0 && Count(NewBoard(), O) == 0
  {
    var b := NewBoard();
    forall k | 0 <= k < |Lines| ensures !Complete(b, Lines[k]) {
      assert b[Lines[k].0] == Empty;
    }
    assert b[0] == Empty;
  }

  /** A draw: the last square filled with both players' lines still open. */
  lemma DrawScenario()
    ensures IsDraw([Mark(X), Mark(O), Mark(X), Mark(O), Mark(X), Mark(O), Mark(O), Mark(X), Mark(O)])
  {
  }

  /** When two lines are complete, the row is reported before the column. */
  lemma RowBeforeColumn()
    ensures Winner([Mark(X), Mark(X), Mark(X), Mark(X), Mark(O), Mark(O), Mark(X), Mark(O), Mark(O)])
         == Some(WinInfo(X, (0, 1, 2)))
  {
  }
}
