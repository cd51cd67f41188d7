/**
 * The board of src/App.tsx: nine squares in row-major order, each empty
 * (`null` in the source) or holding the mark of one of the two players.
 */
module Boards {

  datatype Player = X | O

  /** The opponent's mark; the source writes it as `p === 'X' ? 'O' : 'X'`. */
  function Other(p: Player): (q: Player)
    ensures q != p
  {
    if p == X then O else X
  }

  datatype Square = Empty | Mark(player: Player)

  /** A cell index 0..8: rows 0-2, 3-5 and 6-8. */
  type Index = i: int | 0 <= i < 9

  type Board = b: seq<Square> | |b| == 9
    witness [Empty, Empty, Empty, Empty, Empty, Empty, Empty, Empty, Empty]

  /** `Array(9).fill(null)`. */
  function NewBoard(): (b: Board)
    ensures forall i: Index :: b[i] == Empty
  {
    [Empty, Empty, Empty, Empty, Empty, Empty, Empty, Empty, Empty]
  }

  /** A copy of the board with square `i` set to `p` (`copy[i] = p`). */
  function Place(b: Board, i: Index, p: Player): (r: Board)
    ensures r[i] == Mark(p)
    ensures forall j: Index :: j != i ==> r[j] == b[j]
  {
    b[i := Mark(p)]
  }

  /** `board.every(Boolean)`: no square is empty. */
  predicate IsFull(b: Board)
    ensures IsFull(b) <==> Empty !in b
  {
    forall i: Index :: b[i] != Empty
  }

  /** The number of squares holding `p`'s mark. */
  function Count(s: seq<Square>, p: Player): nat
  {
    if s == [] then 0 else (if s[0] == Mark(p) then 1 else 0) + Count(s[1..], p)
  }

  /** A player's count is zero exactly when no square holds that player's mark. */
  lemma {:induction false} CountZero(s: seq<Square>, p: Player)
    ensures Count(s, p) == 0 <==> Mark(p) !in s
  {
    if s != [] {
      assert s == [s[0]] + s[1..];
      CountZero(s[1..], p);
    }
  }

  /** Marking an empty square adds one to that player's count and leaves the other's alone. */
  lemma {:induction false} CountUpdate(s: seq<Square>, i: nat, p: Player, q: Player)
    requires i < |s| && s[i] == Empty
    ensures Count(s[i := Mark(p)], q) == Count(s, q) + (if p == q then 1 else 0)
  {
    if i == 0 {
      assert s[i := Mark(p)][1..] == s[1..];
    } else {
      assert s[i := Mark(p)][1..] == s[1..][i - 1 := Mark(p)];
      CountUpdate(s[1..], i - 1, p, q);
    }
  }
}
