/**
 * The move choosers of src/App.tsx: the simple bot `botMove` (win if
 * possible, else block, else the first empty square) and the decision the
 * bot-turn effect takes from either that bot or a remote reply.
 */
module Heuristic {
  import opened Wrappers
  import opened Boards
  import opened Outcomes

  /** Square `i` is empty and marking it for `p` makes `calculateWinner` report `p`. */
  predicate WinningCell(b: Board, i: Index, p: Player)
  {
    b[i] == Empty && WinsFor(Place(b, i, p), p)
  }

  /** What one of the three scans of `botMove` looks for. */
  datatype Aim = WinFor(player: Player) | AnyEmpty

  predicate Fits(b: Board, i: Index, a: Aim)
  {
    match a
    case WinFor(p) => WinningCell(b, i, p)
    case AnyEmpty => b[i] == Empty
  }

  /** The lowest index at or after `k` that fits `a`, or -1 when none does. */
  function FirstFit(b: Board, a: Aim, k: nat): (r: int)
    requires k <= 9
    ensures r == -1 || (k <= r < 9 && Fits(b, r, a))
    ensures r == -1 <==> forall i: Index :: k <= i ==> !Fits(b, i, a)
    ensures r != -1 ==> forall i: Index :: k <= i < r ==> !Fits(b, i, a)
    decreases 9 - k
  {
    if k == 9 then -1
    else if Fits(b, k, a) then k
    else FirstFit(b, a, k + 1)
  }

  /**
   * The square `botMove` picks, in priority order: the lowest square that
   * wins for the bot; failing that, the lowest square that would win for
   * the user; failing that, the lowest empty square. The pick is always an
   * empty square, and it is -1 exactly on a full board.
   */
  function BotChoice(b: Board, bot: Player, user: Player): (r: int)
    ensures r == -1 <==> IsFull(b)
    ensures r != -1 ==> 0 <= r < 9 && b[r] == Empty
  {
    var win := FirstFit(b, WinFor(bot), 0);
    if win != -1 then win
    else
      var block := FirstFit(b, WinFor(user), 0);
      if block != -1 then block
      else FirstFit(b, AnyEmpty, 0)
  }

  /** A square that wins for the bot is taken first: the lowest such square. */
  lemma BotTakesWin(b: Board, bot: Player, user: Player)
    requires exists i: Index :: WinningCell(b, i, bot)
    ensures var r := BotChoice(b, bot, user);
      0 <= r < 9 && WinningCell(b, r, bot) && forall j: Index :: j < r ==> !WinningCell(b, j, bot)
  {
    var i: Index :| WinningCell(b, i, bot);
    assert Fits(b, i, WinFor(bot));
    var r := FirstFit(b, WinFor(bot), 0);
    forall j: Index | j < r ensures !WinningCell(b, j, bot) {
      assert !Fits(b, j, WinFor(bot));
    }
  }

  /** With no winning square, the lowest square that would win for the user is blocked. */
  lemma BotBlocks(b: Board, bot: Player, user: Player)
    requires forall i: Index :: !WinningCell(b, i, bot)
    requires exists i: Index :: WinningCell(b, i, user)
    ensures var r := BotChoice(b, bot, user);
      0 <= r < 9 && WinningCell(b, r, user) && forall j: Index :: j < r ==> !WinningCell(b, j, user)
  {
    forall i: Index ensures !Fits(b, i, WinFor(bot)) {
      assert !WinningCell(b, i, bot);
    }
    var i: Index :| WinningCell(b, i, user);
    assert Fits(b, i, WinFor(user));
    var r := FirstFit(b, WinFor(user), 0);
    forall j: Index | j < r ensures !WinningCell(b, j, user) {
      assert !Fits(b, j, WinFor(user));
    }
  }

  /** With nothing to win or block, the lowest empty square is taken. */
  lemma BotTakesFirstEmpty(b: Board, bot: Player, user: Player)
    requires forall i: Index :: !WinningCell(b, i, bot) && !WinningCell(b, i, user)
    ensures var r := BotChoice(b, bot, user);
      r == -1 || forall j: Index :: j < r ==> b[j] != Empty
  {
    forall i: Index ensures !Fits(b, i, WinFor(bot)) && !Fits(b, i, WinFor(user)) {
      assert !WinningCell(b, i, bot) && !WinningCell(b, i, user);
    }
    var r := FirstFit(b, AnyEmpty, 0);
    forall j: Index | j < r ensures b[j] != Empty {
      assert !Fits(b, j, AnyEmpty);
    }
  }

  /** `FirstFit` from 0 finds `i` when `i` is the lowest index that fits. */
  lemma FirstFitAt(b: Board, a: Aim, i: Index)
    requires Fits(b, i, a)
    requires forall j: Index :: j < i ==> !Fits(b, j, a)
    ensures FirstFit(b, a, 0) == i
  {
  }

  /** `botMove` as written: three loops over the squares 0..8, each with an early return. */
  method BotMove(b: Board, bot: Player, user: Player) returns (r: int)
    ensures r == BotChoice(b, bot, user)
  {
    for i := 0 to 9
      invariant forall j: Index :: j < i ==> !WinningCell(b, j, bot)
    {
      if b[i] == Empty {
        var copy := Place(b, i, bot);
        var w := CalculateWinner(copy);
        if w.Some? && w.value.winner == bot {
          FirstFitAt(b, WinFor(bot), i);
          return i;
        }
      }
    }
    for i := 0 to 9
      invariant forall j: Index :: j < i ==> !WinningCell(b, j, user)
    {
      if b[i] == Empty {
        var copy := Place(b, i, user);
        var w := CalculateWinner(copy);
        if w.Some? && w.value.winner == user {
          assert FirstFit(b, WinFor(bot), 0) == -1;
          FirstFitAt(b, WinFor(user), i);
          return i;
        }
      }
    }
    for i := 0 to 9
      invariant forall j: Index :: j < i ==> b[j] != Empty
    {
      if b[i] == Empty {
        assert FirstFit(b, WinFor(bot), 0) == -1;
        assert FirstFit(b, WinFor(user), 0) == -1;
        FirstFitAt(b, AnyEmpty, i);
        return i;
      }
    }
    return -1;
  }

  /** The user has a square that would win on the next move. */
  predicate UserThreat(b: Board, user: Player)
  {
    exists j: Index :: WinningCell(b, j, user)
  }

  /** Square `m` is empty and, once the bot takes it, the bot has won or the user cannot win next. */
  predicate SafeReply(b: Board, m: Index, bot: Player, user: Player)
  {
    b[m] == Empty && (WinsFor(Place(b, m, bot), bot) || !UserThreat(Place(b, m, bot), user))
  }

  /** Whether a line is completed at `j` depends only on where `p`'s marks are. */
  lemma CompletesAgree(b: Board, c: Board, j: Index, p: Player)
    requires forall k: Index :: c[k] == Mark(p) <==> b[k] == Mark(p)
    ensures forall k :: 0 <= k < |Lines| ==> (Completes(c, j, p, Lines[k]) <==> Completes(b, j, p, Lines[k]))
  {
  }

  /**
   * After a bot move that does not win, the user's winning squares are
   * exactly the ones they had before, minus the square the bot took.
   */
  lemma ThreatsSurviveBotMove(b: Board, m: Index, j: Index, bot: Player, user: Player)
    requires bot != user && Winner(b).None? && b[m] == Empty && j != m
    requires !WinsFor(Place(b, m, bot), bot)
    ensures WinningCell(Place(b, m, bot), j, user) <==> WinningCell(b, j, user)
  {
    var c := Place(b, m, bot);
    PlaceOnOpenBoard(b, m, bot);
    assert Winner(c).None?;
    if b[j] == Empty {
      PlaceOnOpenBoard(b, j, user);
      PlaceOnOpenBoard(c, j, user);
      CompletesAgree(b, c, j, user);
    }
  }

  /**
   * The defensive guarantee of the win-then-block order: on a board where
   * nobody has won yet, if some reply keeps the user from winning next
   * move, the reply `botMove` picks does too.
   */
  lemma {:induction false} BotAvoidsAvoidableLoss(b: Board, bot: Player, user: Player)
    requires bot != user && Winner(b).None?
    requires exists m: Index :: SafeReply(b, m, bot, user)
    ensures var r := BotChoice(b, bot, user); 0 <= r < 9 && SafeReply(b, r, bot, user)
  {
    var m: Index :| SafeReply(b, m, bot, user);
    var r := BotChoice(b, bot, user);
    assert r != -1 by { assert b[m] == Empty; }
    if exists i: Index :: WinningCell(b, i, bot) {
      BotTakesWin(b, bot, user);
      return;
    }
    assert !WinsFor(Place(b, m, bot), bot) by { assert !WinningCell(b, m, bot); }
    // Every winning square of the user is `m`: any other survives the bot's move.
    forall j: Index | j != m
      ensures !WinningCell(b, j, user)
    {
      ThreatsSurviveBotMove(b, m, j, bot, user);
    }
    if exists i: Index :: WinningCell(b, i, user) {
      BotBlocks(b, bot, user);
      assert r == m;
    } else {
      BotTakesFirstEmpty(b, bot, user);
      assert !WinsFor(Place(b, r, bot), bot) by { assert !WinningCell(b, r, bot); }
      forall j: Index ensures !WinningCell(Place(b, r, bot), j, user) {
        if j != r {
          ThreatsSurviveBotMove(b, r, j, bot, user);
        }
      }
    }
  }

  /** Which bot the page drives: the local `botMove` or the remote service. */
  datatype BotKind = Simple | Remote

  /** How the remote call settles. */
  datatype RemoteReply =
    | Call(move: int, comment: string)  // a `make_move` call whose arguments parsed
    | NoCall                            // no function call in the reply: the service falls back to `botMove`
    | Failed                            // the request or `JSON.parse` threw: the promise rejects

  /** The square the bot plays and the chat line that goes with it. */
  datatype Decision = Decision(move: Index, comment: string)

  /** A suggested square the board can take. */
  predicate Acceptable(b: Board, move: int)
  {
    0 <= move < 9 && b[move] == Empty
  }

  /**
   * What the bot turn plays. The simple bot, and the remote service when its
   * reply carries no function call, play `botMove` with a stock phrase; a
   * remote suggestion is played with its own comment when the square is
   * free, and otherwise replaced by `botMove` and the stock phrase; a
   * rejected remote call plays nothing. Every move played is an empty square.
   */
  function Decide(b: Board, bot: Player, user: Player, kind: BotKind, reply: RemoteReply, phrase: string)
    : (d: Option<Decision>)
    ensures d.None? <==> (kind == Remote && reply.Failed?) || IsFull(b)
    ensures d.Some? ==> b[d.value.move] == Empty
    ensures kind == Remote && reply.Call? && Acceptable(b, reply.move) ==>
      d == Some(Decision(reply.move, reply.comment))
    ensures d.Some? && !(kind == Remote && reply.Call? && Acceptable(b, reply.move)) ==>
      d.value == Decision(BotChoice(b, bot, user), phrase)
  {
    if kind == Remote && reply.Failed? then None
    else if kind == Remote && reply.Call? && Acceptable(b, reply.move) then
      Some(Decision(reply.move, reply.comment))
    else
      var m := BotChoice(b, bot, user);
      if m == -1 then None else Some(Decision(m, phrase))
  }

  /**
   * The choice made inside the bot-turn effect: `botMove` for the simple bot
   * and for a remote reply without a function call, the remote suggestion
   * when the board can take it, nothing when the remote call was rejected.
   */
  method ChooseMove(b: Board, bot: Player, user: Player, kind: BotKind, reply: RemoteReply, phrase: string)
    returns (d: Option<Decision>)
    ensures d == Decide(b, bot, user, kind, reply, phrase)
  {
    var move: int, comment: string;
    match kind {
      case Simple =>
        move := BotMove(b, bot, user);
        comment := phrase;
      case Remote =>
        match reply {
          case Failed =>
            return None;
          case NoCall =>
            move := BotMove(b, bot, user);
            comment := phrase;
          case Call(m, c) =>
            if Acceptable(b, m) {
              move, comment := m, c;
            } else {
              move := BotMove(b, bot, user);
              comment := phrase;
            }
        }
    }
    if move == -1 {
      return None;
    }
    return Some(Decision(move, comment));
  }

  /**
   * The largest length of a JavaScript array, 2^32 - 1: only integers below
   * it are array indices.
   */
  const MaxArrayLength: int := 0xFFFF_FFFF

  /**
   * The remote branch of the bot turn as written: `newBoard[move] = bot` with
   * no check. In range it overwrites whatever the square holds; past the end,
   * up to the largest array index, a JavaScript array grows (holes read as
   * empty); a negative index, or one too large to be an array index, only
   * sets a property, leaving the squares as they were.
   */
  function RemoteBoardAsWritten(b: Board, move: int, bot: Player): (r: seq<Square>)
    ensures |r| == 9 <==> move < 9 || move >= MaxArrayLength
    ensures 0 <= move < 9 ==> r[move] == Mark(bot) && forall j: Index :: j != move ==> r[j] == b[j]
    ensures 9 <= move < MaxArrayLength ==>
      |r| == move + 1 && r[..9] == b && r[move] == Mark(bot) && forall j :: 9 <= j < move ==> r[j] == Empty
    ensures move < 0 || move >= MaxArrayLength ==> r == b
  {
    if 0 <= move < 9 then b[move := Mark(bot)]
    else if 9 <= move < MaxArrayLength then b + seq(move - 9, _ => Empty) + [Mark(bot)]
    else b
  }

  /**
   * Two replies the unguarded write mishandles: move 9 leaves a ten-square
   * board, and move 0 on a square the user holds erases the user's mark.
   */
  lemma UnguardedRemoteMove()
    ensures |RemoteBoardAsWritten(NewBoard(), 9, O)| == 10
    ensures var b := Place(NewBoard(), 0, X);
      Count(b, X) == 1 && Count(RemoteBoardAsWritten(b, 0, O), X) == 0
  {
    var b := Place(NewBoard(), 0, X);
    assert b == [Mark(X), Empty, Empty, Empty, Empty, Empty, Empty, Empty, Empty];
    assert RemoteBoardAsWritten(b, 0, O) == [Mark(O), Empty, Empty, Empty, Empty, Empty, Empty, Empty, Empty];
  }

  /** Nobody has won yet on X X _ / O O _ / _ _ _. */
  lemma WinBeforeBlockOpen(b: Board)
    requires b == [Mark(X), Mark(X), Empty, Mark(O), Mark(O), Empty, Empty, Empty, Empty]
    ensures Winner(b).None?
  {
    assert !Complete(b, Lines[0]) && !Complete(b, Lines[1]) && !Complete(b, Lines[2]) && !Complete(b, Lines[3]);
    assert !Complete(b, Lines[4]) && !Complete(b, Lines[5]) && !Complete(b, Lines[6]) && !Complete(b, Lines[7]);
  }

  /** With X on 0 and 1 and O on 3 and 4, square 5 is O's lowest winning square. */
  lemma WinBeforeBlockBoard(b: Board)
    requires b == [Mark(X), Mark(X), Empty, Mark(O), Mark(O), Empty, Empty, Empty, Empty]
    ensures WinningCell(b, 5, O) && forall j: Index :: j < 5 ==> !WinningCell(b, j, O)
  {
    WinBeforeBlockOpen(b);
    assert WinningCell(b, 5, O) by {
      PlaceOnOpenBoard(b, 5, O);
      assert Completes(b, 5, O, Lines[1]);
    }
    WinBeforeBlockNotTwo(b);
  }

  /** On that board, O on square 2 completes none of the lines through it. */
  lemma WinBeforeBlockNotTwo(b: Board)
    requires b == [Mark(X), Mark(X), Empty, Mark(O), Mark(O), Empty, Empty, Empty, Empty]
    ensures !WinningCell(b, 2, O)
  {
    WinBeforeBlockOpen(b);
    PlaceOnOpenBoard(b, 2, O);
    assert !Completes(b, 2, O, Lines[0]);
    assert !Completes(b, 2, O, Lines[5]);
    assert !Completes(b, 2, O, Lines[7]);
  }

  /** On that board the bot playing O completes its row at 5 rather than blocking X at 2. */
  lemma WinBeforeBlockScenario()
    ensures BotChoice([Mark(X), Mark(X), Empty, Mark(O), Mark(O), Empty, Empty, Empty, Empty], O, X) == 5
  {
    var b: Board := [Mark(X), Mark(X), Empty, Mark(O), Mark(O), Empty, Empty, Empty, Empty];
    WinBeforeBlockBoard(b);
    BotTakesWin(b, O, X);
  }
}
