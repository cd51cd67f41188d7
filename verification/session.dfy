/**
 * The game session held by the `App` component of src/App.tsx: the user's
 * and the bot's marks, the board, whose turn it is, the chat log and the
 * kind of bot. Each handler and effect of the component is a method that
 * changes these fields.
 */
module Session {
  import opened Wrappers
  import opened Boards
  import opened Outcomes
  import opened Heuristic

  /** The stock remarks the bot picks from at random. */
  const Phrases: seq<string> := [
    "Interesting play!",
    "Are you letting me win?",
    "Are you getting scared?",
    "Hmm, let's see what you do next.",
    "That was a bold move!",
    "I'm watching your strategy...",
    "You won't beat me that easily!",
    "Nice try!",
    "I like your style!"
  ]

  /** The first chat line of a game: X always moves first. */
  function Greeting(user: Player): (g: string)
    ensures g == "I start as X!" <==> user == O
    ensures g == "Your move!" <==> user == X
  {
    match user
    case O => "I start as X!"
    case X => assert "Your move!"[0] != "I start as X!"[0]; "Your move!"
  }

  /**
   * The line the end-of-game effect says for a board: one line when the game
   * is over (a win for either side, or a draw), none while it goes on.
   */
  function EndMessage(b: Board, bot: Player): (m: seq<string>)
    ensures |m| <= 1
    ensures m == [] <==> Winner(b).None? && !IsFull(b)
    ensures WinsFor(b, bot) ==> m == ["I win! Good game!"]
    ensures WinsFor(b, Other(bot)) ==> m == ["You win! Well played!"]
    ensures IsDraw(b) ==> m == ["It's a draw! Let's play again?"]
  {
    match WinnerMark(b)
    case Some(w) => if w == bot then ["I win! Good game!"] else ["You win! Well played!"]
    case None => if IsFull(b) then ["It's a draw! Let's play again?"] else []
  }

  /** `chat.slice(-4)`: the last four lines, or all of them when there are fewer. */
  function Window(chat: seq<string>): (r: seq<string>)
    ensures |r| == if |chat| < 4 then |chat| else 4
    ensures forall k :: 0 <= k < |r| ==> r[k] == chat[|chat| - |r| + k]
  {
    if |chat| <= 4 then chat else chat[|chat| - 4..]
  }

  /**
   * The window after a new line depends only on the window before it, and
   * the new line is always shown last.
   */
  lemma WindowAppend(chat: seq<string>, m: string)
    ensures Window(chat + [m]) == Window(Window(chat) + [m])
    ensures Window(chat + [m])[|Window(chat + [m])| - 1] == m
  {
    var w := Window(chat + [m]);
    var v := Window(Window(chat) + [m]);
    assert |w| == |v|;
    forall k | 0 <= k < |w| ensures w[k] == v[k] {
      if k == |w| - 1 {
        assert w[k] == (chat + [m])[|chat|];
      } else {
        assert w[k] == chat[|chat| + 1 - |w| + k];
      }
    }
  }

  /**
   * The chat-reset effect as written: it runs when `user` or `board.length`
   * changes, and then replaces the chat with the greeting.
   */
  function ChatAfterNewGameAsWritten(chat: seq<string>, oldUser: Player, newUser: Player,
                                     oldBoard: seq<Square>, newBoard: seq<Square>): (r: seq<string>)
    ensures r == chat || r == [Greeting(newUser)]
    ensures oldUser != newUser ==> r == [Greeting(newUser)]
  {
    if oldUser != newUser || |oldBoard| != |newBoard| then [Greeting(newUser)] else chat
  }

  /**
   * Every board has nine squares, so Restart (and choosing the side already
   * held) never runs the reset: the last game's lines stay in the window.
   */
  lemma RestartKeepsOldChat(chat: seq<string>, user: Player, b: Board)
    ensures ChatAfterNewGameAsWritten(chat, user, user, b, NewBoard()) == chat
    ensures Window(ChatAfterNewGameAsWritten(chat + ["You win! Well played!"], user, user, b, NewBoard()))
      != [Greeting(user)]
  {
    var c := chat + ["You win! Well played!"];
    assert ChatAfterNewGameAsWritten(c, user, user, b, NewBoard()) == c;
    WindowAppend(chat, "You win! Well played!");
    var w := Window(c);
    assert w[|w| - 1] == "You win! Well played!" != Greeting(user);
  }

  /** Where the game stands. */
  datatype Phase = UserToMove | BotToMove | Over

  class Game {
    var user: Player
    var bot: Player
    var board: Board
    var xIsNext: bool
    var chat: seq<string>
    var botKind: BotKind

    /**
     * The bot plays the other mark, and the marks on the board agree with
     * the turn: X has moved once more than O exactly when O is to move.
     */
    ghost predicate Valid()
      reads this
    {
      bot == Other(user) &&
      Count(board, X) == Count(board, O) + (if xIsNext then 0 else 1)
    }

    /** `xIsNext ? 'X' : 'O'`. */
    function ToMove(): (p: Player)
      reads this
      ensures Valid() ==> (p == X <==> Count(board, X) == Count(board, O))
    {
      if xIsNext then X else O
    }

    function Phase(): (ph: Phase)
      reads this
      ensures ph == Over <==> Winner(board).Some? || IsFull(board)
      ensures ph == UserToMove <==> Winner(board).None? && !IsFull(board) && ToMove() == user
      ensures Valid() && ph == BotToMove ==> ToMove() == bot && Winner(board).None? && !IsFull(board)
    {
      if Winner(board).Some? || IsDraw(board) then Over
      else if ToMove() == user then UserToMove
      else BotToMove
    }

    /** The page as first shown: the user plays X on an empty board against the simple bot. */
    constructor ()
      ensures Valid()
      ensures user == X && bot == O && board == NewBoard() && xIsNext && botKind == Simple
      ensures chat == [Greeting(X)]
      ensures Winner(board).None? && Phase() == UserToMove
    {
      NewBoardOpen();
      user, bot := X, O;
      board := NewBoard();
      xIsNext := true;
      chat := [Greeting(X)];
      botKind := Simple;
    }

    /**
     * `handleClick(i)`: ignored when the square is taken or someone has won;
     * otherwise the square gets the mark of the player to move and the turn
     * passes.
     */
    method HandleClick(i: Index)
      requires Valid()
      modifies this
      ensures Valid()
      ensures var moved := old(board)[i] == Empty && old(Winner(board)).None?;
        board == (if moved then Place(old(board), i, old(ToMove())) else old(board)) &&
        xIsNext == (if moved then !old(xIsNext) else old(xIsNext))
      ensures user == old(user) && bot == old(bot) && chat == old(chat) && botKind == old(botKind)
    {
      if board[i] != Empty || Winner(board).Some? {
        return;
      }
      CountUpdate(board, i, ToMove(), X);
      CountUpdate(board, i, ToMove(), O);
      board := Place(board, i, ToMove());
      xIsNext := !xIsNext;
    }

    /**
     * The end-of-game effect: it runs when the winner or the draw flag has
     * changed since `prevWinner` and `prevDraw`, and says the line for the
     * board.
     */
    method Announce(prevWinner: Option<Player>, prevDraw: bool)
      requires Valid()
      modifies this`chat
      ensures Valid()
      ensures chat == old(chat) +
        (if WinnerMark(board) != prevWinner || IsDraw(board) != prevDraw then EndMessage(board, bot) else [])
    {
      if WinnerMark(board) != prevWinner || IsDraw(board) != prevDraw {
        var m := EndMessage(board, bot);
        if m != [] {
          BotSay(m[0]);
        }
      }
    }

    /** `botSay(message)`: the message joins the end of the chat. */
    method BotSay(message: string)
      requires Valid()
      modifies this`chat
      ensures Valid()
      ensures chat == old(chat) + [message]
    {
      chat := chat + [message];
    }

    /**
     * A click on square `i`: passed to `handleClick` only when the user is the
     * player to move, then followed by the end-of-game effect. The move
     * happens exactly when the user is to move in an open game and the
     * square is empty, and the turn then leaves the user.
     */
    method Click(i: Index)
      requires Valid()
      modifies this
      ensures Valid()
      ensures var moved := old(Phase()) == UserToMove && old(board)[i] == Empty;
        board == (if moved then Place(old(board), i, old(user)) else old(board)) &&
        xIsNext == (if moved then !old(xIsNext) else old(xIsNext)) &&
        chat == old(chat) + (if moved then EndMessage(board, bot) else []) &&
        (moved ==> Phase() != UserToMove)
      ensures user == old(user) && bot == old(bot) && botKind == old(botKind)
    {
      var prevWinner, prevDraw := WinnerMark(board), IsDraw(board);
      if user == ToMove() {
        HandleClick(i);
      }
      Announce(prevWinner, prevDraw);
    }

    /**
     * The bot-turn effect followed by the end-of-game effect. Nothing
     * happens unless the bot is to move in an open game; then the move
     * `Decide` gives is played with the bot's mark, its comment is added to
     * the chat, and the turn passes. Only a rejected remote call leaves the
     * bot's turn unplayed.
     */
    method BotTurn(reply: RemoteReply, phrase: string)
      requires Valid() && phrase in Phrases
      modifies this
      ensures Valid()
      ensures var d := Decide(old(board), old(bot), old(user), old(botKind), reply, phrase);
        var moved := old(Phase()) == BotToMove && d.Some?;
        board == (if moved then Place(old(board), d.value.move, old(bot)) else old(board)) &&
        xIsNext == (if moved then !old(xIsNext) else old(xIsNext)) &&
        chat == old(chat) + (if moved then [d.value.comment] + EndMessage(board, bot) else [])
      ensures old(Phase()) == BotToMove && !(old(botKind) == Remote && reply.Failed?) ==>
        xIsNext != old(xIsNext) && Phase() != BotToMove
      ensures user == old(user) && bot == old(bot) && botKind == old(botKind)
    {
      if Phase() != BotToMove {
        return;
      }
      var d := ChooseMove(board, bot, user, botKind, reply, phrase);
      if d.None? {
        return;
      }
      PlayBotMove(d.value);
    }

    /**
     * The state update of the bot-turn effect (`setBoard`, `setXIsNext`,
     * `botSay`) followed by the end-of-game effect: the bot's mark goes on
     * the chosen square, the turn passes to the user, and the chat gains the
     * comment and then the end-of-game line, if any.
     */
    method PlayBotMove(d: Decision)
      requires Valid() && Phase() == BotToMove && board[d.move] == Empty
      modifies this
      ensures Valid()
      ensures board == Place(old(board), d.move, old(bot)) && xIsNext == !old(xIsNext)
      ensures chat == old(chat) + ([d.comment] + EndMessage(board, bot))
      ensures Phase() != BotToMove
      ensures user == old(user) && bot == old(bot) && botKind == old(botKind)
    {
      var prevWinner, prevDraw := WinnerMark(board), IsDraw(board);
      MarkForBot(d.move);
      ghost var before := chat;
      BotSay(d.comment);
      Announce(prevWinner, prevDraw);
      assert before + [d.comment] + EndMessage(board, bot) == before + ([d.comment] + EndMessage(board, bot));
    }

    /** The bot's `setBoard` and `setXIsNext`: its mark on square `i`, and the turn passes. */
    method MarkForBot(i: Index)
      requires Valid() && Phase() == BotToMove && board[i] == Empty
      modifies this`board, this`xIsNext
      ensures Valid()
      ensures board == Place(old(board), i, bot) && xIsNext == !old(xIsNext)
      ensures Phase() != BotToMove
    {
      CountUpdate(board, i, bot, X);
      CountUpdate(board, i, bot, O);
      board := Place(board, i, bot);
      xIsNext := !xIsNext;
    }

    /**
     * `chooseSide(p)`: the user takes `p`, the bot the other mark, and a new
     * game starts with X to move and only the greeting in the chat.
     */
    method ChooseSide(p: Player)
      modifies this
      ensures Valid()
      ensures user == p && bot == Other(p) && board == NewBoard() && xIsNext
      ensures chat == [Greeting(p)] && botKind == old(botKind)
      ensures Phase() == (if p == X then UserToMove else BotToMove)
    {
      NewBoardOpen();
      user := p;
      bot := Other(p);
      board := NewBoard();
      xIsNext := true;
      chat := [Greeting(p)];
    }

    /** `resetGame`: a new game on the same sides, X to move, only the greeting in the chat. */
    method ResetGame()
      requires Valid()
      modifies this
      ensures Valid()
      ensures board == NewBoard() && xIsNext && chat == [Greeting(user)]
      ensures user == old(user) && bot == old(bot) && botKind == old(botKind)
      ensures Phase() == (if user == X then UserToMove else BotToMove)
    {
      NewBoardOpen();
      board := NewBoard();
      xIsNext := true;
      chat := [Greeting(user)];
    }

    /** The bot selector buttons: the next bot turn uses `kind`. */
    method SelectBot(kind: BotKind)
      requires Valid()
      modifies this`botKind
      ensures Valid()
      ensures botKind == kind
    {
      botKind := kind;
    }
  }

  /**
   * Clicking the same square twice: the second click changes neither the
   * board nor the chat.
   */
  method RepeatedClick(g: Game, i: Index) returns (afterFirst: Board, chatAfterFirst: seq<string>)
    requires g.Valid()
    modifies g
    ensures g.board == afterFirst && g.chat == chatAfterFirst
  {
    g.Click(i);
    afterFirst, chatAfterFirst := g.board, g.chat;
    g.Click(i);
  }
}
