# Tic-tac-toe against a bot: a Dafny model

This project models the game logic of `src/App.tsx`, a React page where a person plays 3x3
tic-tac-toe against a bot. The bot's remarks appear in a chat window. The model has five modules:

- `Boards` (`boards.dfy`): the players X and O, a square (empty or marked), the nine-square
  board in row-major order, a copy with one square written, and the number of marks each player holds.
- `Outcomes` (`outcomes.dfy`): `calculateWinner`. It scans eight fixed lines (three rows, three
  columns, two diagonals) in that order and reports the first line whose three squares hold the
  same mark. The draw test is also here: no winner and no empty square. The scan is specified by
  the function `Winner` and written as the loop of the source in the method `CalculateWinner`.
- `Heuristic` (`heuristic.dfy`): `botMove`, specified by `BotChoice` and written as the source's
  three loops in `BotMove`. It also holds the choice the bot-turn effect makes between the simple
  bot and a reply from the remote move service (`Decide`, written as a method in `ChooseMove`),
  and a proof that the win-then-block order never throws away a move that would have avoided
  losing on the next turn.
- `Session` (`session.dfy`): the state of the `App` component as the class `Game`. Its fields are
  `user`, `bot`, `board`, `xIsNext`, `chat` and the bot kind. Each handler and effect is a method:
  a click, the bot's turn, the end-of-game announcement, choosing a side, restart, and choosing
  the bot. `Window` models the four-line chat window. The class invariant `Valid` says the bot
  plays the other mark and X holds one more mark than O exactly when O is to move. Every method
  keeps it.
- `Wrappers` (`wrappers.dfy`): the `Option` type, used for "no winner yet" and for "no move".

Two inputs come from outside the page's logic, so they are parameters. The remark picked with
`Math.random` is a `phrase` that must be one of the nine stock phrases. The outcome of the call
to the remote service is a `RemoteReply`:
- `Call(move, comment)`: a function call whose arguments parsed.
- `NoCall`: no function call came back, so the service falls back to `botMove` and a stock phrase.
- `Failed`: the request or `JSON.parse` threw, so the promise rejects.

In three places the code behaves differently from what a reader might expect, and the model follows the code:
- When the remote promise rejects, the `.then` that applies the move never runs. The bot does not
  move, and because nothing in the effect's dependencies changes, it is not asked again until a
  new game starts or the bot kind is switched (the bot kind is one of the effect's dependencies). `Failed` therefore leaves the state unchanged. It does not fall back to the
  simple bot.
- `handleClick` refuses a move only on an occupied square or when someone has won. It has no
  test for a draw, but a drawn board is full, so every square is occupied.
- The end-of-game message is added by an effect that runs when `winner` or `isDraw` changes.
  `Announce` keeps that condition. Every move starts from an open game, so the message is added
  exactly after the move that ends the game.

## Model

| member | source | states |
|---|---|---|
| `Boards.Other` | src/App.tsx:229 | the bot's mark is never the user's |
| `Boards.NewBoard` | src/App.tsx:130 | a new board has nine empty squares |
| `Boards.Place` | src/App.tsx:35-36 | the copy holds `p` at `i` and equals the board everywhere else |
| `Boards.IsFull` | src/App.tsx:138 | a board is full exactly when no square is empty |
| `Boards.CountUpdate` | src/App.tsx:143-146 | marking an empty square adds exactly one to that player's count and leaves the other player's count unchanged |
| `Outcomes.FirstComplete` | src/App.tsx:21-26 | the scan stops at the first complete line at or after `k`, with no complete line before it, or runs off the end when there is none |
| `Outcomes.Winner` | src/App.tsx:10-28 | no result exactly when none of the eight lines has three equal non-empty squares; otherwise the reported line is complete, it is the first complete one in row, column, diagonal order, and the reported winner is the mark on it |
| `Outcomes.WinnerMark` | src/App.tsx:136 | `winner` is set exactly when `calculateWinner` found a line, and is that line's mark |
| `Outcomes.WinsFor` | src/App.tsx:37 | when `p` wins, some line is complete and holds `p`'s mark |
| `Outcomes.IsDraw` | src/App.tsx:138 | a draw is a full board on which no line is complete |
| `Outcomes.CalculateWinner` | src/App.tsx:10-28 | the loop over `lines` with its early return computes `Winner` |
| `Outcomes.PlaceOnOpenBoard` | src/App.tsx:35-37 | on a board with no complete line, marking an empty square for `p` can only produce `p` as winner, and `p` wins exactly when some line through that square already holds two of `p`'s marks |
| `Outcomes.NewBoardOpen` | src/App.tsx:130-138 | on a new board nobody has won, it is not a draw and neither player has a mark |
| `Outcomes.DrawScenario` | src/App.tsx:138 | the full board X O X / O X O / O X O is a draw |
| `Outcomes.RowBeforeColumn` | src/App.tsx:11-26 | with the top row and the left column both X's, the top row is reported |
| `Heuristic.FirstFit` | src/App.tsx:33-49 | each scan returns the lowest index from `k` on that fits what it looks for, and -1 exactly when none does |
| `Heuristic.BotChoice` | src/App.tsx:31-50 | the bot's pick is an empty square, and it is -1 exactly when the board is full |
| `Heuristic.BotTakesWin` | src/App.tsx:33-39 | if some empty square wins for the bot, the pick is the lowest such square, ahead of any block |
| `Heuristic.BotBlocks` | src/App.tsx:41-47 | if no square wins for the bot but some would win for the user, the pick is the lowest such square |
| `Heuristic.BotTakesFirstEmpty` | src/App.tsx:49 | with nothing to win or block, the pick is the lowest empty square |
| `Heuristic.BotMove` | src/App.tsx:31-50 | the three loops with early returns compute `BotChoice`; the input board is a value, so the trial copies cannot change it |
| `Heuristic.ThreatsSurviveBotMove` | src/App.tsx:41-47 | after a bot move that does not win, the user's winning squares are the ones they had before, except the square the bot took |
| `Heuristic.BotAvoidsAvoidableLoss` | src/App.tsx:30-50 | on a board where nobody has won, if some reply leaves the user no winning square next turn (or wins), then `botMove`'s reply does too |
| `Heuristic.WinBeforeBlockBoard` | src/App.tsx:33-39 | on X X _ / O O _ / _ _ _, square 5 wins for O and no lower square does |
| `Heuristic.WinBeforeBlockScenario` | src/App.tsx:33-47 | on that board the O bot plays 5, completing its row, not 2, blocking X |
| `Heuristic.Decide` | src/App.tsx:173-191 | the bot plays nothing exactly when the remote call was rejected or the board is full; whatever it plays is an empty square; a usable remote suggestion is played with its comment, and anything else is `botMove` with the stock phrase |
| `Heuristic.ChooseMove` | src/App.tsx:173-188 | the branch on the bot kind and on the reply computes `Decide` |
| `Heuristic.RemoteBoardAsWritten` | src/App.tsx:187-188 | the unguarded write keeps nine squares exactly when the move is below 9 or too large to be a JavaScript array index (2^32 - 1 or more); in range it overwrites the square whatever it held; from 9 up to the largest index the board grows to `move + 1` squares, keeping the nine, with empty holes and the bot's mark last; a negative or too large move leaves the squares as they were |
| `Heuristic.UnguardedRemoteMove` | src/App.tsx:186-188 | a reply of 9 leaves a ten-square board, and a reply naming the user's square erases the user's mark |
| `Session.EndMessage` | src/App.tsx:199-210 | at most one line, and one exactly when someone has won or the board is full; "I win! Good game!" when the bot won, "You win! Well played!" when the user won, "It's a draw! Let's play again?" on a draw |
| `Session.Greeting` | src/App.tsx:215-219 | "I start as X!" exactly when the user plays O, "Your move!" exactly when the user plays X |
| `Session.Window` | src/App.tsx:224 | the window has `min(4, n)` lines, and they are the last lines of the chat in order |
| `Session.WindowAppend` | src/App.tsx:224 | after a new line the window depends only on the old window, and the new line is shown last |
| `Session.ChatAfterNewGameAsWritten` | src/App.tsx:213-221 | the reset effect replaces the chat with the greeting when it runs, and it always runs when the user changes sides |
| `Session.RestartKeepsOldChat` | src/App.tsx:213-221 | as written, a restart on the same side keeps the old chat, so a finished game's "You win! Well played!" stays in the window |
| `Session.Game.constructor` | src/App.tsx:128-134 | the first game: user X, bot O, an empty board, X to move, the simple bot, the chat holding only "Your move!", and the user to move |
| `Session.Game.ToMove` | src/App.tsx:144 | under the invariant, X is to move exactly when both players hold the same number of marks |
| `Session.Game.Phase` | src/App.tsx:171-172 | the game is over exactly when someone has won or the board is full; the user is to move exactly when the game is open and it is the user's turn; when the bot is to move, the game is open and it is the bot's mark that is placed next |
| `Session.Game.HandleClick` | src/App.tsx:141-147 | an occupied square or a won game changes nothing; otherwise only square `i` changes, it gets the mark of the player to move, and the turn passes; the invariant holds |
| `Session.Game.Announce` | src/App.tsx:199-210 | the end-of-game line is added only when the winner or the draw flag has changed |
| `Session.Game.BotSay` | src/App.tsx:150-152 | the message is added at the end of the chat |
| `Session.Game.Click` | src/App.tsx:263 | a move happens exactly when the user is to move in an open game and the square is empty; it places the user's mark, passes the turn and adds the end-of-game line if the game ended |
| `Session.Game.BotTurn` | src/App.tsx:170-196 | nothing happens unless the bot is to move in an open game; then the `Decide` move is played with the bot's mark, its comment and any end-of-game line are added, and the turn passes; only a rejected remote call leaves the bot's turn unplayed |
| `Session.Game.PlayBotMove` | src/App.tsx:176-191 | the bot's mark goes on the chosen empty square, the turn passes to the user, and the chat gains the comment and then the end-of-game line |
| `Session.Game.MarkForBot` | src/App.tsx:176-180 | the bot's mark goes on the empty square, the turn passes to the user, and the invariant holds |
| `Session.Game.ChooseSide` | src/App.tsx:227-232 | user `p`, bot the other mark, an empty board, X to move, the chat holding only the greeting; the user moves first when `p` is X, otherwise the bot does |
| `Session.Game.ResetGame` | src/App.tsx:235-238 | same sides, an empty board, X to move, the chat holding only the greeting |
| `Session.Game.SelectBot` | src/App.tsx:251-255 | the next bot turn uses the chosen bot; the invariant holds |
| `Session.RepeatedClick` | src/App.tsx:141-147 | clicking the same square again changes neither the board nor the chat |

## Findings

| source | as written | input that shows it | evidently intended | confidence | as-written member | corrected member |
|---|---|---|---|---|---|---|
| src/App.tsx:212-221 | the chat-reset effect depends on `[user, board.length]`, and `board.length` is always 9 | Restart after a game ends with "You win! Well played!": the effect does not run and the old line stays in the window (choosing the side already held also does this) | the comment says the chat resets "on new game or side change": every new game shows only the greeting | high, not executed | `Session.ChatAfterNewGameAsWritten`, `Session.RestartKeepsOldChat` | `Session.Game.ResetGame`, `Session.Game.ChooseSide` |
| src/App.tsx:186-188 | the remote reply's `move` is written with `newBoard[move] = bot`, with no range or occupancy check | reply `{move: 9}` gives a ten-square board; reply `{move: 0}` when the user holds 0 erases the user's mark | a suggestion the board cannot take is replaced by `botMove` and a stock phrase, as when the reply has no function call | medium, not executed | `Heuristic.RemoteBoardAsWritten`, `Heuristic.UnguardedRemoteMove` | `Heuristic.Decide` |

## Left out

- The request to the remote service is not modelled: prompt text, `fetch`, the API key and JSON
  decoding. Only the outcome is modelled, as `RemoteReply`. A reply whose `move` is missing or not
  an integer counts as an unusable suggestion, and a missing `comment` is not modelled.
- The random choice of a stock phrase is not modelled. The phrase is a parameter required to be
  one of the nine stock phrases.
- Timing is not modelled: the 500 ms `setTimeout` before the simple bot's move, and the
  `isBotThinking` flag with its `.finally`. The flag only changes what the page displays.
- Session.Game.BotTurn: applies a remote reply to the current state as one step. In the source,
  the `.then` writes into a copy of the board taken when the request was sent. A restart or a side
  change while a request is pending is therefore not modelled.
- Rendering is not modelled: the `Square` component, the highlighting of the winning line, the
  status text, the buttons and CSS. `Click` takes only indices 0..8, which are all the page ever
  passes.
- The order in which React runs effects after a render is not modelled. Each user action or bot
  turn is one method that runs the state update and then the effects it triggers, in source order.
