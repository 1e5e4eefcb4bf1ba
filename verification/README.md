# Tic-tac-toe core: board state and negamax search

This project models the game logic of `classes/TicTacToe.cpp`. It leaves out the
rendering, textures and engine turn handling, and proves properties of what is left.

- **Board state** (`board.dfy`, module `BoardState`). The grid's nine cells are read in
  row-major order (cell (x, y) at index y * 3 + x). Each cell is `Empty` or holds a
  `Piece` whose owner is player index 0 or 1. The module gives owner lookup with C++
  truncating division, winner detection over the eight fixed lines (rows, then
  columns, then diagonals, first match wins), draw detection, and the canonical
  9-character snapshot: `'0'` for empty, `'1'` for player 0, `'2'` for player 1.
- **Search engine** (`search.dfy`, module `Search`). It works on the snapshot only.
  `isAIBoardFull` is modelled through `std::string::find`. `evaluateAIBoard` scans the
  eight triples. `negamax` is specified by the recursive function `NegamaxValue`. It is
  implemented by the method `Negamax`, which writes and undoes trial marks in one
  shared `array<char>` and leaves it unchanged on return. The selection loop of
  `updateAI` is `BestMove`. It scores every empty cell with a trial `'2'` answered by
  the human colour and keeps the first strictly better score.
- **Game object** (`game.dfy`, module `Game`). The class `TicTacToe` owns the grid as an
  `array2<Cell>` (`_grid[y][x]`). Its methods change the grid in place: `StopGame`,
  `ActionForEmptyHolder`, `SetStateString` and `UpdateAI`. `StateString` builds the
  snapshot one square at a time. Lemmas prove that the grid-side checks
  (`checkForWinner`, `checkForDraw`) agree with the snapshot-side checks
  (`evaluateAIBoard`, `isAIBoardFull`) when every piece has an owner. That holds for
  every board built by play or decoded from a `'0'`/`'1'`/`'2'` snapshot.
  `Game.OwnerlessRowDisagrees` shows that the checks differ when some piece has no owner.

`basics.dfy` (module `Basics`) holds the `Option` type, the cell index type and the
shared table of winning lines.

The negamax colours are this revision's constants, `HUMAN_PLAYER = -1` and
`AI_PLAYER = 1`. A colour only decides which mark a trial writes: `'1'` for the human
colour, `'2'` for any other.

Points where the code is followed:
- Every win scores 10, whatever its depth. So `updateAI` does not always play a move
  that completes a line at once: a forced win found earlier in scan order ties with it
  and comes first. `Search.ForcedWinBeforeImmediateWin` shows this on
  2 0 0 / 1 2 1 / 2 1 0, where cells 2 and 8 win at once but cell 1 is chosen. What
  holds in general is `Search.ChosenScoresAWin`: the chosen move scores 10 whenever a
  win is available.
- The AI does not always block a threat. `Search.ChosenBlocks` proves it blocks when it
  has no winning move and blocking does not itself score -10. When every move scores -10,
  for example against a fork, the first empty cell is taken whether it blocks or not.
  `Search.ForkDefeatsBlocking` shows this on 0 2 0 / 2 1 2 / 1 1 0. There the human
  threatens cells 2 and 8, and the AI chooses cell 0.
- `setStateString` returns nothing. A snapshot of the wrong length leaves the board
  unchanged, and the caller is not told.

## Model

| member | source | states |
|---|---|---|
| `BoardState.OwnerAt` | classes/TicTacToe.cpp:114-122 | Returns none for every index outside 0..8, including negative ones under C++ truncating `/` and `%`. Inside 0..8 it returns the owner of the piece in that cell, and none for an empty cell. |
| `BoardState.WinnerFrom` | classes/TicTacToe.cpp:132-141 | Scanning lines k onward, returns none iff no line from k on is fully owned by one player. Otherwise returns the owner of the first such line. |
| `BoardState.CheckForWinner` | classes/TicTacToe.cpp:124-142 | Returns none iff no winning line is fully owned by one player. Otherwise returns the owner of a fully owned line that no earlier line, in the order rows, columns, diagonals, precedes. |
| `BoardState.LinesDiffer` | classes/TicTacToe.cpp:126-130 | Two different winning lines never share all three cells. |
| `BoardState.SingleLineWins` | classes/TicTacToe.cpp:124-152 | For each of the eight lines and each player p, a board where p owns exactly that line reports p as winner and is not a draw. |
| `BoardState.HasEmptyFrom` | classes/TicTacToe.cpp:147-150 | True iff some cell at or after the given index is empty. |
| `BoardState.CheckForDraw` | classes/TicTacToe.cpp:144-152 | True iff every cell holds a piece and there is no winner. A full board with a winning line is not a draw. |
| `BoardState.FullBoardDraw` | classes/TicTacToe.cpp:144-152 | A full board is a draw iff no line is fully owned by one player. |
| `BoardState.InitialStateString` | classes/TicTacToe.cpp:154-157 | The initial snapshot decodes to the empty board and is what the empty board encodes to. |
| `BoardState.EncodeChars` | classes/TicTacToe.cpp:164-175 | The snapshot uses only `'0'`, `'1'`, `'2'`. It has `'0'` exactly at empty cells, `'1'` for player 0 and `'2'` for player 1. |
| `BoardState.Decode` | classes/TicTacToe.cpp:179-201 | A snapshot is accepted iff it has length 9. The rebuilt board is empty exactly where the snapshot has `'0'`. A `'1'` or `'2'` at index idx gives a piece of player `s[idx] - '1'`. |
| `BoardState.DecodeEncode` | classes/TicTacToe.cpp:159-201 | Reading back a written snapshot gives the same board when every piece has an owner. |
| `BoardState.EncodeDecode` | classes/TicTacToe.cpp:159-201 | For a 9-character string over `'0'`, `'1'`, `'2'`, writing the snapshot of the board it decodes to gives the string back. That board has no ownerless piece. |
| `Search.Find` | classes/TicTacToe.cpp:242 | `find` gives the first index holding the character, or none when no index does. |
| `Search.IsFull` | classes/TicTacToe.cpp:241-243 | True iff the snapshot contains no `'0'`. |
| `Search.EvaluateFrom` | classes/TicTacToe.cpp:249-256 | Returns 0 or 10, and 10 iff some triple from k on holds three equal marks other than `'0'`. |
| `Search.Evaluate` | classes/TicTacToe.cpp:245-257 | Returns 0 or 10, and 10 iff some winning triple holds three equal marks other than `'0'`. |
| `Search.NegamaxValue` | classes/TicTacToe.cpp:262-292 | The negamax value always lies in {-10, 0, 10}. |
| `Search.ChildValue` | classes/TicTacToe.cpp:281-286 | A trial move's negated child value lies in {-10, 0, 10}. |
| `Search.BestChildFrom` | classes/TicTacToe.cpp:277-289 | The running maximum is at least its start value and at least every child value of the empty cells scanned. It equals the start value or one of those child values. |
| `Search.NegamaxIsMax` | classes/TicTacToe.cpp:277-291 | On a snapshot with no complete line and an empty cell, the value is at least every empty cell's child value, and some empty cell attains it. |
| `Search.WinningMoveValue` | classes/TicTacToe.cpp:262-292 | When the mover's mark completes a line in some empty cell, negamax returns 10. |
| `Search.AllMovesLose` | classes/TicTacToe.cpp:262-292 | When every empty cell's child value is -10, negamax returns -10. |
| `Search.Negamax` | classes/TicTacToe.cpp:262-292 | Returns `NegamaxValue` of the buffer's contents on entry and leaves the buffer as it was on entry. |
| `Search.TrialMove` | classes/TicTacToe.cpp:281-286 | Writing the colour's mark, recursing with the opposite colour and writing `'0'` back leaves the buffer as it was. It yields the cell's child value. |
| `Search.ScanStep` | classes/TicTacToe.cpp:215-227 | A non-empty cell leaves the scan unchanged. An empty cell becomes the choice iff its score is strictly greater than the best so far. |
| `Search.BestMove` | classes/TicTacToe.cpp:205-230 | Returns no move iff the snapshot has no `'0'`. Otherwise returns an empty cell whose score is strictly greater than every earlier empty cell's and at least every later one's. |
| `Search.ChosenAttainsValue` | classes/TicTacToe.cpp:203-292 | On an open snapshot the chosen cell's score equals the AI's negamax value of the position. |
| `Search.ChosenScoresAWin` | classes/TicTacToe.cpp:203-257 | If some empty cell completes a line for `'2'`, the chosen move scores 10. |
| `Search.IgnoredThreatLoses` | classes/TicTacToe.cpp:203-292 | If `'1'` would complete a line at j, an AI move into another cell that does not itself win scores -10. |
| `Search.ChosenBlocks` | classes/TicTacToe.cpp:203-292 | With no winning move, a human threat at j, and blocking at j not losing, the chosen cell is j. |
| `Search.BlockAtTwoLoses` | classes/TicTacToe.cpp:262-292 | On 2 2 1 / 1 2 1 / 2 1 0 with the AI to move, the value is 10. |
| `Search.BlockAtEightLoses` | classes/TicTacToe.cpp:262-292 | On 2 2 0 / 1 2 1 / 2 1 1 with the AI to move, the value is 10. |
| `Search.CellOneForcesWin` | classes/TicTacToe.cpp:203-292 | On 2 0 0 / 1 2 1 / 2 1 0, the AI's move into cell 1 scores 10. |
| `Search.ForcedWinBeforeImmediateWin` | classes/TicTacToe.cpp:203-239 | On 2 0 0 / 1 2 1 / 2 1 0, cells 2 and 8 complete a line at once and cell 1 does not, yet cell 1 is the only cell updateAI chooses. |
| `Search.NoAiWinAt` | classes/TicTacToe.cpp:245-257 | On 0 2 0 / 2 1 2 / 1 1 0, a `'2'` in cell 0, 2 or 8 completes no line. |
| `Search.ForkDefeatsBlocking` | classes/TicTacToe.cpp:203-239 | On 0 2 0 / 2 1 2 / 1 1 0, `'1'` would complete a line at cell 2 and at cell 8. updateAI chooses only cell 0, which blocks neither. |
| `Game.TicTacToe.constructor` | classes/TicTacToe.cpp:63-71 | A new game has a 3x3 grid with every square empty. |
| `Game.TicTacToe.StopGame` | classes/TicTacToe.cpp:106-112 | After the call every square is empty. |
| `Game.TicTacToe.ActionForEmptyHolder` | classes/TicTacToe.cpp:77-92 | Returns true iff the square is given and empty. Then that square alone gains a piece of the current player. On false nothing changes. |
| `Game.TicTacToe.StateString` | classes/TicTacToe.cpp:159-177 | Returns the snapshot of the grid's contents in row-major order. |
| `Game.TicTacToe.SetStateString` | classes/TicTacToe.cpp:179-201 | A string whose length is not 9 leaves the grid unchanged. Any other string replaces the whole grid by the board it decodes to. |
| `Game.TicTacToe.UpdateAI` | classes/TicTacToe.cpp:203-239 | The turn ends iff the snapshot had an empty cell. The cell `BestMove` specifies then alone gains a piece of the current player. Otherwise nothing changes. |
| `Game.LineAgrees` | classes/TicTacToe.cpp:124-257 | When every piece has an owner, a triple of equal non-`'0'` marks in the snapshot is exactly a line one player owns on the board. |
| `Game.WinnerAgreesWithEvaluate` | classes/TicTacToe.cpp:124-257 | When every piece has an owner, evaluateAIBoard on the snapshot returns 10 iff checkForWinner finds a winner. |
| `Game.DrawAgreesWithSearch` | classes/TicTacToe.cpp:144-292 | When every piece has an owner, a draw is a full snapshot evaluating to 0, where negamax returns 0. A board with a winner has negamax value -10. |
| `Game.OwnerlessRowDisagrees` | classes/TicTacToe.cpp:168-201 | `'3'` decodes to an ownerless piece. Three ownerless pieces in the top row are written as "111000000", a win for evaluateAIBoard, while checkForWinner reports none. |
| `Game.OwnerlessRowEncodes` | classes/TicTacToe.cpp:168-173 | Three ownerless pieces in the top row are written as "111000000", because an ownerless piece counts as player 0. |
| `Game.OwnerlessHasNoWinner` | classes/TicTacToe.cpp:120-141 | A board on which no cell has an owner has no winner. |

## Left out

- Rendering and resources are not modelled. This covers `PieceForPlayer`'s texture
  loading and allocation, `setUpBoard`'s pixel layout and sprite setup, and every
  `setPosition` call. A piece is only its owner.
- The engine glue is not modelled. `setNumberOfPlayers`, `setAIPlayer` and
  `startGame` have no visible definitions. `getCurrentPlayer()` becomes the
  `current` parameter. `endTurn()` becomes the `turnEnded` result of `UpdateAI`.
- `getPlayerAt`'s definition is not visible. The model assumes it returns a player
  for indices 0 and 1 and no player for any other index. That is how a snapshot
  character other than `'0'`, `'1'`, `'2'` yields an ownerless piece.
- `canBitMoveFrom`, `canBitMoveFromTo` (both always false) and the empty constructor
  and destructor are not modelled.
- Pointer identity and `destroyBit`'s memory management are not modelled. Ownership
  is a player index, and a removed piece is an `Empty` cell.
- `negamax`'s `depth` parameter is not modelled. It only counts plies and affects
  neither the score nor the search.
- `Search.NegamaxValue`, `Search.Negamax`: these require a 9-character buffer, the
  only length `updateAI` passes. A longer buffer can make the C++ return values outside
  {-10, 0, 10}. It returns -1000 when cells 0..8 are full with no line but a `'0'`
  follows. Values of ±1000 are then carried up from such positions. This case is not
  modelled.
- `Search.Evaluate`: this requires at least 9 characters, because the C++ indexes
  positions up to 8.
- `Search.NegamaxValue`: its value on the empty board (a draw under optimal play) is
  not proved. That would need the whole game tree to be evaluated.
- A `BitHolder*` is modelled by the square's coordinates, and a null pointer by `None`.
