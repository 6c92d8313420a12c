# Minesweeper engine of mines.py, in Dafny

`mines.py` is a terminal minesweeper game. The engine in it has two parts:

- `Game` holds a square board of `Cell` objects and the counters
  `flags_remaining`, `mines` and `mines_found`.
- `Game` also holds a `result`. It is `None` while the game runs, then the loss
  or the win message.

The engine's operations are:

- the constructor, which lays the mines;
- `pos_is_on_board`, the bounds test;
- `count_surrounding_mines`, the neighbour count;
- `handle_move`, which reveals a cell or loses on a mine;
- `handle_flag`, which toggles a flag and moves the counters;
- `update_game_result_if_victory`.

The project has two modules.

- `model.dfy`, module `MinesModel`: the engine's state as values, with one
  function for each state change.
  - The state is `GameState`. A cell's fields are `CellState`.
  - The state changes are `Initial`, `Move`, `ToggleFlag` and `CheckVictory`.
  - The specification of the neighbour count is `NeighbourMines`. It is the
    size of the set of on-board mined positions in the eight-position ring
    around a cell.
  - The lemmas state what the engine promises about these functions: the
    counter invariant `CountersAgree`, idempotence, involution, the victory
    condition and bounds.
- `mines.dfy`, module `Mines`: the classes `Cell` and `Game`.
  - Their fields are updated in place, as in the Python.
  - `Game` keeps a ghost `grid` with the state of every cell and a ghost `Repr`
    with the cells themselves.
  - `Valid()` ties each `Cell` object of `board` to `grid`.
  - `View()` is the whole game as a `GameState`.
  - Every method is proved to move `View()` exactly as the matching model
    function does. Everything proved about the model therefore holds for the
    objects.

Representation choices:

- `result` is the datatype `Outcome`: `InProgress` stands for `None`, `Lost`
  for "You lost." and `Won` for the win message.
- `surrounding` is an `Option<int>`.
- Integers are unbounded, as in Python.
- `range(0, size)` is empty for a negative size, so a negative size builds an
  empty board (`Dim`).
- The constructor takes the mine layout as a set of positions. A cell is mined
  exactly when its position is in the set. This replaces the Python test
  `random() > .7`.

`HandleMove` counts the neighbouring mines before it sets `clicked`. The Python
sets `clicked` first. The count reads only the `mined` field of the cells, so
the two orders leave the same state.

## Model

| member | source | states |
|---|---|---|
| Mines.Cell.constructor | mines.py:94-100 | A new cell sits at the given position and is unmined, unclicked and unflagged, with no number. |
| Mines.Game.constructor | mines.py:8-27 | Builds a valid game whose state is `Initial(size, layout)`. That is a `Dim(size)` x `Dim(size)` board of fresh cells, each at its own position and mined exactly where the layout says. |
| Mines.Game.LayBoard | mines.py:15-25 | The nested loops build `Dim(size)` rows of fresh cells, each as `InitialCell` describes it. Both `mines` and `flags_remaining` end equal to the number of mined cells of the initial board. |
| Mines.Game.AppendRow | mines.py:17-25 | One pass of the outer loop appends row `r` of fresh cells, each mined where the layout says. Both counters grow by the number of mines in that row. |
| MinesModel.InitialState | mines.py:8-27 | The initial board has `Dim(size)` rows of `Dim(size)` cells. The cell at (r, c) has position (r, c) and is unclicked, unflagged and without a number, and it is mined iff (r, c) is in the layout. `mines == flags_remaining ==` the number of mined cells, `mines_found == 0`, the game is in progress and the counter invariant holds. |
| MinesModel.InitialRows | mines.py:16-25 | The first k rows of the board: k rows, row i being `InitialRow(i, n)`. |
| MinesModel.InitialRow | mines.py:18-24 | The first k cells of a row: k cells, cell j being `InitialCell(r, j)`. |
| Mines.Game.PosIsOnBoard | mines.py:63-64 | True exactly for the positions that index a cell of the board. |
| Mines.Game.CountSurroundingMines | mines.py:48-61 | The nested loop returns `NeighbourMines`: the number of the eight positions around `pos` that are on the board and mined. |
| MinesModel.SeenAdvance | mines.py:54-59 | One pass of the inner loop adds 1 exactly when the examined position is on the board, is not `pos` and is mined. |
| MinesModel.NeighbourMinesAtMostEight | mines.py:48-61 | The neighbour count is at most 8. |
| MinesModel.NeighbourMinesOnBoard | mines.py:58 | Every mined neighbour that is counted is on the board. So the count is at most the number of on-board positions around `pos` (`OnBoardRing`). |
| MinesModel.CornerNeighbourMines | mines.py:53-59 | On a board of size at least 2, a corner has exactly 3 neighbours on the board and so at most 3 mines around it. |
| MinesModel.EdgeNeighbourMines | mines.py:53-59 | A cell on exactly one edge has exactly 5 neighbours on the board and so at most 5 mines around it. |
| MinesModel.RowEdgeNeighbours | mines.py:53-59 | A cell on the top or bottom edge, away from the corners, has exactly 5 neighbours on the board. |
| MinesModel.ColumnEdgeNeighbours | mines.py:53-59 | A cell on the left or right edge, away from the corners, has exactly 5 neighbours on the board. |
| MinesModel.InteriorNeighbours | mines.py:53-59 | For a cell off the edges, all eight surrounding positions are on the board. |
| MinesModel.NeighbourMinesIgnoresSelf | mines.py:57-58 | The count does not depend on the cell at `pos` itself. |
| MinesModel.NeighbourMinesReadsOnlyMines | mines.py:58 | Two boards of the same shape and the same mines give the same count. |
| Mines.Game.HandleMove | mines.py:66-72 | Keeps the game valid and moves its state to `Move(old state, row, col)`. |
| MinesModel.MoveEffect | mines.py:66-72 | On a mine, only `result` changes, to Lost. Otherwise only the target cell changes: it becomes clicked, with the neighbour count as its number. No counter changes and `result` stays as it was. |
| MinesModel.MoveIdempotent | mines.py:66-72 | Revealing the same cell twice gives the state that revealing it once gives. |
| MinesModel.MovePreservesCounters | mines.py:66-72 | A move keeps the counter invariant: `mines` is the number of mined cells, `mines_found` the number of flagged mined cells, and `flags_remaining` is `mines` less the number of flagged cells. |
| Mines.Game.HandleFlag | mines.py:74-87 | Keeps the game valid and moves its state to `ToggleFlag(old state, row, col)`. |
| MinesModel.ToggleFlagEffect | mines.py:74-87 | Only the target cell changes, and only its flag, which is negated. `flags_remaining` moves by -1 when flagging and +1 when unflagging. `mines_found` moves the opposite way, and only when the cell is mined. `mines` and `result` are unchanged. |
| MinesModel.ToggleFlagTwice | mines.py:74-87 | Two toggles on the same cell restore the whole state. |
| MinesModel.ToggleFlagPreservesCounters | mines.py:74-87 | A flag toggle keeps the counter invariant. |
| MinesModel.FlagGateKeepsFlagsWithinMines | mines.py:113-115 | When a toggle is made only while flags remain, as the driver allows, `flags_remaining` stays non-negative. The number of flagged cells then stays at most `mines`. |
| MinesModel.CountPut | mines.py:74-87 | Replacing one cell changes a board count by the difference of the old and new cell's indicators. |
| MinesModel.CountNone | mines.py:12-13 | A board where no cell has the property counts zero. |
| MinesModel.FoundMines | mines.py:89-91 | Flagged mines never outnumber mines. They are equally many exactly when every mined cell is flagged. |
| Mines.Game.UpdateGameResultIfVictory | mines.py:89-91 | Keeps the game valid and moves its state to `CheckVictory(old state)`. |
| MinesModel.CheckVictoryEffect | mines.py:89-91 | Nothing but `result` changes: the size, the board and the three counters stay. `result` becomes Won when `mines_found == mines`, and is otherwise unchanged. |
| MinesModel.VictoryIffAllMinesFlagged | mines.py:89-91 | In a running game that keeps the counter invariant, the check declares a win iff every mined cell is flagged. |
| MinesModel.NoMinesWinsAtOnce | mines.py:89-91 | A board with no mines is won by the first victory check. |
| MinesModel.CornerNextToMiddleMineShowsOne | mines.py:66-72 | On a 3 x 3 board mined only at (1, 1), revealing (0, 0) keeps the game running and shows 1. |
| MinesModel.FlaggingTheOnlyMineWins | mines.py:74-91 | On a 2 x 2 board mined only at (0, 0), flagging (0, 0) uses the last flag and sets `mines_found` to 1. The victory check then declares a win. |
| MinesModel.RevealingTheMineLoses | mines.py:66-69 | On a 2 x 2 board mined at (0, 0), revealing (0, 0) loses the game and leaves the cell unclicked. |

## Left out

- `print_board` and `draw_cell` (mines.py:29-46) are left out. They only render
  the board as text on standard output.
- The interactive loop under `__main__` (mines.py:103-142) is left out. It reads
  input, parses `row,col` strings and prints messages. What it guarantees the
  engine appears instead:
  - The bounds check at mines.py:130 is the `OnBoard` precondition of
    `HandleMove` and `HandleFlag`. Without it, a negative index would wrap round
    to the far end of a Python list, and the model does not imitate that
    wrap-around.
  - The `flags_remaining == 0` gate at mines.py:113 is the precondition of
    `FlagGateKeepsFlagsWithinMines`.
  - The victory check runs only while `result is None` (mines.py:139-140). This
    is the `InProgress` precondition of `VictoryIffAllMinesFlagged`.
- `random()` (mines.py:1, mines.py:20) is replaced by the layout parameter of the
  constructor. The probability 0.3 of a mine is not modelled.
- The engine does not stop a later move or victory check from overwriting
  `result` once the game has ended. Only the driver stops calling it. The model
  keeps that behaviour and proves no terminality.
- The default `size=8` of the constructor is not modelled. The size is always
  passed.
- Mines.Game.HandleMove, Mines.Game.HandleFlag and Mines.Game.constructor do not
  restate the counter invariant in their own postconditions. They give the new
  state as `Move`, `ToggleFlag` or `Initial` of the old one. The invariant is
  proved about those functions by `MovePreservesCounters`,
  `ToggleFlagPreservesCounters` and `InitialState`.
