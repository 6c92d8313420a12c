/**
 * Value-level model of the minesweeper engine of mines.py: the state of a
 * game as a datatype, and one function per state change of class Game
 * (construction, handle_move, handle_flag, update_game_result_if_victory).
 * The class Mines.Game is proved against these functions; the lemmas here
 * state what the engine promises about them.
 */
module MinesModel {

  datatype Option<T> = None | Some(value: T)

  /** The namedtuple Pos: a zero-based (row, column) pair. */
  datatype Pos = Pos(row: int, col: int)

  /** Game.result: None while the game runs, then the loss or the win message. */
  datatype Outcome = InProgress | Lost | Won

  /** The fields of one Cell object at one moment. */
  datatype CellState = CellState(pos: Pos, mined: bool, clicked: bool, flagged: bool, surrounding: Option<int>)

  /** Game.board: a list of rows, each a list of cells. */
  type Grid = seq<seq<CellState>>

  /** The fields of one Game object at one moment. */
  datatype GameState = GameState(size: int, board: Grid, result: Outcome, flagsRemaining: int, mines: int, minesFound: int)

  /** Number of rows (and of cells per row) that range(0, size) produces. */
  function Dim(size: int): nat
  {
    if size < 0 then 0 else size
  }

  /** Game.pos_is_on_board. */
  predicate OnBoard(size: int, row: int, col: int)
  {
    0 <= row < size && 0 <= col < size
  }

  /** The board has Dim(size) rows of Dim(size) cells. */
  predicate Shaped(board: Grid, size: int)
  {
    |board| == Dim(size) && forall r :: 0 <= r < |board| ==> |board[r]| == Dim(size)
  }

  /** Shape, and every cell knows its own position. */
  predicate WellFormed(s: GameState)
  {
    Shaped(s.board, s.size) &&
    forall r, c :: 0 <= r < |s.board| && 0 <= c < |s.board[r]| ==> s.board[r][c].pos == Pos(r, c)
  }

  /** The board with the cell at (r, c) replaced by x. */
  function Put(board: Grid, r: int, c: int, x: CellState): (b: Grid)
    requires 0 <= r < |board| && 0 <= c < |board[r]|
    ensures |b| == |board| && forall i :: 0 <= i < |b| ==> |b[i]| == |board[i]|
    ensures forall i, j :: 0 <= i < |b| && 0 <= j < |b[i]| ==>
              b[i][j] == if i == r && j == c then x else board[i][j]
  {
    board[r := board[r][c := x]]
  }

  // ---------------------------------------------------------------------
  // Counting cells

  predicate IsMined(x: CellState) { x.mined }
  predicate IsFlagged(x: CellState) { x.flagged }
  predicate IsFoundMine(x: CellState) { x.flagged && x.mined }

  function Indicator(b: bool): nat
  {
    if b then 1 else 0
  }

  /** Number of cells among the first k of a row that satisfy p. */
  function CountRow(row: seq<CellState>, k: int, p: CellState -> bool): nat
    requires 0 <= k <= |row|
  {
    if k == 0 then 0 else CountRow(row, k - 1, p) + Indicator(p(row[k - 1]))
  }

  /** Number of cells in the first k rows of the board that satisfy p. */
  function CountRows(board: Grid, k: int, p: CellState -> bool): nat
    requires 0 <= k <= |board|
  {
    if k == 0 then 0 else CountRows(board, k - 1, p) + CountRow(board[k - 1], |board[k - 1]|, p)
  }

  /** Number of cells of the board that satisfy p. */
  function Count(board: Grid, p: CellState -> bool): nat
  {
    CountRows(board, |board|, p)
  }

  /** Replacing cell c changes a row's count by the difference of the two cells' indicators. */
  lemma {:induction false} CountRowPut(row: seq<CellState>, k: int, c: int, x: CellState, p: CellState -> bool)
    requires 0 <= k <= |row| && 0 <= c < |row|
    ensures CountRow(row[c := x], k, p) + (if c < k then Indicator(p(row[c])) else 0) ==
            CountRow(row, k, p) + (if c < k then Indicator(p(x)) else 0)
  {
    if k > 0 {
      CountRowPut(row, k - 1, c, x, p);
    }
  }

  lemma {:induction false} CountRowsPut(board: Grid, k: int, r: int, c: int, x: CellState, p: CellState -> bool)
    requires 0 <= k <= |board| && 0 <= r < |board| && 0 <= c < |board[r]|
    ensures CountRows(Put(board, r, c, x), k, p) + (if r < k then Indicator(p(board[r][c])) else 0) ==
            CountRows(board, k, p) + (if r < k then Indicator(p(x)) else 0)
  {
    if k > 0 {
      CountRowsPut(board, k - 1, r, c, x, p);
      if k - 1 == r {
        CountRowPut(board[r], |board[r]|, c, x, p);
      }
    }
  }

  /** Replacing one cell changes the board's count by the difference of the two cells' indicators. */
  lemma CountPut(board: Grid, r: int, c: int, x: CellState, p: CellState -> bool)
    requires 0 <= r < |board| && 0 <= c < |board[r]|
    ensures Count(Put(board, r, c, x), p) + Indicator(p(board[r][c])) == Count(board, p) + Indicator(p(x))
  {
    CountRowsPut(board, |board|, r, c, x, p);
  }

  lemma {:induction false} CountRowNone(row: seq<CellState>, k: int, p: CellState -> bool)
    requires 0 <= k <= |row|
    requires forall j :: 0 <= j < |row| ==> !p(row[j])
    ensures CountRow(row, k, p) == 0
  {
    if k > 0 {
      CountRowNone(row, k - 1, p);
    }
  }

  lemma {:induction false} CountRowsNone(board: Grid, k: int, p: CellState -> bool)
    requires 0 <= k <= |board|
    requires forall i, j :: 0 <= i < |board| && 0 <= j < |board[i]| ==> !p(board[i][j])
    ensures CountRows(board, k, p) == 0
  {
    if k > 0 {
      CountRowsNone(board, k - 1, p);
      CountRowNone(board[k - 1], |board[k - 1]|, p);
    }
  }

  /** A board none of whose cells satisfies p counts zero. */
  lemma CountNone(board: Grid, p: CellState -> bool)
    requires forall i, j :: 0 <= i < |board| && 0 <= j < |board[i]| ==> !p(board[i][j])
    ensures Count(board, p) == 0
  {
    CountRowsNone(board, |board|, p);
  }

  /** Every mined cell among the first k of the row is flagged. */
  predicate RowMinesFlagged(row: seq<CellState>, k: int)
    requires 0 <= k <= |row|
  {
    forall j :: 0 <= j < k ==> row[j].mined ==> row[j].flagged
  }

  /** Every mined cell in the first k rows of the board is flagged. */
  predicate RowsMinesFlagged(board: Grid, k: int)
    requires 0 <= k <= |board|
  {
    forall i :: 0 <= i < k ==> RowMinesFlagged(board[i], |board[i]|)
  }

  /** Every mined cell of the board is flagged. */
  predicate AllMinesFlagged(board: Grid)
  {
    RowsMinesFlagged(board, |board|)
  }

  lemma {:induction false} RowFoundMines(row: seq<CellState>, k: int)
    requires 0 <= k <= |row|
    ensures CountRow(row, k, IsFoundMine) <= CountRow(row, k, IsMined)
    ensures CountRow(row, k, IsFoundMine) == CountRow(row, k, IsMined) <==> RowMinesFlagged(row, k)
  {
    if k > 0 {
      RowFoundMines(row, k - 1);
    }
  }

  lemma {:induction false} RowsFoundMines(board: Grid, k: int)
    requires 0 <= k <= |board|
    ensures CountRows(board, k, IsFoundMine) <= CountRows(board, k, IsMined)
    ensures CountRows(board, k, IsFoundMine) == CountRows(board, k, IsMined) <==> RowsMinesFlagged(board, k)
  {
    if k > 0 {
      RowsFoundMines(board, k - 1);
      RowFoundMines(board[k - 1], |board[k - 1]|);
    }
  }

  /** Flagged mines never outnumber mines, and they are as many exactly when every mine is flagged. */
  lemma FoundMines(board: Grid)
    ensures Count(board, IsFoundMine) <= Count(board, IsMined)
    ensures Count(board, IsFoundMine) == Count(board, IsMined) <==> AllMinesFlagged(board)
  {
    RowsFoundMines(board, |board|);
  }

  // ---------------------------------------------------------------------
  // The neighbourhood of a position

  /** The eight positions around pos. */
  function Ring(pos: Pos): set<Pos>
  {
    {Pos(pos.row - 1, pos.col - 1), Pos(pos.row - 1, pos.col), Pos(pos.row - 1, pos.col + 1),
     Pos(pos.row, pos.col - 1), Pos(pos.row, pos.col + 1),
     Pos(pos.row + 1, pos.col - 1), Pos(pos.row + 1, pos.col), Pos(pos.row + 1, pos.col + 1)}
  }

  lemma InRing(pos: Pos, q: Pos)
    ensures q in Ring(pos) <==>
      -1 <= q.row - pos.row <= 1 && -1 <= q.col - pos.col <= 1 && q != pos
  {
  }

  /** The positions around pos that are on the board and mined. */
  function MinedNeighbours(board: Grid, size: int, pos: Pos): set<Pos>
    requires Shaped(board, size)
  {
    set q | q in Ring(pos) && OnBoard(size, q.row, q.col) && board[q.row][q.col].mined
  }

  /** The number of mines around pos, as count_surrounding_mines should give it. */
  function NeighbourMines(board: Grid, size: int, pos: Pos): nat
    requires Shaped(board, size)
  {
    |MinedNeighbours(board, size, pos)|
  }

  /** The mined neighbours whose offset from pos comes before (dr, dc) in row-major order. */
  function SeenBefore(board: Grid, size: int, pos: Pos, dr: int, dc: int): set<Pos>
    requires Shaped(board, size)
  {
    set q | q in MinedNeighbours(board, size, pos) &&
      (q.row - pos.row < dr || (q.row - pos.row == dr && q.col - pos.col < dc))
  }

  lemma SeenNone(board: Grid, size: int, pos: Pos)
    requires Shaped(board, size)
    ensures SeenBefore(board, size, pos, -1, -1) == {}
  {
    forall q | q in MinedNeighbours(board, size, pos)
      ensures q !in SeenBefore(board, size, pos, -1, -1)
    {
      InRing(pos, q);
    }
  }

  lemma SeenAll(board: Grid, size: int, pos: Pos)
    requires Shaped(board, size)
    ensures SeenBefore(board, size, pos, 2, -1) == MinedNeighbours(board, size, pos)
  {
    forall q | q in MinedNeighbours(board, size, pos)
      ensures q in SeenBefore(board, size, pos, 2, -1)
    {
      InRing(pos, q);
    }
  }

  /** Finishing the three columns of offset row dr is starting offset row dr + 1. */
  lemma SeenNextRow(board: Grid, size: int, pos: Pos, dr: int)
    requires Shaped(board, size)
    ensures SeenBefore(board, size, pos, dr, 2) == SeenBefore(board, size, pos, dr + 1, -1)
  {
    forall q | q in MinedNeighbours(board, size, pos)
      ensures q in SeenBefore(board, size, pos, dr, 2) <==> q in SeenBefore(board, size, pos, dr + 1, -1)
    {
      InRing(pos, q);
    }
  }

  /**
   * Examining offset (dr, dc) adds its position to the mined neighbours seen
   * so far exactly when it is not pos itself, is on the board and is mined,
   * and that position was not seen before.
   */
  lemma SeenStep(board: Grid, size: int, pos: Pos, dr: int, dc: int)
    requires Shaped(board, size)
    requires -1 <= dr <= 1 && -1 <= dc <= 1
    ensures Pos(pos.row + dr, pos.col + dc) in MinedNeighbours(board, size, pos) <==>
      !(dr == 0 && dc == 0) && OnBoard(size, pos.row + dr, pos.col + dc) && board[pos.row + dr][pos.col + dc].mined
    ensures Pos(pos.row + dr, pos.col + dc) !in SeenBefore(board, size, pos, dr, dc)
    ensures SeenBefore(board, size, pos, dr, dc + 1) ==
      SeenBefore(board, size, pos, dr, dc) +
      (if Pos(pos.row + dr, pos.col + dc) in MinedNeighbours(board, size, pos) then {Pos(pos.row + dr, pos.col + dc)} else {})
  {
    InRing(pos, Pos(pos.row + dr, pos.col + dc));
  }

  /** The step of count_surrounding_mines' inner loop, in numbers. */
  lemma SeenAdvance(board: Grid, size: int, pos: Pos, dr: int, dc: int)
    requires Shaped(board, size)
    requires -1 <= dr <= 1 && -1 <= dc <= 1
    ensures |SeenBefore(board, size, pos, dr, dc + 1)| == |SeenBefore(board, size, pos, dr, dc)| +
      Indicator(OnBoard(size, pos.row + dr, pos.col + dc) && !(dr == 0 && dc == 0) && board[pos.row + dr][pos.col + dc].mined)
  {
    SeenStep(board, size, pos, dr, dc);
  }

  /** Seen sets grow by at most one per offset, and never at the centre. */
  lemma {:induction false} SeenBound(board: Grid, size: int, pos: Pos, dr: int, dc: int)
    requires Shaped(board, size)
    requires -1 <= dr <= 2 && -1 <= dc <= 2 && (dr == 2 ==> dc == -1)
    ensures |SeenBefore(board, size, pos, dr, dc)| <= 3 * (dr + 1) + (dc + 1) - (if dr > 0 || (dr == 0 && dc > 0) then 1 else 0)
    decreases dr + 1, dc + 1
  {
    if dr == -1 && dc == -1 {
      SeenNone(board, size, pos);
    } else if dc == -1 {
      SeenNextRow(board, size, pos, dr - 1);
      SeenBound(board, size, pos, dr - 1, 2);
    } else {
      SeenStep(board, size, pos, dr, dc - 1);
      SeenBound(board, size, pos, dr, dc - 1);
    }
  }

  /** At most eight mines surround a cell. */
  lemma NeighbourMinesAtMostEight(board: Grid, size: int, pos: Pos)
    requires Shaped(board, size)
    ensures NeighbourMines(board, size, pos) <= 8
  {
    SeenBound(board, size, pos, 2, -1);
    SeenAll(board, size, pos);
  }

  /** The count reads nothing of the board but which cells are mined. */
  lemma NeighbourMinesReadsOnlyMines(b1: Grid, b2: Grid, size: int, pos: Pos)
    requires Shaped(b1, size) && Shaped(b2, size)
    requires forall i, j :: 0 <= i < |b1| && 0 <= j < |b1[i]| ==> b1[i][j].mined == b2[i][j].mined
    ensures MinedNeighbours(b1, size, pos) == MinedNeighbours(b2, size, pos)
    ensures NeighbourMines(b1, size, pos) == NeighbourMines(b2, size, pos)
  {
  }

  /** The positions around pos that are on the board: the only ones the count can include. */
  function OnBoardRing(size: int, pos: Pos): set<Pos>
  {
    set q | q in Ring(pos) && OnBoard(size, q.row, q.col)
  }

  lemma {:induction false} SubsetSize<T>(a: set<T>, b: set<T>)
    requires a <= b
    ensures |a| <= |b|
    decreases |b|
  {
    if a != {} {
      var x :| x in a;
      SubsetSize(a - {x}, b - {x});
    }
  }

  /** Every mined neighbour is on the board, so the count is at most the number of on-board neighbours. */
  lemma NeighbourMinesOnBoard(board: Grid, size: int, pos: Pos)
    requires Shaped(board, size)
    ensures MinedNeighbours(board, size, pos) <= OnBoardRing(size, pos)
    ensures NeighbourMines(board, size, pos) <= |OnBoardRing(size, pos)|
  {
    SubsetSize(MinedNeighbours(board, size, pos), OnBoardRing(size, pos));
  }

  /** A corner of a board of size at least 2 has three neighbours on the board, so at most three mines around it. */
  lemma CornerNeighbourMines(board: Grid, size: int, pos: Pos)
    requires Shaped(board, size) && size >= 2 && OnBoard(size, pos.row, pos.col)
    requires (pos.row == 0 || pos.row == size - 1) && (pos.col == 0 || pos.col == size - 1)
    ensures |OnBoardRing(size, pos)| == 3
    ensures NeighbourMines(board, size, pos) <= 3
  {
    var dr := if pos.row == 0 then 1 else -1;
    var dc := if pos.col == 0 then 1 else -1;
    var around := {Pos(pos.row, pos.col + dc), Pos(pos.row + dr, pos.col), Pos(pos.row + dr, pos.col + dc)};
    forall q ensures q in OnBoardRing(size, pos) <==> q in around {
      InRing(pos, q);
    }
    assert OnBoardRing(size, pos) == around;
    NeighbourMinesOnBoard(board, size, pos);
  }

  /** A cell on the top or bottom edge, away from the corners, has five neighbours on the board. */
  lemma RowEdgeNeighbours(size: int, pos: Pos)
    requires (pos.row == 0 || pos.row == size - 1) && 0 < pos.col < size - 1
    ensures |OnBoardRing(size, pos)| == 5
  {
    var dr := if pos.row == 0 then 1 else -1;
    var around := {Pos(pos.row, pos.col - 1), Pos(pos.row, pos.col + 1),
                   Pos(pos.row + dr, pos.col - 1), Pos(pos.row + dr, pos.col), Pos(pos.row + dr, pos.col + 1)};
    forall q ensures q in OnBoardRing(size, pos) <==> q in around {
      InRing(pos, q);
    }
    assert OnBoardRing(size, pos) == around;
  }

  /** A cell on the left or right edge, away from the corners, has five neighbours on the board. */
  lemma ColumnEdgeNeighbours(size: int, pos: Pos)
    requires (pos.col == 0 || pos.col == size - 1) && 0 < pos.row < size - 1
    ensures |OnBoardRing(size, pos)| == 5
  {
    var dc := if pos.col == 0 then 1 else -1;
    var around := {Pos(pos.row - 1, pos.col), Pos(pos.row + 1, pos.col),
                   Pos(pos.row - 1, pos.col + dc), Pos(pos.row, pos.col + dc), Pos(pos.row + 1, pos.col + dc)};
    forall q ensures q in OnBoardRing(size, pos) <==> q in around {
      InRing(pos, q);
    }
    assert OnBoardRing(size, pos) == around;
  }

  /** A cell on exactly one edge of the board has five neighbours on the board, so at most five mines around it. */
  lemma EdgeNeighbourMines(board: Grid, size: int, pos: Pos)
    requires Shaped(board, size) && OnBoard(size, pos.row, pos.col)
    requires (pos.row == 0 || pos.row == size - 1) != (pos.col == 0 || pos.col == size - 1)
    ensures |OnBoardRing(size, pos)| == 5
    ensures NeighbourMines(board, size, pos) <= 5
  {
    if pos.row == 0 || pos.row == size - 1 {
      RowEdgeNeighbours(size, pos);
    } else {
      ColumnEdgeNeighbours(size, pos);
    }
    NeighbourMinesOnBoard(board, size, pos);
  }

  /** All eight neighbours of a cell off the edges are on the board. */
  lemma InteriorNeighbours(size: int, pos: Pos)
    requires 0 < pos.row < size - 1 && 0 < pos.col < size - 1
    ensures OnBoardRing(size, pos) == Ring(pos)
    ensures |OnBoardRing(size, pos)| == 8
  {
    forall q | q in Ring(pos) ensures OnBoard(size, q.row, q.col) {
      InRing(pos, q);
    }
  }

  /** The mine under pos itself never counts towards pos's number. */
  lemma NeighbourMinesIgnoresSelf(board: Grid, size: int, pos: Pos, x: CellState)
    requires Shaped(board, size) && OnBoard(size, pos.row, pos.col)
    ensures NeighbourMines(Put(board, pos.row, pos.col, x), size, pos) == NeighbourMines(board, size, pos)
  {
    var b := Put(board, pos.row, pos.col, x);
    forall q ensures q in MinedNeighbours(b, size, pos) <==> q in MinedNeighbours(board, size, pos) {
      InRing(pos, q);
    }
    assert MinedNeighbours(b, size, pos) == MinedNeighbours(board, size, pos);
  }

  // ---------------------------------------------------------------------
  // Construction

  function InitialCell(r: int, c: int, layout: set<Pos>): CellState
  {
    CellState(Pos(r, c), Pos(r, c) in layout, false, false, None)
  }

  /** The first k cells of row r as Game.__init__ builds them. */
  function InitialRow(r: int, k: nat, layout: set<Pos>): (row: seq<CellState>)
    ensures |row| == k && forall j :: 0 <= j < k ==> row[j] == InitialCell(r, j, layout)
  {
    if k == 0 then [] else InitialRow(r, k - 1, layout) + [InitialCell(r, k - 1, layout)]
  }

  /** The first k rows, of n cells each, as Game.__init__ builds them. */
  function InitialRows(k: nat, n: nat, layout: set<Pos>): (g: Grid)
    ensures |g| == k && forall i :: 0 <= i < k ==> g[i] == InitialRow(i, n, layout)
  {
    if k == 0 then [] else InitialRows(k - 1, n, layout) + [InitialRow(k - 1, n, layout)]
  }

  /** The board Game.__init__ builds when random() > .7 is true exactly at the mined positions of layout. */
  function InitialGrid(size: int, layout: set<Pos>): Grid
  {
    InitialRows(Dim(size), Dim(size), layout)
  }

  /** The state after Game.__init__: both counters equal to the number of mines laid. */
  function Initial(size: int, layout: set<Pos>): GameState
  {
    var board := InitialGrid(size, layout);
    var mines := Count(board, IsMined);
    GameState(size, board, InProgress, mines, mines, 0)
  }

  /**
   * The counter invariant: mines is the number of mined cells, minesFound the
   * number of flagged mined cells, and flagsRemaining is mines less the
   * number of flagged cells.
   */
  predicate CountersAgree(s: GameState)
  {
    s.mines == Count(s.board, IsMined) &&
    s.minesFound == Count(s.board, IsFoundMine) &&
    s.flagsRemaining == s.mines - Count(s.board, IsFlagged)
  }

  lemma InitialState(size: int, layout: set<Pos>)
    ensures var s := Initial(size, layout);
      WellFormed(s) && |s.board| == Dim(size) &&
      (forall r, c :: OnBoard(size, r, c) ==> s.board[r][c] == CellState(Pos(r, c), Pos(r, c) in layout, false, false, None)) &&
      s.result == InProgress && s.minesFound == 0 &&
      s.mines == s.flagsRemaining == Count(s.board, IsMined) &&
      CountersAgree(s)
  {
    var s := Initial(size, layout);
    CountNone(s.board, IsFlagged);
    CountNone(s.board, IsFoundMine);
  }

  // ---------------------------------------------------------------------
  // Moves

  /** Game.handle_move: lose on a mine, otherwise reveal the cell and record its number. */
  function Move(s: GameState, row: int, col: int): GameState
    requires WellFormed(s) && OnBoard(s.size, row, col)
  {
    var cell := s.board[row][col];
    if cell.mined then
      s.(result := Lost)
    else
      var n := NeighbourMines(s.board, s.size, cell.pos);
      s.(board := Put(s.board, row, col, cell.(clicked := true, surrounding := Some(n))))
  }

  /** Game.handle_flag: toggle the flag and move both counters one step. */
  function ToggleFlag(s: GameState, row: int, col: int): GameState
    requires WellFormed(s) && OnBoard(s.size, row, col)
  {
    var cell := s.board[row][col];
    if cell.flagged then
      s.(flagsRemaining := s.flagsRemaining + 1,
         board := Put(s.board, row, col, cell.(flagged := false)),
         minesFound := if cell.mined then s.minesFound - 1 else s.minesFound)
    else
      s.(flagsRemaining := s.flagsRemaining - 1,
         board := Put(s.board, row, col, cell.(flagged := true)),
         minesFound := if cell.mined then s.minesFound + 1 else s.minesFound)
  }

  /** Game.update_game_result_if_victory. */
  function CheckVictory(s: GameState): GameState
  {
    if s.minesFound == s.mines then s.(result := Won) else s
  }

  lemma MoveEffect(s: GameState, row: int, col: int)
    requires WellFormed(s) && OnBoard(s.size, row, col)
    ensures var t := Move(s, row, col); var cell := s.board[row][col];
      WellFormed(t) && t.size == s.size &&
      t.flagsRemaining == s.flagsRemaining && t.mines == s.mines && t.minesFound == s.minesFound &&
      (cell.mined ==> t.board == s.board && t.result == Lost) &&
      (!cell.mined ==>
        t.result == s.result &&
        t.board[row][col] == cell.(clicked := true, surrounding := Some(NeighbourMines(s.board, s.size, Pos(row, col)))) &&
        (forall r, c :: OnBoard(s.size, r, c) && (r, c) != (row, col) ==> t.board[r][c] == s.board[r][c]))
  {
  }

  /** A move never touches a flag or a mine, so the counter invariant survives it. */
  lemma MovePreservesCounters(s: GameState, row: int, col: int)
    requires WellFormed(s) && OnBoard(s.size, row, col) && CountersAgree(s)
    ensures CountersAgree(Move(s, row, col))
  {
    var cell := s.board[row][col];
    if !cell.mined {
      var x := cell.(clicked := true, surrounding := Some(NeighbourMines(s.board, s.size, cell.pos)));
      CountPut(s.board, row, col, x, IsMined);
      CountPut(s.board, row, col, x, IsFlagged);
      CountPut(s.board, row, col, x, IsFoundMine);
    }
  }

  /** Revealing the same cell twice gives the state that revealing it once gives. */
  lemma MoveIdempotent(s: GameState, row: int, col: int)
    requires WellFormed(s) && OnBoard(s.size, row, col)
    ensures WellFormed(Move(s, row, col))
    ensures Move(Move(s, row, col), row, col) == Move(s, row, col)
  {
    var t := Move(s, row, col);
    var cell := s.board[row][col];
    if !cell.mined {
      NeighbourMinesReadsOnlyMines(s.board, t.board, s.size, cell.pos);
      var x := t.board[row][col];
      assert t.board[row][col := x] == t.board[row];
    }
  }

  lemma ToggleFlagEffect(s: GameState, row: int, col: int)
    requires WellFormed(s) && OnBoard(s.size, row, col)
    ensures var t := ToggleFlag(s, row, col); var cell := s.board[row][col];
      var step := if cell.flagged then -1 else 1;
      WellFormed(t) && t.size == s.size && t.result == s.result && t.mines == s.mines &&
      t.board[row][col] == cell.(flagged := !cell.flagged) &&
      (forall r, c :: OnBoard(s.size, r, c) && (r, c) != (row, col) ==> t.board[r][c] == s.board[r][c]) &&
      t.flagsRemaining == s.flagsRemaining - step &&
      t.minesFound == s.minesFound + (if cell.mined then step else 0)
  {
  }

  /** Flagging keeps mines_found and flags_remaining in step with the board. */
  lemma ToggleFlagPreservesCounters(s: GameState, row: int, col: int)
    requires WellFormed(s) && OnBoard(s.size, row, col) && CountersAgree(s)
    ensures CountersAgree(ToggleFlag(s, row, col))
  {
    var cell := s.board[row][col];
    var x := cell.(flagged := !cell.flagged);
    CountPut(s.board, row, col, x, IsMined);
    CountPut(s.board, row, col, x, IsFlagged);
    CountPut(s.board, row, col, x, IsFoundMine);
  }

  /**
   * The driver offers a flag toggle only while flags remain; under that gate
   * flags never run out below zero and never outnumber the mines.
   */
  lemma FlagGateKeepsFlagsWithinMines(s: GameState, row: int, col: int)
    requires WellFormed(s) && OnBoard(s.size, row, col) && CountersAgree(s) && s.flagsRemaining > 0
    ensures var t := ToggleFlag(s, row, col);
      t.flagsRemaining >= 0 && Count(t.board, IsFlagged) <= t.mines
  {
    ToggleFlagPreservesCounters(s, row, col);
  }

  /** Toggling the same flag twice restores the cell and every counter. */
  lemma ToggleFlagTwice(s: GameState, row: int, col: int)
    requires WellFormed(s) && OnBoard(s.size, row, col)
    ensures WellFormed(ToggleFlag(s, row, col))
    ensures ToggleFlag(ToggleFlag(s, row, col), row, col) == s
  {
    var t := ToggleFlag(s, row, col);
    var u := ToggleFlag(t, row, col);
    assert u.board[row][col] == s.board[row][col];
    assert u.board[row] == s.board[row];
  }

  // ---------------------------------------------------------------------
  // Outcome

  lemma CheckVictoryEffect(s: GameState)
    ensures var t := CheckVictory(s);
      t.size == s.size && t.board == s.board && t.mines == s.mines && t.minesFound == s.minesFound &&
      t.flagsRemaining == s.flagsRemaining &&
      (t.result == Won <==> s.minesFound == s.mines || s.result == Won) &&
      (s.minesFound != s.mines ==> t.result == s.result)
  {
  }

  /**
   * Under the counter invariant, the victory check of a running game declares
   * a win exactly when every mined cell is flagged.
   */
  lemma VictoryIffAllMinesFlagged(s: GameState)
    requires CountersAgree(s) && s.result == InProgress
    ensures CheckVictory(s).result == Won <==> AllMinesFlagged(s.board)
  {
    FoundMines(s.board);
  }

  /** A board with no mines is won by the first victory check. */
  lemma NoMinesWinsAtOnce(size: int, layout: set<Pos>)
    requires forall r, c :: OnBoard(size, r, c) ==> Pos(r, c) !in layout
    ensures CheckVictory(Initial(size, layout)).result == Won
  {
    var s := Initial(size, layout);
    CountNone(s.board, IsMined);
  }

  // ---------------------------------------------------------------------
  // Two games played out

  /** On a 3 x 3 board mined only in the middle, revealing a corner shows 1. */
  lemma CornerNextToMiddleMineShowsOne()
    ensures var s := Move(Initial(3, {Pos(1, 1)}), 0, 0);
      s.result == InProgress && s.board[0][0].clicked && s.board[0][0].surrounding == Some(1)
  {
    var s := Initial(3, {Pos(1, 1)});
    InitialState(3, {Pos(1, 1)});
    forall q ensures q in MinedNeighbours(s.board, 3, Pos(0, 0)) <==> q == Pos(1, 1) {
      InRing(Pos(0, 0), q);
    }
    assert MinedNeighbours(s.board, 3, Pos(0, 0)) == {Pos(1, 1)};
  }

  /** On a 2 x 2 board with one mine, flagging that mine wins the game. */
  lemma FlaggingTheOnlyMineWins()
    ensures var s := ToggleFlag(Initial(2, {Pos(0, 0)}), 0, 0);
      s.flagsRemaining == 0 && s.minesFound == 1 && CheckVictory(s).result == Won
  {
    var s := Initial(2, {Pos(0, 0)});
    InitialState(2, {Pos(0, 0)});
    assert s.board[0][0].mined && !s.board[0][1].mined && !s.board[1][0].mined && !s.board[1][1].mined;
    assert CountRow(s.board[0], 2, IsMined) == 1 && CountRow(s.board[1], 2, IsMined) == 0;
    assert s.mines == 1;
  }

  /** On a 2 x 2 board mined at (0, 0), revealing (0, 0) loses the game. */
  lemma RevealingTheMineLoses()
    ensures var s := Move(Initial(2, {Pos(0, 0)}), 0, 0);
      s.result == Lost && !s.board[0][0].clicked
  {
    InitialState(2, {Pos(0, 0)});
  }
}
