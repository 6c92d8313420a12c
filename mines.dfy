/**
 * The classes Cell and Game of mines.py, with their fields updated in place.
 * Each method is proved against the function of MinesModel that gives the
 * new state: Valid() ties every Cell object of the board to the ghost grid,
 * and View() is the whole game as a MinesModel.GameState.
 */
module Mines {
  import opened MinesModel

  /** One square of the board. */
  class Cell {
    const pos: Pos
    var clicked: bool
    var mined: bool
    var flagged: bool
    var surrounding: Option<int>

    constructor (pos: Pos)
      ensures State() == CellState(pos, false, false, false, None)
    {
      this.pos := pos;
      clicked, mined, flagged, surrounding := false, false, false, None;
    }

    ghost function State(): CellState
      reads this
    {
      CellState(pos, mined, clicked, flagged, surrounding)
    }
  }

  class Game {
    const size: int
    var result: Outcome
    var flagsRemaining: int
    var mines: int
    var minesFound: int
    var board: seq<seq<Cell>>

    // the fields of every cell of the board, and the cells themselves
    ghost var grid: Grid
    ghost var Repr: set<Cell>

    /** board and grid have the shape of a size x size board. */
    ghost predicate Shape()
      reads this`board, this`grid
    {
      Shaped(grid, size) && |board| == |grid| &&
      forall r :: 0 <= r < |board| ==> |board[r]| == |grid[r]|
    }

    /** The mines of the board's cells are those of grid. */
    ghost predicate MinesMatch()
      reads this`board, this`grid, this`Repr, Repr
    {
      Shape() &&
      forall r, c :: 0 <= r < |board| && 0 <= c < |board[r]| ==>
        board[r][c] in Repr && board[r][c].mined == grid[r][c].mined
    }

    /** Every cell of the board is in Repr, sits at its own position and holds what grid says. */
    ghost predicate Valid()
      reads this`board, this`grid, this`Repr, Repr
    {
      Shape() &&
      forall r, c :: 0 <= r < |board| && 0 <= c < |board[r]| ==>
        board[r][c] in Repr && board[r][c].pos == Pos(r, c) && board[r][c].State() == grid[r][c]
    }

    /**
     * Valid() for the grid g at every cell but the one at (row, col), whose
     * fields it does not read: it survives any change to that one cell.
     */
    ghost predicate ValidExcept(g: Grid, row: int, col: int)
      requires 0 <= row < |board| && 0 <= col < |board[row]|
      reads this`board, this`Repr, Repr - {board[row][col]}
    {
      Shaped(g, size) && |board| == |g| &&
      (forall r :: 0 <= r < |board| ==> |board[r]| == |g[r]|) &&
      board[row][col] in Repr && board[row][col].pos == Pos(row, col) &&
      forall r, c :: 0 <= r < |board| && 0 <= c < |board[r]| && (r != row || c != col) ==>
        board[r][c] in Repr && board[r][c].pos == Pos(r, c) && board[r][c].State() == g[r][c]
    }

    lemma ValidMinesMatch()
      requires Valid()
      ensures MinesMatch()
    {
    }

    lemma ValidIsValidExcept(row: int, col: int)
      requires Valid() && OnBoard(size, row, col)
      ensures ValidExcept(grid, row, col)
    {
    }

    /** Storing the new state of the one changed cell into g gives Valid() back. */
    lemma ValidExceptIsValid(g: Grid, row: int, col: int)
      requires 0 <= row < |board| && 0 <= col < |board[row]|
      requires ValidExcept(g, row, col) && grid == Put(g, row, col, board[row][col].State())
      ensures Valid()
    {
    }

    ghost function View(): GameState
      reads this
    {
      GameState(size, grid, result, flagsRemaining, mines, minesFound)
    }

    lemma ViewWellFormed()
      requires Valid()
      ensures WellFormed(View())
    {
    }

    /** Game.__init__, with random() > .7 replaced by Pos(r, c) in layout. */
    constructor (size: int, layout: set<Pos>)
      ensures Valid() && fresh(Repr)
      ensures View() == Initial(size, layout)
    {
      this.size := size;
      result := InProgress;
      flagsRemaining := 0;
      mines := 0;
      minesFound := 0;
      board, grid, Repr := [], [], {};
      new;
      var rows, cells := LayBoard(layout);
      board, grid, Repr := rows, InitialGrid(size, layout), cells;
      BuiltIsValid(layout);
    }

    /**
     * The loops of __init__: build the rows of the board, each cell mined
     * where layout says so, with flagsRemaining and mines counting the mines.
     */
    method LayBoard(layout: set<Pos>) returns (rows: seq<seq<Cell>>, ghost cells: set<Cell>)
      requires mines == flagsRemaining == 0
      modifies this`flagsRemaining, this`mines
      ensures |rows| == Dim(size) && BuiltRows(rows, cells, layout) && fresh(cells)
      ensures mines == flagsRemaining == Count(InitialGrid(size, layout), IsMined)
    {
      var n := Dim(size);
      ghost var initial := InitialGrid(size, layout);
      rows := [];
      cells := {};
      var r := 0;
      while r < size
        invariant 0 <= r <= n && |rows| == r
        invariant BuiltRows(rows, cells, layout)
        invariant fresh(cells)
        invariant mines == flagsRemaining == CountRows(initial, r, IsMined)
      {
        ghost var laid := mines;
        rows, cells := AppendRow(rows, cells, layout);
        assert mines == flagsRemaining == laid + CountRow(initial[r], n, IsMined);
        r := r + 1;
      }
    }

    /** The rows built by __init__, with the grid it describes, make a valid game. */
    lemma BuiltIsValid(layout: set<Pos>)
      requires |board| == Dim(size) && BuiltRows(board, Repr, layout) && grid == InitialGrid(size, layout)
      ensures Valid()
    {
    }

    /** Each row has Dim(size) cells, all in cells, each as Game.__init__ creates it at its position. */
    ghost predicate BuiltRows(rows: seq<seq<Cell>>, cells: set<Cell>, layout: set<Pos>)
      reads cells
    {
      forall i :: 0 <= i < |rows| ==> (|rows[i]| == Dim(size) &&
        forall j :: 0 <= j < Dim(size) ==>
          rows[i][j] in cells && rows[i][j].pos == Pos(i, j) && rows[i][j].State() == InitialCell(i, j, layout))
    }

    /**
     * The body of the outer loop of __init__: build row number |rows|, each
     * cell mined when layout says so, with flagsRemaining and mines counting
     * the mines laid, and append it to rows.
     */
    method AppendRow(rows: seq<seq<Cell>>, ghost cells: set<Cell>, layout: set<Pos>)
      returns (rows': seq<seq<Cell>>, ghost cells': set<Cell>)
      requires |rows| < Dim(size) && BuiltRows(rows, cells, layout)
      modifies this`flagsRemaining, this`mines
      ensures |rows'| == |rows| + 1 && rows'[..|rows|] == rows && BuiltRows(rows', cells', layout)
      ensures cells <= cells' && fresh(cells' - cells)
      ensures mines == old(mines) + CountRow(InitialRow(|rows|, Dim(size), layout), Dim(size), IsMined)
      ensures flagsRemaining == old(flagsRemaining) + CountRow(InitialRow(|rows|, Dim(size), layout), Dim(size), IsMined)
    {
      var r := |rows|;
      ghost var initial := InitialRow(r, Dim(size), layout);
      var row: seq<Cell> := [];
      cells' := cells;
      var c := 0;
      while c < size
        invariant 0 <= c <= Dim(size) && |row| == c
        invariant cells <= cells' && fresh(cells' - cells)
        invariant forall j :: 0 <= j < c ==> row[j] in cells' - cells && row[j].pos == Pos(r, j)
        invariant forall j :: 0 <= j < c ==> row[j].State() == InitialCell(r, j, layout)
        invariant mines == old(mines) + CountRow(initial, c, IsMined)
        invariant flagsRemaining == old(flagsRemaining) + CountRow(initial, c, IsMined)
      {
        var cell := new Cell(Pos(r, c));
        if Pos(r, c) in layout {
          cell.mined := true;
          flagsRemaining := flagsRemaining + 1;
          mines := mines + 1;
        }
        assert cell.State() == initial[c];
        assert CountRow(initial, c + 1, IsMined) == CountRow(initial, c, IsMined) + Indicator(Pos(r, c) in layout);
        row := row + [cell];
        cells' := cells' + {cell};
        c := c + 1;
      }
      rows' := rows + [row];
    }

    /** Game.pos_is_on_board: exactly the positions that index a cell of the board. */
    function PosIsOnBoard(row: int, col: int): (b: bool)
      requires Shape()
      reads this
      ensures b <==> 0 <= row < |board| && 0 <= col < |board[row]|
    {
      row >= 0 && row < size && col >= 0 && col < size
    }

    /** Game.count_surrounding_mines: the number of mined cells around pos. */
    method CountSurroundingMines(pos: Pos) returns (mineCount: int)
      requires MinesMatch()
      ensures mineCount == NeighbourMines(grid, size, pos)
    {
      mineCount := 0;
      var rowIndex, colIndex := pos.row, pos.col;
      SeenNone(grid, size, pos);
      var rowDelta := -1;
      while rowDelta < 2
        invariant -1 <= rowDelta <= 2
        invariant mineCount == |SeenBefore(grid, size, pos, rowDelta, -1)|
      {
        var colDelta := -1;
        while colDelta < 2
          invariant -1 <= colDelta <= 2
          invariant mineCount == |SeenBefore(grid, size, pos, rowDelta, colDelta)|
        {
          var r := rowIndex + rowDelta;
          var c := colIndex + colDelta;
          var isNotSelf := !(r == rowIndex && c == colIndex);
          SeenAdvance(grid, size, pos, rowDelta, colDelta);
          ghost var counted := OnBoard(size, r, c) && !(rowDelta == 0 && colDelta == 0) && grid[r][c].mined;
          if PosIsOnBoard(r, c) && isNotSelf && board[r][c].mined {
            assert counted;
            mineCount := mineCount + 1;
          } else {
            assert !counted;
          }
          colDelta := colDelta + 1;
        }
        SeenNextRow(grid, size, pos, rowDelta);
        rowDelta := rowDelta + 1;
      }
      SeenAll(grid, size, pos);
    }

    /** Game.handle_move. */
    method HandleMove(row: int, col: int)
      requires Valid() && OnBoard(size, row, col)
      modifies this`result, this`grid, board[row][col]
      ensures Valid()
      ensures View() == Move(old(View()), row, col)
    {
      ghost var before := View();
      var cell := board[row][col];
      if cell.mined {
        result := Lost;
      } else {
        ValidIsValidExcept(row, col);
        ValidMinesMatch();
        var n := CountSurroundingMines(cell.pos);
        cell.clicked := true;
        cell.surrounding := Some(n);
        ghost var was := before.board[row][col];
        assert cell.State() == was.(clicked := true, surrounding := Some(NeighbourMines(before.board, size, was.pos)));
        grid := Put(grid, row, col, cell.State());
        ValidExceptIsValid(before.board, row, col);
      }
    }

    /** Game.handle_flag. */
    method HandleFlag(row: int, col: int)
      requires Valid() && OnBoard(size, row, col)
      modifies this`flagsRemaining, this`minesFound, this`grid, board[row][col]
      ensures Valid()
      ensures View() == ToggleFlag(old(View()), row, col)
    {
      ghost var before := View();
      ValidIsValidExcept(row, col);
      var cell := board[row][col];
      if cell.flagged {
        flagsRemaining := flagsRemaining + 1;
        cell.flagged := false;
        if cell.mined {
          minesFound := minesFound - 1;
        }
      } else {
        flagsRemaining := flagsRemaining - 1;
        cell.flagged := true;
        if cell.mined {
          minesFound := minesFound + 1;
        }
      }
      grid := Put(grid, row, col, cell.State());
      ValidExceptIsValid(before.board, row, col);
    }

    /** Game.update_game_result_if_victory. */
    method UpdateGameResultIfVictory()
      requires Valid()
      modifies this`result
      ensures Valid()
      ensures View() == CheckVictory(old(View()))
    {
      if minesFound == mines {
        result := Won;
      }
    }
  }
}
