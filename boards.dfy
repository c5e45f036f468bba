/**
 * The Caro board: an N x N grid of cells updated in place, the most recent
 * move and the cached winning sequence found by the line detector.
 */
module Boards {
  import opened Grid

  class Board {
    const size: nat
    const winCondition: int
    var grid: Grid
    var lastMove: Option<Pos>
    var winningSequence: seq<Pos>

    /** The grid is N x N, and the last move, if any, names an occupied cell. */
    ghost predicate Valid()
      reads this
    {
      && Square(grid) && |grid| == size
      && (lastMove.Some? ==> InRange(grid, lastMove.value.0, lastMove.value.1)
                             && grid[lastMove.value.0][lastMove.value.1] != Empty)
    }

    constructor (size: nat := 10, winCondition: int := 5)
      ensures Valid()
      ensures this.size == size && this.winCondition == winCondition
      ensures grid == EmptyGrid(size) && lastMove == None && winningSequence == []
    {
      this.size := size;
      this.winCondition := winCondition;
      grid := EmptyGrid(size);
      lastMove := None;
      winningSequence := [];
    }

    /** Every cell empty again, no last move, no winning sequence. */
    method Reset()
      modifies this
      ensures Valid()
      ensures grid == EmptyGrid(size) && lastMove == None && winningSequence == []
    {
      grid := EmptyGrid(size);
      lastMove := None;
      winningSequence := [];
    }

    /** A move is valid exactly when it is one of get_valid_moves(). */
    predicate IsValidMove(r: int, c: int)
      reads this
      requires Valid()
      ensures IsValidMove(r, c) <==> InRange(grid, r, c) && grid[r][c] == Empty
      ensures IsValidMove(r, c) <==> (r, c) in ValidMoves(grid)
    {
      ValidMovesExact(grid);
      Legal(grid, r, c)
    }

    /**
     * Puts p's stone on a valid cell and records it as the last move; an
     * invalid move changes nothing.
     */
    method MakeMove(r: int, c: int, p: Player) returns (ok: bool)
      requires Valid()
      modifies this`grid, this`lastMove
      ensures Valid()
      ensures ok == Legal(old(grid), r, c)
      ensures ok ==> grid == Place(old(grid), r, c, Stone(p)) && lastMove == Some((r, c))
      ensures !ok ==> grid == old(grid) && lastMove == old(lastMove)
    {
      if IsValidMove(r, c) {
        grid := Place(grid, r, c, Stone(p));
        lastMove := Some((r, c));
        return true;
      }
      return false;
    }

    /** Empties a cell and forgets the last move; the winning sequence stays. */
    method UndoMove(r: int, c: int)
      requires Valid() && InRange(grid, r, c)
      modifies this`grid, this`lastMove
      ensures Valid()
      ensures grid == Place(old(grid), r, c, Empty) && lastMove == None
    {
      grid := Place(grid, r, c, Empty);
      lastMove := None;
    }

    /** The empty cells, each once, in row-major order. */
    method GetValidMoves() returns (moves: seq<Pos>)
      requires Valid()
      ensures moves == ValidMoves(grid)
      ensures RowMajor(moves)
      ensures forall q :: q in moves <==> Legal(grid, q.0, q.1)
    {
      moves := [];
      for i := 0 to size
        invariant moves == EmptyUpToRow(grid, i)
      {
        for j := 0 to size
          invariant moves == EmptyUpToRow(grid, i) + EmptyInRow(grid, i, j)
        {
          if grid[i][j] == Empty {
            moves := moves + [(i, j)];
          }
        }
      }
      ValidMovesExact(grid);
    }

    /** The board is full exactly when get_valid_moves() is empty. */
    predicate IsFull()
      reads this
      requires Valid()
      ensures IsFull() <==> ValidMoves(grid) == []
    {
      FullIffNoValidMoves(grid);
      Full(grid)
    }

    /**
     * The first K consecutive cells of p from a cell along a direction, or a
     * shorter list where the run is cut off by the edge or another cell.
     */
    method ForwardRun(i: int, j: int, d: Dir, p: Player) returns (cells: seq<Pos>)
      requires Valid() && InRange(grid, i, j) && grid[i][j] == Stone(p)
      ensures |cells| == winCondition <==> LineAt(grid, winCondition, p, i, j, d)
      ensures |cells| == winCondition ==> cells == LineCells(i, j, d, winCondition)
    {
      cells := [(i, j)];
      assert Along(i, j, d, 0) == (i, j);
      var k := 1;
      while k < winCondition
        invariant 1 <= k && (winCondition >= 1 ==> k <= winCondition)
        invariant cells == LineCells(i, j, d, k)
        invariant forall t :: 0 <= t < k ==> Owns(grid, p, Along(i, j, d, t))
      {
        var q := Along(i, j, d, k);
        if InRange(grid, q.0, q.1) && grid[q.0][q.1] == Stone(p) {
          cells := cells + [q];
          k := k + 1;
        } else {
          assert !LineAt(grid, winCondition, p, i, j, d);
          break;
        }
      }
    }

    /**
     * Scans cells in row-major order and, for each of p's cells, the four
     * directions in order; on the first line of K it records the line as the
     * winning sequence and reports true. Otherwise nothing changes.
     */
    method CheckWin(p: Player) returns (won: bool)
      requires Valid()
      modifies this`winningSequence
      ensures Valid()
      ensures won == FirstLine(grid, winCondition, p).Some?
      ensures winningSequence == if won then FirstLine(grid, winCondition, p).value else old(winningSequence)
    {
      for i := 0 to size
        invariant FirstLine(grid, winCondition, p) == ScanFrom(grid, winCondition, p, i, 0, 0)
        invariant winningSequence == old(winningSequence)
      {
        for j := 0 to size
          invariant FirstLine(grid, winCondition, p) == ScanFrom(grid, winCondition, p, i, j, 0)
          invariant winningSequence == old(winningSequence)
        {
          if grid[i][j] != Stone(p) {
            continue;
          }
          for t := 0 to 4
            invariant FirstLine(grid, winCondition, p) == ScanFrom(grid, winCondition, p, i, j, t)
            invariant winningSequence == old(winningSequence)
          {
            var cells := ForwardRun(i, j, Directions[t], p);
            if |cells| == winCondition {
              winningSequence := cells;
              return true;
            }
          }
        }
      }
      return false;
    }
  }
}
