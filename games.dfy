/**
 * The game object: it owns one board and keeps the move history, the redo
 * stack, whose turn it is, the scores, the move counter and the end-of-game
 * flags. Each method is proved to take the object from a state to the one
 * the matching transition of GameSpec gives, and to keep GameSpec.Inv.
 */
module Games {
  import opened Grid
  import opened GameSpec
  import opened Boards

  class Game {
    const board: Board
    const size: nat
    const winCondition: int
    var moveHistory: seq<Move>
    var redoStack: seq<Move>
    var currentPlayer: Player
    var scores: map<Player, nat>
    var moveCount: int
    var finished: bool
    var winner: Option<Player>

    /** The game's fields and its board's fields as one value. */
    function State(): GameState
      reads this, board
    {
      GameState(board.grid, board.lastMove, board.winningSequence, moveHistory, redoStack,
                currentPlayer, scores, moveCount, finished, winner)
    }

    ghost predicate Valid()
      reads this, board
    {
      && board.Valid() && board.size == size && board.winCondition == winCondition
      && Inv(State(), size, winCondition)
    }

    constructor (size: nat := 10, winCondition: int := 5)
      ensures Valid() && fresh(board)
      ensures State() == Initial(size)
    {
      board := new Board(size, winCondition);
      this.size := size;
      this.winCondition := winCondition;
      moveHistory := [];
      redoStack := [];
      currentPlayer := X;
      scores := map[X := 0, O := 0];
      moveCount := 0;
      finished := false;
      winner := None;
      new;
      InitialInv(size, winCondition);
    }

    /** A new round on the same board; the scores are kept. */
    method Reset()
      requires Valid()
      modifies this, board
      ensures Valid()
      ensures State() == ResetStep(old(State()), size)
    {
      ResetInv(State(), size, winCondition);
      board.Reset();
      moveHistory := [];
      redoStack := [];
      currentPlayer := X;
      moveCount := 0;
      finished := false;
      winner := None;
    }

    /**
     * Plays the current player's stone at (r, c). On success the move is
     * recorded, the redo stack is dropped, and a win (checked first) or a
     * full board ends the game; otherwise the turn passes to the other
     * player. An illegal move changes nothing.
     */
    method MakeMove(r: int, c: int) returns (ok: bool)
      requires Valid()
      modifies this, board
      ensures Valid()
      ensures (ok, State()) == MakeMoveStep(old(State()), winCondition, r, c)
    {
      ghost var s := State();
      MakeMoveInv(s, size, winCondition, r, c);
      ok := board.MakeMove(r, c, currentPlayer);
      if ok {
        moveHistory := moveHistory + [Move(r, c, currentPlayer)];
        redoStack := [];
        moveCount := moveCount + 1;
        ghost var placed := State();
        assert placed == s.(grid := Place(s.grid, r, c, Stone(s.current)), lastMove := Some((r, c)),
                            history := s.history + [Move(r, c, s.current)], redo := [],
                            moveCount := s.moveCount + 1);
        Conclude(currentPlayer);
      }
    }

    /**
     * The end-of-game check after a stone of p was placed: a line of p wins
     * (and scores), else a full board is a draw, else the other player of p
     * moves next.
     */
    method Conclude(p: Player)
      requires board.Valid() && board.winCondition == winCondition && X in scores && O in scores
      modifies this, board`winningSequence
      ensures board.Valid()
      ensures State() == Settle(old(State()), winCondition, p)
    {
      ghost var s := State();
      var won := board.CheckWin(p);
      if won {
        SettleWon(s, winCondition, p);
        finished := true;
        winner := Some(p);
        scores := scores[p := scores[p] + 1];
        assert State() == s.(winningSequence := FirstLine(s.grid, winCondition, p).value, finished := true,
                             winner := Some(p), scores := s.scores[p := s.scores[p] + 1]);
      } else {
        SettleNotWon(s, winCondition, p);
        var full := board.IsFull();
        if full {
          finished := true;
          winner := None;
          assert State() == s.(finished := true, winner := None);
        } else {
          currentPlayer := Opponent(p);
          assert State() == s.(current := Opponent(p));
        }
      }
    }

    /**
     * Takes back the last move: its cell is emptied, it goes onto the redo
     * stack, it is its player's turn again and the game is in progress.
     * With no history nothing changes.
     */
    method Undo() returns (ok: bool)
      requires Valid()
      modifies this, board
      ensures Valid()
      ensures (ok, State()) == UndoStep(old(State()))
    {
      UndoInv(State(), size, winCondition);
      if moveHistory != [] {
        var m := moveHistory[|moveHistory| - 1];
        moveHistory := moveHistory[..|moveHistory| - 1];
        board.UndoMove(m.row, m.col);
        redoStack := redoStack + [m];
        currentPlayer := m.player;
        moveCount := moveCount - 1;
        finished := false;
        winner := None;
        return true;
      }
      return false;
    }

    /**
     * Replays the most recently undone move if its cell is still empty, with
     * the same end-of-game check as a new move (the turn passes to the
     * other player of that move). A move whose cell is taken is dropped from
     * the redo stack and nothing else changes.
     */
    method Redo() returns (ok: bool)
      requires Valid()
      modifies this, board
      ensures Valid()
      ensures (ok, State()) == RedoStep(old(State()), winCondition)
    {
      ghost var s := State();
      RedoInv(s, size, winCondition);
      if redoStack != [] {
        var m := redoStack[|redoStack| - 1];
        redoStack := redoStack[..|redoStack| - 1];
        if board.IsValidMove(m.row, m.col) {
          var _ := board.MakeMove(m.row, m.col, m.player);
          moveHistory := moveHistory + [m];
          moveCount := moveCount + 1;
          ghost var placed := State();
          assert placed == s.(redo := s.redo[..|s.redo| - 1], grid := Place(s.grid, m.row, m.col, Stone(m.player)),
                              lastMove := Some((m.row, m.col)), history := s.history + [m],
                              moveCount := s.moveCount + 1);
          Conclude(m.player);
          return true;
        }
        assert State() == s.(redo := s.redo[..|s.redo| - 1]);
      }
      return false;
    }

    /** The empty cells of the board, in row-major order. */
    method GetValidMoves() returns (moves: seq<Pos>)
      requires Valid()
      ensures moves == ValidMoves(board.grid)
      ensures forall q :: q in moves <==> Legal(board.grid, q.0, q.1)
    {
      moves := board.GetValidMoves();
    }

    /**
     * The line last recorded by the board's detector: while the game has a
     * winner, it is a line of K of the winner's stones on the board.
     */
    function GetWinningSequence(): (s: seq<Pos>)
      reads this, board
      ensures Valid() && winner.Some? ==> IsLine(board.grid, winCondition, winner.value, s)
    {
      board.winningSequence
    }
  }
}
