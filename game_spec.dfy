/**
 * The game's state as a value and its four transitions (make_move, undo,
 * redo, reset) as functions. The imperative Game class is proved to move
 * between exactly these states; the lemmas here state what the transitions
 * keep invariant and that undo followed by redo restores the position.
 */
module GameSpec {
  import opened Grid

  /** A history entry (row, col, player). */
  datatype Move = Move(row: int, col: int, player: Player)

  /** Every field of the game together with its board's fields. */
  datatype GameState = GameState(
    grid: Grid,
    lastMove: Option<Pos>,
    winningSequence: seq<Pos>,
    history: seq<Move>,
    redo: seq<Move>,
    current: Player,
    scores: map<Player, nat>,
    moveCount: int,
    finished: bool,
    winner: Option<Player>)

  /** The state of a new game: empty N x N board, 'X' to move, no scores yet. */
  function Initial(n: nat): GameState
  {
    GameState(EmptyGrid(n), None, [], [], [], X, map[X := 0, O := 0], 0, false, None)
  }

  /**
   * The grid obtained by playing the moves of h in order on an empty N x N
   * grid, or None if one of them is out of range or on an occupied cell.
   */
  function Replay(n: nat, h: seq<Move>): (r: Option<Grid>)
    ensures r.Some? ==> Square(r.value) && |r.value| == n
    decreases |h|
  {
    if h == [] then Some(EmptyGrid(n))
    else
      match Replay(n, h[..|h| - 1])
      case None => None
      case Some(g) =>
        var m := h[|h| - 1];
        if Legal(g, m.row, m.col) then Some(Place(g, m.row, m.col, Stone(m.player))) else None
  }

  /** Some entry of h is at (r, c). */
  ghost predicate Played(h: seq<Move>, r: int, c: int)
  {
    exists t :: 0 <= t < |h| && h[t].row == r && h[t].col == c
  }

  /**
   * A replayed grid holds each history entry's stone on its cell, and the
   * occupied cells are exactly the cells named in the history.
   */
  lemma {:induction false} ReplayOccupancy(n: nat, h: seq<Move>)
    requires Replay(n, h).Some?
    ensures forall t :: 0 <= t < |h| ==>
      InRange(Replay(n, h).value, h[t].row, h[t].col)
      && Replay(n, h).value[h[t].row][h[t].col] == Stone(h[t].player)
    ensures forall r, c :: InRange(Replay(n, h).value, r, c) ==>
      (Replay(n, h).value[r][c] != Empty <==> Played(h, r, c))
    decreases |h|
  {
    if h != [] {
      var h', m := h[..|h| - 1], h[|h| - 1];
      ReplayOccupancy(n, h');
      var g', g := Replay(n, h').value, Replay(n, h).value;
      assert g == Place(g', m.row, m.col, Stone(m.player));
      forall t | 0 <= t < |h|
        ensures InRange(g, h[t].row, h[t].col) && g[h[t].row][h[t].col] == Stone(h[t].player)
      {
        if t < |h| - 1 {
          assert h[t] == h'[t];
        }
      }
      forall r, c | InRange(g, r, c) ensures g[r][c] != Empty <==> Played(h, r, c) {
        if Played(h, r, c) {
          var t :| 0 <= t < |h| && h[t].row == r && h[t].col == c;
        }
        if (r, c) != (m.row, m.col) && g'[r][c] != Empty {
          var t :| 0 <= t < |h'| && h'[t].row == r && h'[t].col == c;
          assert h[t] == h'[t];
        }
      }
    }
  }

  /**
   * The termination check after a stone of p has been placed: the board,
   * the history and the counters are untouched; SettleOutcome says what
   * changes.
   */
  function Settle(s: GameState, k: int, p: Player): (r: GameState)
    requires Square(s.grid) && X in s.scores && O in s.scores
    ensures r.grid == s.grid && r.lastMove == s.lastMove && r.history == s.history
    ensures r.redo == s.redo && r.moveCount == s.moveCount
  {
    assert p == X || p == O;
    match FirstLine(s.grid, k, p)
    case Some(line) =>
      s.(winningSequence := line, finished := true, winner := Some(p), scores := s.scores[p := s.scores[p] + 1])
    case None =>
      if Full(s.grid) then s.(finished := true, winner := None)
      else s.(current := Opponent(p))
  }

  /**
   * What the termination check decides: a line of p finishes the game with
   * p the winner, records a line of p and scores it; otherwise a full board
   * finishes it as a draw; otherwise only the turn passes to the other
   * player.
   */
  lemma SettleOutcome(s: GameState, k: int, p: Player)
    requires Square(s.grid) && X in s.scores && O in s.scores
    ensures HasLine(s.grid, k, p) ==>
      var r := Settle(s, k, p);
      && r.finished && r.winner == Some(p) && r.current == s.current
      && IsLine(s.grid, k, p, r.winningSequence)
      && p in s.scores && r.scores == s.scores[p := s.scores[p] + 1]
    ensures !HasLine(s.grid, k, p) && Full(s.grid) ==>
      Settle(s, k, p) == s.(finished := true, winner := None)
    ensures !HasLine(s.grid, k, p) && !Full(s.grid) ==> Settle(s, k, p) == s.(current := Opponent(p))
  {
    assert p == X || p == O;
    FirstLineSpec(s.grid, k, p);
    FirstLineIsLine(s.grid, k, p);
  }

  /** Settle after the detector found a line of p. */
  lemma SettleWon(s: GameState, k: int, p: Player)
    requires Square(s.grid) && X in s.scores && O in s.scores && FirstLine(s.grid, k, p).Some?
    ensures p in s.scores
    ensures Settle(s, k, p) == s.(winningSequence := FirstLine(s.grid, k, p).value, finished := true,
                                  winner := Some(p), scores := s.scores[p := s.scores[p] + 1])
  {
    assert p == X || p == O;
  }

  /** Settle after the detector found no line of p. */
  lemma SettleNotWon(s: GameState, k: int, p: Player)
    requires Square(s.grid) && X in s.scores && O in s.scores && FirstLine(s.grid, k, p).None?
    ensures Settle(s, k, p) == if Full(s.grid) then s.(finished := true, winner := None) else s.(current := Opponent(p))
  {
  }

  /**
   * make_move(r, c): the success flag and the state after it. It succeeds
   * exactly on a legal move, and then the current player's stone is on
   * (r, c), the move ends the history, the redo stack is empty, and a game
   * in progress is finished exactly when the mover has a line or the board
   * is full. A failed move changes nothing.
   */
  function MakeMoveStep(s: GameState, k: int, r: int, c: int): (res: (bool, GameState))
    requires Square(s.grid) && X in s.scores && O in s.scores
    ensures res.0 <==> Legal(s.grid, r, c)
    ensures !res.0 ==> res.1 == s
    ensures res.0 ==>
      && res.1.grid == Place(s.grid, r, c, Stone(s.current)) && res.1.lastMove == Some((r, c))
      && res.1.history == s.history + [Move(r, c, s.current)] && res.1.redo == []
      && res.1.moveCount == s.moveCount + 1
    ensures res.0 && !s.finished ==>
      (res.1.finished <==> HasLine(res.1.grid, k, s.current) || Full(res.1.grid))
  {
    if !Legal(s.grid, r, c) then (false, s)
    else
      var placed := s.(grid := Place(s.grid, r, c, Stone(s.current)), lastMove := Some((r, c)),
                       history := s.history + [Move(r, c, s.current)], redo := [],
                       moveCount := s.moveCount + 1);
      SettleOutcome(placed, k, s.current);
      (true, Settle(placed, k, s.current))
  }

  /**
   * undo(): the success flag and the state after it. It succeeds exactly
   * when there is history; the last entry then moves from the history onto
   * the redo stack, its cell is emptied, its player is to move, the game is
   * in progress with no winner, and the scores are kept.
   */
  function UndoStep(s: GameState): (res: (bool, GameState))
    requires Square(s.grid)
    requires forall t :: 0 <= t < |s.history| ==> InRange(s.grid, s.history[t].row, s.history[t].col)
    ensures res.0 <==> s.history != []
    ensures !res.0 ==> res.1 == s
    ensures res.0 ==> var m := s.history[|s.history| - 1];
      && res.1.history + [m] == s.history && res.1.redo == s.redo + [m]
      && Square(res.1.grid) && InRange(res.1.grid, m.row, m.col) && res.1.grid[m.row][m.col] == Empty
      && res.1.current == m.player && !res.1.finished && res.1.winner == None && res.1.scores == s.scores
  {
    if s.history == [] then (false, s)
    else
      var m := s.history[|s.history| - 1];
      (true, s.(grid := Place(s.grid, m.row, m.col, Empty), lastMove := None,
                history := s.history[..|s.history| - 1], redo := s.redo + [m], current := m.player,
                moveCount := s.moveCount - 1, finished := false, winner := None))
  }

  /**
   * redo(): the success flag and the state after it. The top of the redo
   * stack is popped whenever there is one; it succeeds exactly when that
   * move's cell is still a legal move, and the move is then played by its
   * own player and ends the history. Otherwise only the stack is popped.
   */
  function RedoStep(s: GameState, k: int): (res: (bool, GameState))
    requires Square(s.grid) && X in s.scores && O in s.scores
    ensures res.0 <==> s.redo != [] && Legal(s.grid, s.redo[|s.redo| - 1].row, s.redo[|s.redo| - 1].col)
    ensures s.redo != [] ==> res.1.redo == s.redo[..|s.redo| - 1]
    ensures !res.0 ==> res.1.(redo := s.redo) == s
    ensures res.0 ==> var m := s.redo[|s.redo| - 1];
      && res.1.grid == Place(s.grid, m.row, m.col, Stone(m.player))
      && res.1.history == s.history + [m] && res.1.moveCount == s.moveCount + 1
  {
    if s.redo == [] then (false, s)
    else
      var m := s.redo[|s.redo| - 1];
      var popped := s.(redo := s.redo[..|s.redo| - 1]);
      if !Legal(s.grid, m.row, m.col) then (false, popped)
      else
        var placed := popped.(grid := Place(s.grid, m.row, m.col, Stone(m.player)), lastMove := Some((m.row, m.col)),
                              history := s.history + [m], moveCount := s.moveCount + 1);
        (true, Settle(placed, k, m.player))
  }

  /** reset(): a new game on an N x N board, with the scores carried over. */
  function ResetStep(s: GameState, n: nat): (r: GameState)
    ensures r == Initial(n).(scores := s.scores)
  {
    s.(grid := EmptyGrid(n), lastMove := None, winningSequence := [], history := [], redo := [],
       current := X, moveCount := 0, finished := false, winner := None)
  }

  /**
   * What every reachable state satisfies: the move counter is the history's
   * length, the grid is the replay of the history, a winner has a line and
   * the game is then finished, and a finished game has a winner or a full
   * board.
   */
  ghost predicate Inv(s: GameState, n: nat, k: int)
  {
    && Square(s.grid) && |s.grid| == n
    && X in s.scores && O in s.scores
    && s.moveCount == |s.history|
    && Replay(n, s.history) == Some(s.grid)
    && (forall t :: 0 <= t < |s.history| ==> InRange(s.grid, s.history[t].row, s.history[t].col))
    && (s.lastMove.Some? ==> InRange(s.grid, s.lastMove.value.0, s.lastMove.value.1)
                             && s.grid[s.lastMove.value.0][s.lastMove.value.1] != Empty)
    && (s.winner.Some? ==> s.finished && HasLine(s.grid, k, s.winner.value))
    && (s.winner.Some? ==> IsLine(s.grid, k, s.winner.value, s.winningSequence))
    && (s.finished ==> s.winner.Some? || Full(s.grid))
  }

  /** History cells are in range and hold the stones of the entries. */
  lemma InvHistoryOccupied(s: GameState, n: nat, k: int)
    requires Inv(s, n, k)
    ensures forall t :: 0 <= t < |s.history| ==>
      InRange(s.grid, s.history[t].row, s.history[t].col)
      && s.grid[s.history[t].row][s.history[t].col] == Stone(s.history[t].player)
  {
    ReplayOccupancy(n, s.history);
  }

  /** A new game satisfies the invariant. */
  lemma InitialInv(n: nat, k: int)
    ensures Inv(Initial(n), n, k)
  {
  }

  lemma SettleInv(s: GameState, n: nat, k: int, p: Player)
    requires Square(s.grid) && |s.grid| == n && X in s.scores && O in s.scores
    requires s.moveCount == |s.history| && Replay(n, s.history) == Some(s.grid)
    requires forall t :: 0 <= t < |s.history| ==> InRange(s.grid, s.history[t].row, s.history[t].col)
    requires s.lastMove.Some? ==> InRange(s.grid, s.lastMove.value.0, s.lastMove.value.1)
                                  && s.grid[s.lastMove.value.0][s.lastMove.value.1] != Empty
    requires s.winner.Some? ==> s.finished && HasLine(s.grid, k, s.winner.value)
    requires s.winner.Some? ==> IsLine(s.grid, k, s.winner.value, s.winningSequence)
    requires s.finished ==> s.winner.Some? || Full(s.grid)
    ensures Inv(Settle(s, k, p), n, k)
  {
    FirstLineSpec(s.grid, k, p);
  }

  /** Appending a legal move to a replayable history replays to the placed grid. */
  lemma ReplayAppend(n: nat, h: seq<Move>, g: Grid, m: Move)
    requires Replay(n, h) == Some(g) && Legal(g, m.row, m.col)
    ensures Replay(n, h + [m]) == Some(Place(g, m.row, m.col, Stone(m.player)))
  {
    assert (h + [m])[..|h|] == h;
  }

  /** make_move keeps the invariant, whether it succeeds or not. */
  lemma MakeMoveInv(s: GameState, n: nat, k: int, r: int, c: int)
    requires Inv(s, n, k)
    ensures Inv(MakeMoveStep(s, k, r, c).1, n, k)
  {
    if Legal(s.grid, r, c) {
      var g := Place(s.grid, r, c, Stone(s.current));
      ReplayAppend(n, s.history, s.grid, Move(r, c, s.current));
      if s.winner.Some? {
        LineSurvivesPlace(s.grid, k, s.winner.value, r, c, Stone(s.current));
        IsLineSurvivesPlace(s.grid, k, s.winner.value, s.winningSequence, r, c, Stone(s.current));
      }
      var placed := s.(grid := g, lastMove := Some((r, c)),
                       history := s.history + [Move(r, c, s.current)], redo := [],
                       moveCount := s.moveCount + 1);
      SettleInv(placed, n, k, s.current);
    }
  }

  /** undo keeps the invariant: the undone move's cell was the last one filled. */
  lemma UndoInv(s: GameState, n: nat, k: int)
    requires Inv(s, n, k)
    ensures Inv(UndoStep(s).1, n, k)
  {
    InvHistoryOccupied(s, n, k);
    if s.history != [] {
      var h', m := s.history[..|s.history| - 1], s.history[|s.history| - 1];
      var g' := Replay(n, h').value;
      assert Legal(g', m.row, m.col) && s.grid == Place(g', m.row, m.col, Stone(m.player));
      PlaceThenClear(g', m.row, m.col, Stone(m.player));
    }
  }

  /** redo keeps the invariant, including when the popped move no longer fits. */
  lemma RedoInv(s: GameState, n: nat, k: int)
    requires Inv(s, n, k)
    ensures Inv(RedoStep(s, k).1, n, k)
  {
    if s.redo != [] {
      var m := s.redo[|s.redo| - 1];
      if Legal(s.grid, m.row, m.col) {
        var g := Place(s.grid, m.row, m.col, Stone(m.player));
        ReplayAppend(n, s.history, s.grid, m);
        if s.winner.Some? {
          LineSurvivesPlace(s.grid, k, s.winner.value, m.row, m.col, Stone(m.player));
          IsLineSurvivesPlace(s.grid, k, s.winner.value, s.winningSequence, m.row, m.col, Stone(m.player));
        }
        var placed := s.(redo := s.redo[..|s.redo| - 1], grid := g, lastMove := Some((m.row, m.col)),
                         history := s.history + [m], moveCount := s.moveCount + 1);
        SettleInv(placed, n, k, m.player);
      }
    }
  }

  /** reset keeps the invariant and the scores. */
  lemma ResetInv(s: GameState, n: nat, k: int)
    requires Inv(s, n, k)
    ensures Inv(ResetStep(s, n), n, k)
    ensures ResetStep(s, n).scores == s.scores
  {
  }

  /**
   * The turn and end-of-game flags agree with the outcome of the last move:
   * a line of its player means a win for that player (whose turn it stays),
   * otherwise a full board means a draw, otherwise the other player moves
   * next and the game is in progress.
   */
  ghost predicate Settled(s: GameState, k: int)
    requires Square(s.grid)
  {
    if s.history == [] then !s.finished && s.winner == None
    else
      var p := s.history[|s.history| - 1].player;
      if HasLine(s.grid, k, p) then s.finished && s.winner == Some(p) && s.current == p
      else if Full(s.grid) then s.finished && s.winner == None && s.current == p
      else !s.finished && s.winner == None && s.current == Opponent(p)
  }

  lemma SettleSettled(s: GameState, k: int, p: Player)
    requires Square(s.grid) && X in s.scores && O in s.scores && s.history != [] && s.history[|s.history| - 1].player == p
    requires s.current == p && !s.finished && s.winner == None
    ensures Settled(Settle(s, k, p), k)
  {
    FirstLineSpec(s.grid, k, p);
  }

  /** A successful move in a game that was still in progress leaves it settled. */
  lemma MakeMoveSettled(s: GameState, k: int, r: int, c: int)
    requires Square(s.grid) && X in s.scores && O in s.scores && !s.finished && s.winner == None
    requires MakeMoveStep(s, k, r, c).0
    ensures Settled(MakeMoveStep(s, k, r, c).1, k)
  {
    var placed := s.(grid := Place(s.grid, r, c, Stone(s.current)), lastMove := Some((r, c)),
                     history := s.history + [Move(r, c, s.current)], redo := [],
                     moveCount := s.moveCount + 1);
    SettleSettled(placed, k, s.current);
  }

  /**
   * Every successful move leaves a settled game settled, also a move made
   * after the game has finished: the winner, who is still to move, plays
   * again and keeps the line.
   */
  lemma MakeMoveKeepsSettled(s: GameState, n: nat, k: int, r: int, c: int)
    requires Inv(s, n, k) && Settled(s, k) && MakeMoveStep(s, k, r, c).0
    ensures Settled(MakeMoveStep(s, k, r, c).1, k)
  {
    if !s.finished {
      MakeMoveSettled(s, k, r, c);
    } else {
      var p := s.history[|s.history| - 1].player;
      assert !Full(s.grid) by {
        assert s.grid[r][c] == Empty;
      }
      var placed := s.(grid := Place(s.grid, r, c, Stone(s.current)), lastMove := Some((r, c)),
                       history := s.history + [Move(r, c, s.current)], redo := [],
                       moveCount := s.moveCount + 1);
      LineSurvivesPlace(s.grid, k, p, r, c, Stone(p));
      SettleOutcome(placed, k, p);
    }
  }

  /**
   * undo followed by redo gives back the grid, history, redo stack, move
   * count, turn and end-of-game flags of a settled game; the redone move's
   * player scores once more if the move wins.
   */
  lemma UndoRedoRoundTrip(s: GameState, n: nat, k: int)
    requires Inv(s, n, k) && Settled(s, k) && s.history != []
    ensures UndoStep(s).0 && RedoStep(UndoStep(s).1, k).0
    ensures var s' := RedoStep(UndoStep(s).1, k).1;
      && s'.grid == s.grid && s'.history == s.history && s'.redo == s.redo
      && s'.moveCount == s.moveCount && s'.current == s.current
      && s'.finished == s.finished && s'.winner == s.winner
    ensures var p := s.history[|s.history| - 1].player;
      var s' := RedoStep(UndoStep(s).1, k).1;
      s'.scores == if HasLine(s.grid, k, p) then s.scores[p := s.scores[p] + 1] else s.scores
  {
    UndoThenRedo(s, n, k);
    SettleRestores(s, k);
  }

  /**
   * In a settled game, the end-of-game check of the last move, replayed with
   * the flags cleared and its player to move, gives the same turn and flags
   * back, and scores the move once more if it wins.
   */
  lemma SettleRestores(s: GameState, k: int)
    requires Square(s.grid) && X in s.scores && O in s.scores && Settled(s, k) && s.history != []
    ensures var m := s.history[|s.history| - 1];
      var r := Settle(s.(lastMove := Some((m.row, m.col)), current := m.player, finished := false, winner := None),
                      k, m.player);
      && r.grid == s.grid && r.history == s.history && r.redo == s.redo && r.moveCount == s.moveCount
      && r.current == s.current && r.finished == s.finished && r.winner == s.winner
      && r.scores == if HasLine(s.grid, k, m.player) then s.scores[m.player := s.scores[m.player] + 1] else s.scores
  {
    var m := s.history[|s.history| - 1];
    var placed := s.(lastMove := Some((m.row, m.col)), current := m.player, finished := false, winner := None);
    SettleOutcome(placed, k, m.player);
  }


  /** undo then redo is the end-of-game check on the position before the undo, the last mover to move. */
  lemma UndoThenRedo(s: GameState, n: nat, k: int)
    requires Inv(s, n, k) && s.history != []
    ensures UndoStep(s).0 && RedoStep(UndoStep(s).1, k).0
    ensures var m := s.history[|s.history| - 1];
      RedoStep(UndoStep(s).1, k).1
        == Settle(s.(lastMove := Some((m.row, m.col)), current := m.player, finished := false, winner := None),
                  k, m.player)
  {
    UndoInv(s, n, k);
    var h', m := s.history[..|s.history| - 1], s.history[|s.history| - 1];
    var g' := Replay(n, h').value;
    assert Legal(g', m.row, m.col) && s.grid == Place(g', m.row, m.col, Stone(m.player));
    PlaceThenClear(g', m.row, m.col, Stone(m.player));
    var u := UndoStep(s).1;
    assert u.grid == g' && u.redo[|u.redo| - 1] == m && u.redo[..|u.redo| - 1] == s.redo;
    assert h' + [m] == s.history;
  }

}
