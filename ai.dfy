/**
 * The computer player: a heuristic evaluator, a move generator restricted to
 * cells near the stones, a depth-bounded alpha-beta minimax that plays and
 * takes back moves on the shared board and memoises positions in a
 * transposition table keyed by the grid contents, and the difficulty policy
 * on top of it.
 */
module AI {
  import opened Grid
  import opened Boards
  import opened Heuristic
  import opened Candidates
  import opened SearchSpec
  import opened MinimaxSpec

  class CaroAI {
    const player: Player
    const opponent: Player
    var depth: int
    var timeLimit: real
    var transposition: Table

    /** Every move in the transposition table is a candidate move of its position. */
    ghost predicate Valid()
      reads this
    {
      CacheSound(transposition)
    }

    constructor (player: Player := O, opponent: Player := X, depth: int := 2, timeLimit: real := 2.0)
      ensures Valid()
      ensures this.player == player && this.opponent == opponent
      ensures this.depth == depth && this.timeLimit == timeLimit && transposition == map[]
    {
      this.player := player;
      this.opponent := opponent;
      this.depth := depth;
      this.timeLimit := timeLimit;
      transposition := map[];
    }

    /**
     * The run of p's stones through (i, j) along d, counted forward and then
     * backward from the stone, and how many of its two ends are empty cells.
     */
    method RunAt(board: Board, p: Player, i: int, j: int, d: Dir) returns (count: int, openEnds: int)
      requires board.Valid() && InRange(board.grid, i, j)
      ensures count == RunLength(board.grid, p, i, j, d)
      ensures openEnds == OpenEnds(board.grid, p, i, j, d)
    {
      count := 1;
      openEnds := 0;
      for u := 0 to 2
        invariant count == 1 + (if u > 0 then Probe(board.grid, p, i, j, d, true, 1).0 else 0)
                             + (if u > 1 then Probe(board.grid, p, i, j, d, false, 1).0 else 0)
        invariant openEnds == (if u > 0 then Probe(board.grid, p, i, j, d, true, 1).1 else 0)
                              + (if u > 1 then Probe(board.grid, p, i, j, d, false, 1).1 else 0)
      {
        var stones, open := Walk(board, p, i, j, d, u == 0);
        count := count + stones;
        openEnds := openEnds + open;
      }
    }

    /**
     * One direction of the run: steps k = 1, 2, ... away from (i, j) while
     * they stay on the board and on p's stones; the count of those stones,
     * and 1 if the step that stops is an empty cell.
     */
    method Walk(board: Board, p: Player, i: int, j: int, d: Dir, forward: bool) returns (stones: int, open: int)
      requires board.Valid() && InRange(board.grid, i, j)
      ensures (stones, open) == Probe(board.grid, p, i, j, d, forward, 1)
    {
      ghost var g := board.grid;
      stones, open := 0, 0;
      var k := 1;
      while true
        invariant k >= 1 && open == 0
        invariant Probe(g, p, i, j, d, forward, 1) == (stones + Probe(g, p, i, j, d, forward, k).0, Probe(g, p, i, j, d, forward, k).1)
        decreases board.size - k
      {
        var q := Along(i, j, d, Step(k, forward));
        if 0 <= q.0 < board.size && 0 <= q.1 < board.size {
          if board.grid[q.0][q.1] == Stone(p) {
            stones := stones + 1;
          } else if board.grid[q.0][q.1] == Empty {
            open := open + 1;
            break;
          } else {
            break;
          }
        } else {
          break;
        }
        NearStep(g, i, j, d, k, forward);
        k := k + 1;
      }
    }

    /** count_sequences: p's heuristic score, summed over p's stones and the four directions. */
    method CountSequences(board: Board, winCondition: int, p: Player) returns (score: int)
      requires board.Valid()
      ensures score == Score(board.grid, winCondition, p)
    {
      score := 0;
      for i := 0 to board.size
        invariant score == RowsScore(board.grid, winCondition, p, i)
      {
        var s := RowSequences(board, winCondition, p, i);
        score := score + s;
      }
    }

    /** The scores of p's stones in row i. */
    method RowSequences(board: Board, winCondition: int, p: Player, i: int) returns (score: int)
      requires board.Valid() && 0 <= i < board.size
      ensures score == RowScore(board.grid, winCondition, p, i, board.size)
    {
      score := 0;
      for j := 0 to board.size
        invariant score == RowScore(board.grid, winCondition, p, i, j)
      {
        if board.grid[i][j] != Stone(p) {
          continue;
        }
        var s := StoneScore(board, winCondition, p, i, j);
        score := score + s;
      }
    }

    /** What p's stone at (i, j) adds: the tier of its run in each of the four directions. */
    method StoneScore(board: Board, winCondition: int, p: Player, i: int, j: int) returns (score: int)
      requires board.Valid() && InRange(board.grid, i, j) && board.grid[i][j] == Stone(p)
      ensures score == CellScore(board.grid, winCondition, p, i, j)
    {
      score := 0;
      for t := 0 to 4
        invariant score == DirsScore(board.grid, winCondition, p, i, j, t)
      {
        var count, openEnds := RunAt(board, p, i, j, Directions[t]);
        if count >= winCondition {
          score := score + 100000;
        } else if count == winCondition - 1 && openEnds == 2 {
          score := score + 10000;
        } else if count == winCondition - 2 && openEnds == 2 {
          score := score + 1000;
        } else if count == winCondition - 3 && openEnds == 2 {
          score := score + 100;
        } else if count == winCondition - 4 && openEnds == 2 {
          score := score + 10;
        }
      }
      assert |Directions| == 4;
    }

    /** The position's value for this player: its score minus the opponent's. */
    method Evaluate(board: Board, winCondition: int) returns (score: int)
      requires board.Valid()
      ensures score == Evaluation(board.grid, winCondition, player, opponent)
    {
      var mine := CountSequences(board, winCondition, player);
      var theirs := CountSequences(board, winCondition, opponent);
      score := mine - theirs;
    }

    /**
     * The empty cells within two rows and two columns of a stone, each once
     * and in no particular order; every empty cell, in row-major order, when
     * there is none.
     */
    method SmartMoves(board: Board) returns (moves: seq<Pos>)
      requires board.Valid()
      ensures forall q :: q in moves <==> q in CandidateSet(board.grid)
      ensures Distinct(moves)
      ensures NearCells(board.grid) == {} ==> moves == ValidMoves(board.grid)
    {
      ghost var g := board.grid;
      var found: set<Pos> := {};
      for i := 0 to board.size
        invariant forall q :: q in found <==> Legal(g, q.0, q.1) && NearBefore(g, q, i, 0)
      {
        for j := 0 to board.size
          invariant forall q :: q in found <==> Legal(g, q.0, q.1) && NearBefore(g, q, i, j)
        {
          if board.grid[i][j] != Empty {
            found := AddNear(board, i, j, found);
          }
          forall q ensures NearBefore(g, q, i, j + 1) <==> NearBefore(g, q, i, j) || NearStone(g, q, i, j) {
            NearBeforeNextCell(g, q, i, j);
          }
        }
        forall q ensures NearBefore(g, q, i, board.size) <==> NearBefore(g, q, i + 1, 0) {
          NearBeforeNextRow(g, q, i);
        }
      }
      forall q ensures NearBefore(g, q, board.size, 0) <==> exists a, b :: NearStone(g, q, a, b) {
        NearBeforeEnd(g, q);
      }
      assert found == NearCells(g);
      if found == {} {
        moves := board.GetValidMoves();
        ValidMovesExact(g);
      } else {
        moves := ListOf(found);
      }
    }

    /** The 5 x 5 scan around the stone at (i, j): every empty cell in it is added to found. */
    method AddNear(board: Board, i: int, j: int, found: set<Pos>) returns (found': set<Pos>)
      requires board.Valid() && InRange(board.grid, i, j) && board.grid[i][j] != Empty
      ensures forall q :: q in found' <==> q in found || (Legal(board.grid, q.0, q.1) && NearStone(board.grid, q, i, j))
    {
      found' := found;
      for dx := -2 to 3
        invariant forall q :: q in found' <==>
          q in found || (Legal(board.grid, q.0, q.1) && i - 2 <= q.0 < i + dx && j - 2 <= q.1 <= j + 2)
      {
        for dy := -2 to 3
          invariant forall q :: q in found' <==>
            q in found || (Legal(board.grid, q.0, q.1) && ((i - 2 <= q.0 < i + dx && j - 2 <= q.1 <= j + 2)
                                                           || (q.0 == i + dx && j - 2 <= q.1 < j + dy)))
        {
          var ni, nj := i + dx, j + dy;
          if 0 <= ni < board.size && 0 <= nj < board.size && board.grid[ni][nj] == Empty {
            found' := found' + {(ni, nj)};
          }
        }
      }
    }

    /**
     * The minimax value of the position for this player, with alpha-beta
     * pruning, and the move that attains it. In this order: a position in
     * the transposition table gives its cached entry; a line of this player
     * gives (100000, None) and one of the opponent (-100000, None); a full
     * board, depth 0 or an expired time budget gives (evaluation, None);
     * otherwise the candidate moves are tried in turn, each played, searched
     * with the roles swapped and taken back, and the result is cached.
     * The clock is not modelled: whether the budget has expired is an
     * arbitrary choice at every node.
     */
    method Minimax(board: Board, winCondition: int, depth: int, alpha: ExtInt, beta: ExtInt, maximizing: bool)
      returns (value: int, move: Option<Pos>, ghost moves: seq<Pos>, ghost values: seq<int>,
               ghost tables: seq<Table>)
      requires Valid() && board.Valid()
      modifies this`transposition, board`grid, board`lastMove, board`winningSequence
      decreases |EmptyCells(board.grid)|, 4
      ensures Valid() && board.Valid()
      ensures board.grid == old(board.grid)
      ensures Grown(old(transposition), transposition, old(board.grid))
      ensures move.Some? ==> move.value in CandidateSet(old(board.grid))
      ensures Outcome(Setting(player, opponent, board.winCondition, winCondition), old(board.grid),
                      old(transposition), transposition, depth, alpha, beta, maximizing, value, move, moves, values,
                      tables)
      ensures old(board.grid) !in old(transposition) && move.Some? ==>
        && Trace(Setting(player, opponent, board.winCondition, winCondition), old(board.grid), moves, values, tables,
                depth, alpha, beta, maximizing)
        && tables[0] == old(transposition)
    {
      moves, values, tables := [], [], [transposition];
      var key := board.grid;
      if key in transposition {
        value, move := transposition[key].0, transposition[key].1;
        return;
      }
      FirstLineSpec(key, board.winCondition, player);
      FirstLineSpec(key, board.winCondition, opponent);
      var won := board.CheckWin(player);
      if won {
        return 100000, None, moves, values, tables;
      }
      var lost := board.CheckWin(opponent);
      if lost {
        return -100000, None, moves, values, tables;
      }
      var expired: bool := *;
      var full := board.IsFull();
      if full || depth == 0 || expired {
        value := Evaluate(board, winCondition);
        return value, None, moves, values, tables;
      }
      value, move, moves, values, tables := Expand(board, winCondition, depth, alpha, beta, maximizing);
    }

    /**
     * A position that is not in the table, has no line and is not full: the
     * candidate moves are searched and the result is stored under the
     * position.
     */
    method Expand(board: Board, winCondition: int, depth: int, alpha: ExtInt, beta: ExtInt, maximizing: bool)
      returns (value: int, move: Option<Pos>, ghost moves: seq<Pos>, ghost values: seq<int>,
               ghost tables: seq<Table>)
      requires Valid() && board.Valid() && !Full(board.grid) && board.grid !in transposition
      modifies this`transposition, board`grid, board`lastMove, board`winningSequence
      decreases |EmptyCells(board.grid)|, 3
      ensures Valid() && board.Valid()
      ensures board.grid == old(board.grid)
      ensures Grown(old(transposition), transposition, old(board.grid))
      ensures move.Some? && move.value in CandidateSet(old(board.grid))
      ensures (forall q :: q in moves <==> q in CandidateSet(old(board.grid))) && Distinct(moves)
      ensures SearchOutcome(alpha, beta, maximizing, moves, values, value, move)
      ensures Trace(Setting(player, opponent, board.winCondition, winCondition), old(board.grid), moves, values, tables,
                depth, alpha, beta, maximizing)
      ensures tables[0] == old(transposition)
      ensures transposition == tables[|values|][old(board.grid) := (value, move)]
    {
      var key := board.grid;
      CandidatesNonEmpty(key);
      var candidates := SmartMoves(board);
      assert candidates != [] by {
        var q :| q in CandidateSet(key);
      }
      moves := candidates;
      ghost var before := transposition;
      value, move, values, tables := Search(board, winCondition, depth, alpha, beta, maximizing, candidates);
      assert move.value in CandidateSet(key) by {
        assert move.value in candidates;
      }
      CacheSoundStore(transposition, key, (value, move));
      GrownStore(before, transposition, key, (value, move));
      transposition := transposition[key := (value, move)];
    }

    /**
     * The loop over the candidate moves: each is played for the side to move
     * and searched one level deeper with the roles swapped; a strictly
     * better value replaces the best so far; alpha (for the maximiser) or
     * beta (for the minimiser) is moved to the value, and the remaining moves
     * are cut off once beta <= alpha.
     */
    method Search(board: Board, winCondition: int, depth: int, alpha: ExtInt, beta: ExtInt, maximizing: bool,
                  moves: seq<Pos>)
      returns (value: int, move: Option<Pos>, ghost values: seq<int>, ghost tables: seq<Table>)
      requires Valid() && board.Valid() && |moves| > 0
      requires forall q :: q in moves ==> Legal(board.grid, q.0, q.1)
      modifies this`transposition, board`grid, board`lastMove, board`winningSequence
      decreases |EmptyCells(board.grid)|, 2
      ensures Valid() && board.Valid()
      ensures board.grid == old(board.grid)
      ensures Grown(old(transposition), transposition, old(board.grid))
      ensures SearchOutcome(alpha, beta, maximizing, moves, values, value, move)
      ensures Trace(Setting(player, opponent, board.winCondition, winCondition), old(board.grid), moves, values, tables,
                depth, alpha, beta, maximizing)
      ensures tables[0] == old(transposition) && tables[|values|] == transposition
    {
      ghost var g, st := board.grid, Setting(player, opponent, board.winCondition, winCondition);
      var a, b := alpha, beta;
      var best: ExtInt := if maximizing then NegInf else PosInf;
      move := None;
      values, tables := [], [transposition];
      var u := 0;
      while u < |moves|
        invariant 0 <= u <= |moves| && |values| == u
        invariant Valid() && board.Valid() && board.grid == g
        invariant Searching(st, g, old(transposition), transposition, depth, alpha, beta, maximizing, moves, values,
                            tables, best, move, a, b)
        invariant u > 0 ==> !Le(b, a)
        decreases |moves| - u
      {
        var e;
        e, best, move, a, b, values, tables := SearchChild(board, winCondition, depth, alpha, beta, maximizing, moves,
                                                           moves[u], values, tables, old(transposition), best, move, a, b);
        u := u + 1;
        if Le(b, a) {
          break;
        }
      }
      SearchingDone(st, g, old(transposition), transposition, depth, alpha, beta, maximizing, moves, values, tables,
                    best, move, a, b);
      value := best.n;
    }

    /**
     * One iteration of the loop: the child moves[|values|] is searched in the
     * current window and its value recorded; the loop state now covers it.
     */
    method SearchChild(board: Board, winCondition: int, depth: int, alpha: ExtInt, beta: ExtInt, maximizing: bool,
                       moves: seq<Pos>, q: Pos, ghost values: seq<int>, ghost tables: seq<Table>, ghost t0: Table,
                       best: ExtInt, move: Option<Pos>, a: ExtInt, b: ExtInt)
      returns (e: int, best': ExtInt, move': Option<Pos>, a': ExtInt, b': ExtInt, ghost values': seq<int>,
               ghost tables': seq<Table>)
      requires Valid() && board.Valid() && |values| < |moves| && q == moves[|values|]
      requires forall q :: q in moves ==> Legal(board.grid, q.0, q.1)
      requires Searching(Setting(player, opponent, board.winCondition, winCondition), board.grid, t0, transposition,
                         depth, alpha, beta, maximizing, moves, values, tables, best, move, a, b)
      requires values != [] ==> !Le(b, a)
      modifies this`transposition, board`grid, board`lastMove, board`winningSequence
      decreases |EmptyCells(board.grid)|, 1
      ensures Valid() && board.Valid()
      ensures board.grid == old(board.grid)
      ensures values' == values + [e] && tables' == tables + [transposition]
      ensures Searching(Setting(player, opponent, board.winCondition, winCondition), board.grid, t0, transposition,
                        depth, alpha, beta, maximizing, moves, values', tables', best', move', a', b')
      ensures best' == Fin(Best(values', maximizing))
    {
      ghost var g := board.grid;
      ghost var before := transposition;
      e := TryMove(board, winCondition, depth, a, b, maximizing, q);
      best', move', a', b' := RecordChild(alpha, beta, maximizing, moves, values, q, e, best, move, a, b);
      SearchingSnoc(Setting(player, opponent, board.winCondition, winCondition), g, t0, before, transposition,
                    depth, alpha, beta, maximizing, moves, values, tables, best, move, a, b, e, best', move', a', b');
      values', tables' := values + [e], tables + [transposition];
    }

    /**
     * The bookkeeping after the child moves[|values|] is searched with value
     * e: a strictly better value becomes the best and its move the best move;
     * alpha (maximiser) or beta (minimiser) moves to the value.
     */
    method RecordChild(alpha: ExtInt, beta: ExtInt, maximizing: bool, ghost moves: seq<Pos>, ghost values: seq<int>,
                       q: Pos, e: int,
                       best: ExtInt, move: Option<Pos>, a: ExtInt, b: ExtInt)
      returns (best': ExtInt, move': Option<Pos>, a': ExtInt, b': ExtInt)
      requires |values| < |moves| && q == moves[|values|]
      requires Progress(alpha, beta, maximizing, moves, values, best, move, a, b)
      requires values != [] ==> !Le(b, a)
      ensures Progress(alpha, beta, maximizing, moves, values + [e], best', move', a', b')
      ensures best' == Fin(Best(values + [e], maximizing))
    {
      if values != [] {
        BestSnoc(values, e, maximizing);
      } else {
        assert Best([e], maximizing) == e && BestIndex([e], maximizing) == 0;
      }
      WindowSnoc(alpha, beta, values, e, maximizing);
      OpenPrefixesSnoc(alpha, beta, values, e, maximizing);
      best', move' := best, move;
      if (maximizing && !Le(Fin(e), best)) || (!maximizing && !Le(best, Fin(e))) {
        best' := Fin(e);
        move' := Some(q);
      }
      a', b' := a, b;
      if maximizing {
        a' := Max(a, Fin(e));
      } else {
        b' := Min(b, Fin(e));
      }
    }

    /**
     * One iteration's child: q is played for the side to move, the position
     * is searched one level deeper with the roles swapped, and q is taken
     * back; the board is as before and the table has only grown.
     */
    method TryMove(board: Board, winCondition: int, depth: int, alpha: ExtInt, beta: ExtInt, maximizing: bool, q: Pos)
      returns (e: int)
      requires Valid() && board.Valid() && Legal(board.grid, q.0, q.1)
      modifies this`transposition, board`grid, board`lastMove, board`winningSequence
      decreases |EmptyCells(board.grid)|, 0
      ensures Valid() && board.Valid()
      ensures board.grid == old(board.grid)
      ensures Grown(old(transposition), transposition, old(board.grid))
      ensures ChildOutcome(Setting(player, opponent, board.winCondition, winCondition), old(board.grid), q,
                           old(transposition), transposition, depth, alpha, beta, maximizing, e)
    {
      ghost var g := board.grid;
      ghost var v := Stone(if maximizing then player else opponent);
      var _ := board.MakeMove(q.0, q.1, if maximizing then player else opponent);
      PlaceShrinksEmptyCells(g, q.0, q.1, v);
      ghost var before := transposition;
      var child, m, ms, vs, ts := Minimax(board, winCondition, depth - 1, alpha, beta, !maximizing);
      e := child;
      board.UndoMove(q.0, q.1);
      PlaceThenClear(g, q.0, q.1, v);
      forall key | key in transposition && key !in before ensures Extends(key, g) {
        ExtendsPlace(key, g, q.0, q.1, v);
      }
    }

    /**
     * The AI's move: a random legal move on "easy"; otherwise the search's
     * move with depth 4 and 3.0 s on "hard" and depth 2 and 1.0 s on any
     * other difficulty, from an emptied transposition table, or a random
     * legal move when the search returns none.
     */
    method GetMove(board: Board, winCondition: int, difficulty: string := "medium") returns (move: Pos)
      requires Valid() && board.Valid() && !Full(board.grid)
      modifies this`depth, this`timeLimit, this`transposition, board`grid, board`lastMove, board`winningSequence
      ensures Valid() && board.Valid() && board.grid == old(board.grid)
      ensures Legal(board.grid, move.0, move.1)
      ensures difficulty == "easy" ==>
        depth == old(depth) && timeLimit == old(timeLimit) && transposition == old(transposition)
      ensures difficulty == "hard" ==> depth == 4 && timeLimit == 3.0
      ensures difficulty != "easy" && difficulty != "hard" ==> depth == 2 && timeLimit == 1.0
      ensures difficulty != "easy" ==> forall key :: key in transposition ==> Extends(key, board.grid)
      ensures difficulty != "easy" ==>
        exists value, best, moves, values, tables ::
          && Outcome(Setting(player, opponent, board.winCondition, winCondition), old(board.grid), map[], transposition,
                     depth, NegInf, PosInf, true, value, best, moves, values, tables)
          && (best.Some? ==> move == best.value)
    {
      if difficulty == "easy" {
        move := RandomValidMove(board);
        return;
      } else if difficulty == "hard" {
        depth := 4;
        timeLimit := 3.0;
      } else {
        depth := 2;
        timeLimit := 1.0;
      }
      transposition := map[];
      var value, best, moves, values, tables := Minimax(board, winCondition, depth, NegInf, PosInf, true);
      if best.None? {
        move := RandomValidMove(board);
      } else {
        move := best.value;
      }
    }

    /** list(found): the elements of the set, each once, in an arbitrary order. */
    static method ListOf(found: set<Pos>) returns (moves: seq<Pos>)
      ensures forall q :: q in moves <==> q in found
      ensures Distinct(moves)
    {
      moves := [];
      var rest := found;
      while rest != {}
        invariant rest <= found
        invariant forall q :: q in moves <==> q in found && q !in rest
        invariant Distinct(moves)
        decreases |rest|
      {
        var q :| q in rest;
        moves := moves + [q];
        rest := rest - {q};
      }
    }

    /** random.choice over get_valid_moves(): an arbitrary legal move. */
    method RandomValidMove(board: Board) returns (move: Pos)
      requires board.Valid() && !Full(board.grid)
      ensures Legal(board.grid, move.0, move.1)
    {
      var valid := board.GetValidMoves();
      FullIffNoValidMoves(board.grid);
      var i :| 0 <= i < |valid|;
      move := valid[i];
    }
  }
}
