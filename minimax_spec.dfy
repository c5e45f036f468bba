/**
 * What one call of the AI's minimax search returns, stated over the
 * position, the transposition table before and after the call, and the
 * window: the cached, won, lost and evaluated cases, and a searched position
 * whose child values are each the outcome of searching that child, and so on
 * down the whole tree. Outcome, Trace, ChildAt, ChildOutcome and Reached are
 * one recursive definition; it terminates because every child has one empty
 * cell fewer.
 */
module MinimaxSpec {
  import opened Grid
  import opened Heuristic
  import opened Candidates
  import opened SearchSpec

  /**
   * The fixed parameters of one search: the AI's stone, its opponent's, the
   * line length the win checks use and the one the evaluation uses.
   */
  datatype Setting = Setting(player: Player, opponent: Player, lineK: int, evalK: int)

  /** The stone of the side to move: the AI's when maximizing, the opponent's otherwise. */
  function Mover(s: Setting, maximizing: bool): Player
  {
    if maximizing then s.player else s.opponent
  }

  /**
   * The search of position g returned (value, move) and took the table from
   * t0 to t1, with the given depth, window and side to move. In this order:
   * a position in t0 gives its cached entry; a line of the AI gives
   * (100000, None) and one of the opponent (-100000, None); a full board or
   * depth 0 gives the evaluation and no move; no move means the time budget
   * expired and gives the evaluation; none of these touches the table.
   * Otherwise moves are exactly the candidate moves, values are the
   * children searched before the cut-off, each the outcome of searching its
   * child (Trace), and their best is the result; the children took the
   * table from tables[0] == t0 to tables[|values|], and the result is then
   * stored under g.
   */
  ghost predicate Outcome(s: Setting, g: Grid, t0: Table, t1: Table, depth: int,
                          alpha: ExtInt, beta: ExtInt, maximizing: bool,
                          value: int, move: Option<Pos>, moves: seq<Pos>, values: seq<int>, tables: seq<Table>)
    requires Square(g)
    decreases |EmptyCells(g)|, 3
  {
    if g in t0 then (value, move) == t0[g] && t1 == t0
    else if HasLine(g, s.lineK, s.player) then (value, move) == (100000, None) && t1 == t0
    else if HasLine(g, s.lineK, s.opponent) then (value, move) == (-100000, None) && t1 == t0
    else if Full(g) || depth == 0 then
      (value, move) == (Evaluation(g, s.evalK, s.player, s.opponent), None) && t1 == t0
    else if move.None? then value == Evaluation(g, s.evalK, s.player, s.opponent) && t1 == t0
    else
      && (forall q :: q in moves <==> q in CandidateSet(g)) && Distinct(moves)
      && SearchOutcome(alpha, beta, maximizing, moves, values, value, move)
      && Trace(s, g, moves, values, tables, depth, alpha, beta, maximizing)
      && tables[0] == t0
      && t1 == tables[|values|][g := (value, move)]
  }

  /** Some search of position g returned e and took the table from t0 to t1. */
  ghost predicate Reached(s: Setting, g: Grid, t0: Table, t1: Table, depth: int,
                          alpha: ExtInt, beta: ExtInt, maximizing: bool, e: int)
    requires Square(g)
    decreases |EmptyCells(g)|, 4
  {
    exists move: Option<Pos>, moves: seq<Pos>, values: seq<int>, tables: seq<Table> ::
      Outcome(s, g, t0, t1, depth, alpha, beta, maximizing, e, move, moves, values, tables)
  }

  /**
   * The child of g reached by the side to move playing q, searched one
   * level shallower with the window (a, b) and the roles swapped, returned
   * e and took the table from t0 to t1.
   */
  ghost predicate ChildOutcome(s: Setting, g: Grid, q: Pos, t0: Table, t1: Table, depth: int,
                               a: ExtInt, b: ExtInt, maximizing: bool, e: int)
    requires Square(g)
    decreases |EmptyCells(g)|, 0
  {
    if !Legal(g, q.0, q.1) then false
    else
      PlaceShrinksEmptyCells(g, q.0, q.1, Stone(Mover(s, maximizing)));
      Reached(s, Place(g, q.0, q.1, Stone(Mover(s, maximizing))), t0, t1, depth - 1, a, b, !maximizing, e)
  }

  /**
   * A child searched with depth 0 left: its value is its cached value, the
   * value of a line for either side, or else its evaluation, and the table
   * is left as it was.
   */
  lemma LeafChildValue(s: Setting, g: Grid, q: Pos, t0: Table, t1: Table, a: ExtInt, b: ExtInt, maximizing: bool, e: int)
    requires Square(g) && ChildOutcome(s, g, q, t0, t1, 1, a, b, maximizing, e)
    ensures InRange(g, q.0, q.1) && g[q.0][q.1] == Empty
    ensures var c := Place(g, q.0, q.1, Stone(Mover(s, maximizing)));
      e == if c in t0 then t0[c].0
           else if HasLine(c, s.lineK, s.player) then 100000
           else if HasLine(c, s.lineK, s.opponent) then -100000
           else Evaluation(c, s.evalK, s.player, s.opponent)
    ensures t1 == t0
  {
    var c := Place(g, q.0, q.1, Stone(Mover(s, maximizing)));
    var m, ms, vs, ts :| Outcome(s, c, t0, t1, 0, a, b, !maximizing, e, m, ms, vs, ts);
  }

  /**
   * The t-th child searched from g: the child of moves[t], searched with
   * the window left by the values before it, returned values[t] and took
   * the table from tables[t] to tables[t + 1].
   */
  ghost predicate ChildAt(s: Setting, g: Grid, moves: seq<Pos>, values: seq<int>, tables: seq<Table>,
                          depth: int, alpha: ExtInt, beta: ExtInt, maximizing: bool, t: int)
    requires Square(g) && 0 <= t < |values| && t < |moves| && t + 1 < |tables|
    decreases |EmptyCells(g)|, 1
  {
    ChildOutcome(s, g, moves[t], tables[t], tables[t + 1], depth,
                 Window(alpha, beta, values[..t], maximizing).0, Window(alpha, beta, values[..t], maximizing).1,
                 maximizing, values[t])
  }

  /**
   * The children searched from g, each the search outcome of its child
   * position; tables holds the table before, between and after them.
   */
  ghost predicate Trace(s: Setting, g: Grid, moves: seq<Pos>, values: seq<int>, tables: seq<Table>,
                        depth: int, alpha: ExtInt, beta: ExtInt, maximizing: bool)
    requires Square(g)
    decreases |EmptyCells(g)|, 2
  {
    && |values| <= |moves| && |tables| == |values| + 1
    && forall t :: 0 <= t < |values| ==> ChildAt(s, g, moves, values, tables, depth, alpha, beta, maximizing, t)
  }

  /** A trace extended by one more child, searched in the window of the values before it. */
  lemma TraceSnoc(s: Setting, g: Grid, moves: seq<Pos>, values: seq<int>, tables: seq<Table>, t1: Table, e: int,
                  depth: int, alpha: ExtInt, beta: ExtInt, maximizing: bool)
    requires Square(g) && |values| < |moves|
    requires Trace(s, g, moves, values, tables, depth, alpha, beta, maximizing)
    requires ChildOutcome(s, g, moves[|values|], tables[|values|], t1, depth,
                          Window(alpha, beta, values, maximizing).0, Window(alpha, beta, values, maximizing).1,
                          maximizing, e)
    ensures Trace(s, g, moves, values + [e], tables + [t1], depth, alpha, beta, maximizing)
  {
    var values', tables' := values + [e], tables + [t1];
    forall t | 0 <= t < |values'|
      ensures ChildAt(s, g, moves, values', tables', depth, alpha, beta, maximizing, t)
    {
      if t < |values| {
        assert ChildAt(s, g, moves, values, tables, depth, alpha, beta, maximizing, t);
        assert values'[..t] == values[..t];
      } else {
        assert values'[..t] == values;
      }
    }
  }

  /**
   * The state of the loop over the candidate moves of g after the children
   * in values: the table has only grown from t0 to t1, the best so far and
   * the window are those of the values, and each value is its child's
   * search outcome.
   */
  ghost predicate Searching(s: Setting, g: Grid, t0: Table, t1: Table, depth: int,
                            alpha: ExtInt, beta: ExtInt, maximizing: bool, moves: seq<Pos>,
                            values: seq<int>, tables: seq<Table>, best: ExtInt, move: Option<Pos>, a: ExtInt, b: ExtInt)
    requires Square(g)
  {
    && Grown(t0, t1, g)
    && Progress(alpha, beta, maximizing, moves, values, best, move, a, b)
    && Trace(s, g, moves, values, tables, depth, alpha, beta, maximizing)
    && tables[0] == t0 && tables[|values|] == t1
  }

  /** The loop state after one more child, searched in the window of the values before it. */
  lemma SearchingSnoc(s: Setting, g: Grid, t0: Table, before: Table, t1: Table, depth: int,
                      alpha: ExtInt, beta: ExtInt, maximizing: bool, moves: seq<Pos>,
                      values: seq<int>, tables: seq<Table>, best: ExtInt, move: Option<Pos>, a: ExtInt, b: ExtInt,
                      e: int, best': ExtInt, move': Option<Pos>, a': ExtInt, b': ExtInt)
    requires Square(g) && |values| < |moves|
    requires Searching(s, g, t0, before, depth, alpha, beta, maximizing, moves, values, tables, best, move, a, b)
    requires Grown(before, t1, g)
    requires ChildOutcome(s, g, moves[|values|], before, t1, depth, a, b, maximizing, e)
    requires Progress(alpha, beta, maximizing, moves, values + [e], best', move', a', b')
    ensures Searching(s, g, t0, t1, depth, alpha, beta, maximizing, moves,
                      values + [e], tables + [t1], best', move', a', b')
  {
    GrownTrans(t0, before, t1, g);
    TraceSnoc(s, g, moves, values, tables, t1, e, depth, alpha, beta, maximizing);
  }

  /**
   * The loop has seen every move or its window closed: the search of g ends
   * with the outcome of values and its trace.
   */
  lemma SearchingDone(s: Setting, g: Grid, t0: Table, t1: Table, depth: int,
                      alpha: ExtInt, beta: ExtInt, maximizing: bool, moves: seq<Pos>,
                      values: seq<int>, tables: seq<Table>, best: ExtInt, move: Option<Pos>, a: ExtInt, b: ExtInt)
    requires Square(g) && values != [] && (|values| == |moves| || Le(b, a))
    requires Searching(s, g, t0, t1, depth, alpha, beta, maximizing, moves, values, tables, best, move, a, b)
    ensures Grown(t0, t1, g)
    ensures SearchOutcome(alpha, beta, maximizing, moves, values, best.n, move)
    ensures Trace(s, g, moves, values, tables, depth, alpha, beta, maximizing)
    ensures tables[0] == t0 && tables[|values|] == t1
  {
    FinishedOutcome(alpha, beta, maximizing, moves, values, best, move, a, b);
  }

  /**
   * A value minimax can produce below root: the score of a line for either
   * side, or the evaluation of a position reachable from root.
   */
  ghost predicate LeafValue(s: Setting, root: Grid, v: int)
  {
    || v == 100000 || v == -100000
    || exists p: Grid :: Extends(p, root) && v == Evaluation(p, s.evalK, s.player, s.opponent)
  }

  /** Every value cached in t is a value minimax can produce below root. */
  ghost predicate TableValues(s: Setting, root: Grid, t: Table)
  {
    forall key :: key in t ==> LeafValue(s, root, t[key].0)
  }

  /**
   * The search never invents a value: whatever the depth, window and clock,
   * the value returned and every value the table holds afterwards are line
   * scores or evaluations of positions reachable from root, provided the
   * table held only such values before.
   */
  lemma {:induction false} OutcomeValues(s: Setting, root: Grid, g: Grid, t0: Table, t1: Table, depth: int,
                                         alpha: ExtInt, beta: ExtInt, maximizing: bool, value: int,
                                         move: Option<Pos>, moves: seq<Pos>, values: seq<int>, tables: seq<Table>)
    requires Square(g) && Extends(g, root) && TableValues(s, root, t0)
    requires Outcome(s, g, t0, t1, depth, alpha, beta, maximizing, value, move, moves, values, tables)
    ensures LeafValue(s, root, value) && TableValues(s, root, t1)
    decreases |EmptyCells(g)|, 1, 0
  {
    if g in t0 {
    } else if HasLine(g, s.lineK, s.player) || HasLine(g, s.lineK, s.opponent) {
    } else if Full(g) || depth == 0 || move.None? {
      assert Extends(g, root) && value == Evaluation(g, s.evalK, s.player, s.opponent);
    } else {
      TraceValues(s, root, g, moves, values, tables, depth, alpha, beta, maximizing, |values|);
      assert value in values;
    }
  }

  /** The first u children of a trace produce such values and leave only such values in the table. */
  lemma {:induction false} TraceValues(s: Setting, root: Grid, g: Grid, moves: seq<Pos>, values: seq<int>,
                                       tables: seq<Table>, depth: int, alpha: ExtInt, beta: ExtInt,
                                       maximizing: bool, u: nat)
    requires Square(g) && Extends(g, root)
    requires Trace(s, g, moves, values, tables, depth, alpha, beta, maximizing)
    requires u <= |values| && TableValues(s, root, tables[0])
    ensures TableValues(s, root, tables[u])
    ensures forall t :: 0 <= t < u ==> LeafValue(s, root, values[t])
    decreases |EmptyCells(g)|, 0, u
  {
    if u > 0 {
      TraceValues(s, root, g, moves, values, tables, depth, alpha, beta, maximizing, u - 1);
      var q := moves[u - 1];
      var v := Stone(Mover(s, maximizing));
      var w := Window(alpha, beta, values[..u - 1], maximizing);
      assert ChildAt(s, g, moves, values, tables, depth, alpha, beta, maximizing, u - 1);
      assert ChildOutcome(s, g, q, tables[u - 1], tables[u], depth, w.0, w.1, maximizing, values[u - 1]);
      var c := Place(g, q.0, q.1, v);
      PlaceShrinksEmptyCells(g, q.0, q.1, v);
      assert Reached(s, c, tables[u - 1], tables[u], depth - 1, w.0, w.1, !maximizing, values[u - 1]);
      var m, ms, vs, ts :| Outcome(s, c, tables[u - 1], tables[u], depth - 1, w.0, w.1, !maximizing,
                                   values[u - 1], m, ms, vs, ts);
      PlaceExtends(root, g, q.0, q.1, v);
      OutcomeValues(s, root, c, tables[u - 1], tables[u], depth - 1, w.0, w.1, !maximizing,
                    values[u - 1], m, ms, vs, ts);
    }
  }
}
