/**
 * The AI's static evaluation of a position: for every stone of a player and
 * each of the four line directions, the run of that player's stones through
 * the stone (counted both ways) and the number of open ends of the run are
 * scored by the first matching tier, and the player's score is the sum over
 * all stones and directions. A position is worth the AI's score minus the
 * opponent's.
 */
module Heuristic {
  import opened Grid

  /** The signed step count of the probe: k cells forward, or k cells backward. */
  function Step(k: nat, forward: bool): int
  {
    if forward then k else -(k as int)
  }

  /** A cell on the board that is k steps from another cell on the board along a direction has k < N. */
  lemma NearStep(g: Grid, i: int, j: int, d: Dir, k: nat, forward: bool)
    requires InRange(g, i, j)
    requires var q := Along(i, j, d, Step(k, forward)); InRange(g, q.0, q.1)
    ensures k < |g|
  {
    match d
    case Right =>
    case Down =>
    case DownRight =>
    case DownLeft =>
  }

  /**
   * The probe from (i, j) along d (forward or backward), from the k-th cell
   * on: the number of p's stones met before the run is cut off, and 1 when
   * the cell that cuts it off is an empty cell on the board (an open end),
   * 0 when it is the edge or a stone of another player.
   */
  function Probe(g: Grid, p: Player, i: int, j: int, d: Dir, forward: bool, k: nat): (r: (nat, nat))
    requires Square(g) && InRange(g, i, j)
    ensures r.1 <= 1
    decreases |g| - k
  {
    var q := Along(i, j, d, Step(k, forward));
    if !InRange(g, q.0, q.1) then (0, 0)
    else if g[q.0][q.1] == Stone(p) then
      NearStep(g, i, j, d, k, forward);
      var rest := Probe(g, p, i, j, d, forward, k + 1);
      (rest.0 + 1, rest.1)
    else if g[q.0][q.1] == Empty then (0, 1)
    else (0, 0)
  }

  /**
   * The probe stops exactly where p's run ends: every cell from the k-th up
   * to the count is p's, the next one is not, and an open end is reported
   * exactly when that next cell is an empty cell on the board.
   */
  lemma {:induction false} ProbeSpec(g: Grid, p: Player, i: int, j: int, d: Dir, forward: bool, k: nat)
    requires Square(g) && InRange(g, i, j)
    ensures var r := Probe(g, p, i, j, d, forward, k);
      forall t :: k <= t < k + r.0 ==> Owns(g, p, Along(i, j, d, Step(t, forward)))
    ensures var r := Probe(g, p, i, j, d, forward, k);
      !Owns(g, p, Along(i, j, d, Step(k + r.0, forward)))
    ensures var r := Probe(g, p, i, j, d, forward, k); var q := Along(i, j, d, Step(k + r.0, forward));
      r.1 == if Legal(g, q.0, q.1) then 1 else 0
    decreases |g| - k
  {
    var q := Along(i, j, d, Step(k, forward));
    if InRange(g, q.0, q.1) && g[q.0][q.1] == Stone(p) {
      NearStep(g, i, j, d, k, forward);
      ProbeSpec(g, p, i, j, d, forward, k + 1);
      var rest := Probe(g, p, i, j, d, forward, k + 1);
      var r := Probe(g, p, i, j, d, forward, k);
      assert r == (rest.0 + 1, rest.1);
      assert k + r.0 == (k + 1) + rest.0;
      forall t | k <= t < k + r.0 ensures Owns(g, p, Along(i, j, d, Step(t, forward))) {
        if t == k {
          assert Along(i, j, d, Step(t, forward)) == q;
        }
      }
    }
  }

  /** The run through (i, j) along d: the stone itself and p's stones met both ways. */
  function RunLength(g: Grid, p: Player, i: int, j: int, d: Dir): (count: nat)
    requires Square(g) && InRange(g, i, j)
    ensures count >= 1
  {
    1 + Probe(g, p, i, j, d, true, 1).0 + Probe(g, p, i, j, d, false, 1).0
  }

  /** The number of ends of that run that are empty cells on the board. */
  function OpenEnds(g: Grid, p: Player, i: int, j: int, d: Dir): (open: nat)
    requires Square(g) && InRange(g, i, j)
    ensures open <= 2
  {
    Probe(g, p, i, j, d, true, 1).1 + Probe(g, p, i, j, d, false, 1).1
  }

  /**
   * The score of one run: 100000 for K or more, otherwise 10000, 1000, 100
   * or 10 for a run one, two, three or four short of K with both ends open,
   * otherwise nothing; the first tier that matches is taken.
   */
  function Tier(count: int, open: int, k: int): (score: int)
    ensures score in {100000, 10000, 1000, 100, 10, 0}
    ensures score == 100000 <==> count >= k
    ensures 0 < score < 100000 ==> open == 2 && k - 4 <= count < k
  {
    if count >= k then 100000
    else if count == k - 1 && open == 2 then 10000
    else if count == k - 2 && open == 2 then 1000
    else if count == k - 3 && open == 2 then 100
    else if count == k - 4 && open == 2 then 10
    else 0
  }

  /** The tier score of the run through (i, j) along d. */
  function DirScore(g: Grid, k: int, p: Player, i: int, j: int, d: Dir): (score: int)
    requires Square(g) && InRange(g, i, j)
    ensures score >= 0
  {
    Tier(RunLength(g, p, i, j, d), OpenEnds(g, p, i, j, d), k)
  }

  /** The scores of the first t directions at (i, j). */
  function DirsScore(g: Grid, k: int, p: Player, i: int, j: int, t: nat): (score: int)
    requires Square(g) && InRange(g, i, j) && t <= 4
    ensures score >= 0
  {
    if t == 0 then 0 else DirsScore(g, k, p, i, j, t - 1) + DirScore(g, k, p, i, j, Directions[t - 1])
  }

  /** What the cell (i, j) adds to p's score: its four runs if it holds p's stone, else 0. */
  function CellScore(g: Grid, k: int, p: Player, i: int, j: int): (score: int)
    requires Square(g) && InRange(g, i, j)
    ensures score >= 0
    ensures g[i][j] != Stone(p) ==> score == 0
  {
    if g[i][j] != Stone(p) then 0 else DirsScore(g, k, p, i, j, |Directions|)
  }

  /** The cells (i, 0) .. (i, j - 1). */
  function RowScore(g: Grid, k: int, p: Player, i: int, j: nat): (score: int)
    requires Square(g) && 0 <= i < |g| && j <= |g|
    ensures score >= 0
  {
    if j == 0 then 0 else RowScore(g, k, p, i, j - 1) + CellScore(g, k, p, i, j - 1)
  }

  /** The rows 0 .. i - 1. */
  function RowsScore(g: Grid, k: int, p: Player, i: nat): (score: int)
    requires Square(g) && i <= |g|
    ensures score >= 0
  {
    if i == 0 then 0 else RowsScore(g, k, p, i - 1) + RowScore(g, k, p, i - 1, |g|)
  }

  /** p's heuristic score: the sum of the cell scores over the whole board. */
  function Score(g: Grid, k: int, p: Player): (score: int)
    requires Square(g)
    ensures score >= 0
  {
    RowsScore(g, k, p, |g|)
  }

  /**
   * The value of a position for the AI: its score minus its opponent's. It
   * lies between minus the opponent's score and the AI's score, and scoring
   * the same side twice gives 0.
   */
  function Evaluation(g: Grid, k: int, player: Player, opponent: Player): (v: int)
    requires Square(g)
    ensures -Score(g, k, opponent) <= v <= Score(g, k, player)
    ensures player == opponent ==> v == 0
  {
    Score(g, k, player) - Score(g, k, opponent)
  }

  // ---------------------------------------------------------------------
  // Properties of the evaluation
  // ---------------------------------------------------------------------

  /** The probe's count is the longest run: one more step would leave p's stones. */
  lemma ProbeIsMaximal(g: Grid, p: Player, i: int, j: int, d: Dir, forward: bool, n: nat)
    requires Square(g) && InRange(g, i, j)
    requires forall t :: 1 <= t <= n ==> Owns(g, p, Along(i, j, d, Step(t, forward)))
    ensures Probe(g, p, i, j, d, forward, 1).0 >= n
  {
    ProbeSpec(g, p, i, j, d, forward, 1);

  }

  /** Row sums are sums: a row with no stone of p adds nothing. */
  lemma {:induction false} RowScoreZero(g: Grid, k: int, p: Player, i: int, j: nat)
    requires Square(g) && 0 <= i < |g| && j <= |g|
    requires forall c :: 0 <= c < j ==> g[i][c] != Stone(p)
    ensures RowScore(g, k, p, i, j) == 0
  {
    if j > 0 {
      RowScoreZero(g, k, p, i, j - 1);
    }
  }

  lemma {:induction false} RowsScoreZero(g: Grid, k: int, p: Player, i: nat)
    requires Square(g) && i <= |g|
    requires forall r, c :: 0 <= r < i && 0 <= c < |g| ==> g[r][c] != Stone(p)
    ensures RowsScore(g, k, p, i) == 0
  {
    if i > 0 {
      RowsScoreZero(g, k, p, i - 1);
      RowScoreZero(g, k, p, i - 1, |g|);
    }
  }

  /** A player with no stone on the board scores 0. */
  lemma NoStonesScoreZero(g: Grid, k: int, p: Player)
    requires Square(g)
    requires forall r, c :: InRange(g, r, c) ==> g[r][c] != Stone(p)
    ensures Score(g, k, p) == 0
  {
    RowsScoreZero(g, k, p, |g|);
  }

  /** The empty board is worth 0 to both sides. */
  lemma EmptyBoardEvaluatesZero(n: nat, k: int, player: Player, opponent: Player)
    ensures Evaluation(EmptyGrid(n), k, player, opponent) == 0
  {
    NoStonesScoreZero(EmptyGrid(n), k, player);
    NoStonesScoreZero(EmptyGrid(n), k, opponent);
  }

  /** The first cell of a line of K has a run of at least K along the line. */
  lemma LineRun(g: Grid, k: int, p: Player, r: int, c: int, d: Dir)
    requires Square(g) && InRange(g, r, c) && LineAt(g, k, p, r, c, d)
    ensures RunLength(g, p, r, c, d) >= k
  {
    assert forall t :: 1 <= t <= k - 1 ==> Owns(g, p, Along(r, c, d, Step(t, true)));
    ProbeIsMaximal(g, p, r, c, d, true, k - 1);
  }

  /** A sum of nonnegative cell scores is at least each of its cells' scores. */
  lemma {:induction false} RowScoreCovers(g: Grid, k: int, p: Player, i: int, j: nat, c: int)
    requires Square(g) && 0 <= i < |g| && 0 <= c < j <= |g|
    ensures RowScore(g, k, p, i, j) >= CellScore(g, k, p, i, c)
  {
    assert RowScore(g, k, p, i, j) == RowScore(g, k, p, i, j - 1) + CellScore(g, k, p, i, j - 1);
    if c < j - 1 {
      RowScoreCovers(g, k, p, i, j - 1, c);
    }
  }

  lemma {:induction false} RowsScoreCovers(g: Grid, k: int, p: Player, i: nat, r: int, c: int)
    requires Square(g) && 0 <= r < i <= |g| && 0 <= c < |g|
    ensures RowsScore(g, k, p, i) >= CellScore(g, k, p, r, c)
  {
    assert RowsScore(g, k, p, i) == RowsScore(g, k, p, i - 1) + RowScore(g, k, p, i - 1, |g|);
    if r < i - 1 {
      RowsScoreCovers(g, k, p, i - 1, r, c);
    } else {
      RowScoreCovers(g, k, p, r, |g|, c);
    }
  }

  lemma {:induction false} DirsScoreCovers(g: Grid, k: int, p: Player, i: int, j: int, t: nat, e: int)
    requires Square(g) && InRange(g, i, j) && 0 <= e < t <= 4
    ensures DirsScore(g, k, p, i, j, t) >= DirScore(g, k, p, i, j, Directions[e])
  {
    assert DirsScore(g, k, p, i, j, t) == DirsScore(g, k, p, i, j, t - 1) + DirScore(g, k, p, i, j, Directions[t - 1]);
    if e < t - 1 {
      DirsScoreCovers(g, k, p, i, j, t - 1, e);
    }
  }

  /** A player who has K in a row scores at least the top tier. */
  lemma LineScoresTopTier(g: Grid, k: int, p: Player)
    requires Square(g) && HasLine(g, k, p)
    ensures Score(g, k, p) >= 100000
  {
    var r, c, e :| InRange(g, r, c) && 0 <= e < 4 && LineAt(g, k, p, r, c, Directions[e]);
    assert Along(r, c, Directions[e], 0) == (r, c);
    LineRun(g, k, p, r, c, Directions[e]);
    DirsScoreCovers(g, k, p, r, c, |Directions|, e);
    RowsScoreCovers(g, k, p, |g|, r, c);
  }
}
