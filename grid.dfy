/**
 * Values that describe a Caro (connect-K) board: cells, positions, the four
 * line directions, and the pure functions the board's operations are
 * specified by (legality, the row-major list of empty cells, fullness and
 * the first K-in-a-row in the scan order of the board's line detector).
 */
module Grid {

  datatype Option<T> = None | Some(value: T)

  /** The two stone colours, written 'X' and 'O' by the game. */
  datatype Player = X | O

  /** The other colour: the game's turn toggle `'O' if p == 'X' else 'X'`. */
  function Opponent(p: Player): (q: Player)
    ensures q != p
  {
    if p == X then O else X
  }

  /** A cell is empty (the blank character) or holds a stone. */
  datatype Cell = Empty | Stone(owner: Player)

  /** (row, column); both axes 0-indexed, rows first. */
  type Pos = (int, int)

  /** The grid as a list of rows. */
  type Grid = seq<seq<Cell>>

  ghost predicate Square(g: Grid)
  {
    forall i :: 0 <= i < |g| ==> |g[i]| == |g|
  }

  predicate InRange(g: Grid, r: int, c: int)
  {
    0 <= r < |g| && 0 <= c < |g|
  }

  /** A fresh N x N grid of empty cells. */
  function EmptyGrid(n: nat): (g: Grid)
    ensures Square(g) && |g| == n
    ensures forall r, c :: InRange(g, r, c) ==> g[r][c] == Empty
  {
    seq(n, _ => seq(n, _ => Empty))
  }

  /** The grid with cell (r, c) set to v and every other cell as it was. */
  function Place(g: Grid, r: int, c: int, v: Cell): (g': Grid)
    requires Square(g) && InRange(g, r, c)
    ensures Square(g') && |g'| == |g|
    ensures g'[r][c] == v
    ensures forall a, b :: InRange(g, a, b) && (a, b) != (r, c) ==> g'[a][b] == g[a][b]
  {
    g[r := g[r][c := v]]
  }

  /** Placing a stone on an empty cell and emptying it again gives back the grid. */
  lemma PlaceThenClear(g: Grid, r: int, c: int, v: Cell)
    requires Square(g) && InRange(g, r, c) && g[r][c] == Empty
    ensures Place(Place(g, r, c, v), r, c, Empty) == g
  {
    var g' := Place(Place(g, r, c, v), r, c, Empty);
    assert g'[r] == g[r];
  }

  /** Emptying an occupied cell and putting the same stone back gives back the grid. */
  lemma ClearThenPlace(g: Grid, r: int, c: int)
    requires Square(g) && InRange(g, r, c) && g[r][c] != Empty
    ensures Place(Place(g, r, c, Empty), r, c, g[r][c]) == g
  {
    var g' := Place(Place(g, r, c, Empty), r, c, g[r][c]);
    assert g'[r] == g[r];
  }

  /** A move at (r, c) is legal: in range and on an empty cell. */
  predicate Legal(g: Grid, r: int, c: int)
    requires Square(g)
  {
    InRange(g, r, c) && g[r][c] == Empty
  }

  /** No empty cell is left. */
  predicate Full(g: Grid)
    requires Square(g)
  {
    forall r, c | 0 <= r < |g| && 0 <= c < |g| :: g[r][c] != Empty
  }

  /** The set of legal moves. */
  ghost function EmptyCells(g: Grid): set<Pos>
    requires Square(g)
  {
    set r, c | 0 <= r < |g| && 0 <= c < |g| && g[r][c] == Empty :: (r, c)
  }

  /** A stone on an empty cell removes exactly that cell from the legal moves. */
  lemma PlaceShrinksEmptyCells(g: Grid, r: int, c: int, v: Cell)
    requires Square(g) && Legal(g, r, c) && v != Empty
    ensures EmptyCells(Place(g, r, c, v)) == EmptyCells(g) - {(r, c)}
    ensures |EmptyCells(Place(g, r, c, v))| == |EmptyCells(g)| - 1
  {
    var g' := Place(g, r, c, v);
    forall q ensures q in EmptyCells(g') <==> q in EmptyCells(g) - {(r, c)} {
      if q in EmptyCells(g') {
        assert q != (r, c);
      }
    }
    assert EmptyCells(g') == EmptyCells(g) - {(r, c)};
    assert (r, c) in EmptyCells(g);
  }

  // ---------------------------------------------------------------------
  // The row-major list of empty cells
  // ---------------------------------------------------------------------

  /** Strict row-major order on positions. */
  predicate Before(p: Pos, q: Pos)
  {
    p.0 < q.0 || (p.0 == q.0 && p.1 < q.1)
  }

  /** Strictly increasing in row-major order, hence without repetitions. */
  predicate RowMajor(s: seq<Pos>)
  {
    forall a, b :: 0 <= a < b < |s| ==> Before(s[a], s[b])
  }

  /** The empty cells (r, 0) .. (r, j - 1), left to right. */
  function EmptyInRow(g: Grid, r: nat, j: nat): seq<Pos>
    requires Square(g) && r < |g| && j <= |g|
  {
    if j == 0 then []
    else if g[r][j - 1] == Empty then EmptyInRow(g, r, j - 1) + [(r, j - 1)]
    else EmptyInRow(g, r, j - 1)
  }

  /** The empty cells of rows 0 .. i - 1, in row-major order. */
  function EmptyUpToRow(g: Grid, i: nat): seq<Pos>
    requires Square(g) && i <= |g|
  {
    if i == 0 then [] else EmptyUpToRow(g, i - 1) + EmptyInRow(g, i - 1, |g|)
  }

  /** The list of legal moves, in row-major order: every legal move, each once. */
  function ValidMoves(g: Grid): (s: seq<Pos>)
    requires Square(g)
    ensures forall q :: q in s <==> Legal(g, q.0, q.1)
    ensures RowMajor(s)
  {
    AllRowsExact(g);
    EmptyUpToRow(g, |g|)
  }

  /** Concatenating two row-major lists, the first wholly before the second, is row-major. */
  lemma RowMajorConcat(left: seq<Pos>, right: seq<Pos>)
    requires RowMajor(left) && RowMajor(right)
    requires forall p, q :: p in left && q in right ==> Before(p, q)
    ensures RowMajor(left + right)
  {
    var s := left + right;
    forall a, b | 0 <= a < b < |s| ensures Before(s[a], s[b]) {
      if b < |left| {
        assert s[a] == left[a] && s[b] == left[b];
      } else if a >= |left| {
        assert s[a] == right[a - |left|] && s[b] == right[b - |left|];
      } else {
        assert s[a] == left[a] && s[a] in left;
        assert s[b] == right[b - |left|] && s[b] in right;
      }
    }
  }

  /** A cell is listed for row r up to column j exactly when it is an empty cell there. */
  lemma {:induction false} InRowIff(g: Grid, r: nat, j: nat, q: Pos)
    requires Square(g) && r < |g| && j <= |g|
    ensures q in EmptyInRow(g, r, j) <==> q.0 == r && 0 <= q.1 < j && g[r][q.1] == Empty
  {
    if j > 0 {
      InRowIff(g, r, j - 1, q);
    }
  }

  lemma {:induction false} InRowSorted(g: Grid, r: nat, j: nat)
    requires Square(g) && r < |g| && j <= |g|
    ensures RowMajor(EmptyInRow(g, r, j))
  {
    if j > 0 && g[r][j - 1] == Empty {
      var left := EmptyInRow(g, r, j - 1);
      InRowSorted(g, r, j - 1);
      forall a, b | a in left && b in [(r, j - 1)] ensures Before(a, b) {
        InRowIff(g, r, j - 1, a);
      }
      RowMajorConcat(left, [(r, j - 1)]);
    } else if j > 0 {
      InRowSorted(g, r, j - 1);
    }
  }

  /** A cell is listed for rows 0 .. i - 1 exactly when it is a legal move in one of them. */
  lemma {:induction false} UpToRowIff(g: Grid, i: nat, q: Pos)
    requires Square(g) && i <= |g|
    ensures q in EmptyUpToRow(g, i) <==> 0 <= q.0 < i && Legal(g, q.0, q.1)
  {
    if i > 0 {
      UpToRowIff(g, i - 1, q);
      InRowIff(g, i - 1, |g|, q);
      var left, right := EmptyUpToRow(g, i - 1), EmptyInRow(g, i - 1, |g|);
      assert q in left + right <==> q in left || q in right;
    }
  }

  lemma {:induction false} UpToRowSorted(g: Grid, i: nat)
    requires Square(g) && i <= |g|
    ensures RowMajor(EmptyUpToRow(g, i))
  {
    if i > 0 {
      var left, right := EmptyUpToRow(g, i - 1), EmptyInRow(g, i - 1, |g|);
      UpToRowSorted(g, i - 1);
      InRowSorted(g, i - 1, |g|);
      forall a, b | a in left && b in right ensures Before(a, b) {
        UpToRowIff(g, i - 1, a);
        InRowIff(g, i - 1, |g|, b);
      }
      RowMajorConcat(left, right);
      assert EmptyUpToRow(g, i) == left + right;
    }
  }

  /** All rows listed: exactly the legal moves, in row-major order. */
  lemma AllRowsExact(g: Grid)
    requires Square(g)
    ensures forall q :: q in EmptyUpToRow(g, |g|) <==> Legal(g, q.0, q.1)
    ensures RowMajor(EmptyUpToRow(g, |g|))
  {
    forall q ensures q in EmptyUpToRow(g, |g|) <==> Legal(g, q.0, q.1) {
      UpToRowIff(g, |g|, q);
    }
    UpToRowSorted(g, |g|);
  }

  /** get_valid_moves lists exactly the set of legal moves. */
  lemma ValidMovesExact(g: Grid)
    requires Square(g)
    ensures forall q :: q in ValidMoves(g) <==> q in EmptyCells(g)
  {
  }

  /** is_full() holds exactly when get_valid_moves() is empty. */
  lemma FullIffNoValidMoves(g: Grid)
    requires Square(g)
    ensures Full(g) <==> ValidMoves(g) == []
  {
    ValidMovesExact(g);
    if ValidMoves(g) != [] {
      assert ValidMoves(g)[0] in ValidMoves(g);
    }
    if !Full(g) {
      var r, c :| InRange(g, r, c) && g[r][c] == Empty;
      assert (r, c) in ValidMoves(g);
    }
  }

  // ---------------------------------------------------------------------
  // Lines of K stones
  // ---------------------------------------------------------------------

  /** The four scan directions (dx, dy) = (0,1), (1,0), (1,1), (1,-1), dx on rows. */
  datatype Dir = Right | Down | DownRight | DownLeft
  {
    function Dx(): int
    {
      match this
      case Right => 0
      case _ => 1
    }

    function Dy(): int
    {
      match this
      case Right => 1
      case Down => 0
      case DownRight => 1
      case DownLeft => -1
    }
  }

  /** The directions in the order the detector and the evaluator try them. */
  const Directions: seq<Dir> := [Right, Down, DownRight, DownLeft]

  /** The cell k steps from (r, c) along d: (r + dx*k, c + dy*k). */
  function Along(r: int, c: int, d: Dir, k: int): (q: Pos)
    ensures q.0 == r + d.Dx() * k && q.1 == c + d.Dy() * k
  {
    match d
    case Right => (r, c + k)
    case Down => (r + k, c)
    case DownRight => (r + k, c + k)
    case DownLeft => (r + k, c - k)
  }

  /** Position q is on the grid and holds a stone of p. */
  predicate Owns(g: Grid, p: Player, q: Pos)
    requires Square(g)
  {
    InRange(g, q.0, q.1) && g[q.0][q.1] == Stone(p)
  }

  /** K consecutive cells from (r, c) along d are all p's. */
  predicate LineAt(g: Grid, k: int, p: Player, r: int, c: int, d: Dir)
    requires Square(g)
  {
    k >= 1 && forall t :: 0 <= t < k ==> Owns(g, p, Along(r, c, d, t))
  }

  /** Player p has K in a row somewhere on the grid. */
  ghost predicate HasLine(g: Grid, k: int, p: Player)
    requires Square(g)
  {
    exists r, c, e :: InRange(g, r, c) && 0 <= e < 4 && LineAt(g, k, p, r, c, Directions[e])
  }

  /** The K coordinates from (r, c) along d. */
  function LineCells(r: int, c: int, d: Dir, k: nat): (s: seq<Pos>)
    ensures |s| == k
    ensures forall t :: 0 <= t < k ==> s[t] == Along(r, c, d, t)
  {
    seq(k, t => Along(r, c, d, t))
  }

  /** Search position (a, b, e) comes at or after (i, j, t) in the scan order. */
  predicate AtOrAfter(a: int, b: int, e: int, i: int, j: int, t: int)
  {
    a > i || (a == i && (b > j || (b == j && e >= t)))
  }

  /**
   * The line detector's scan from search position (i, j, t): cells in row-major
   * order, and for each of p's cells the directions from index t on; the
   * first line of K found, as its list of coordinates.
   */
  function ScanFrom(g: Grid, k: int, p: Player, i: nat, j: nat, t: nat): Option<seq<Pos>>
    requires Square(g) && i <= |g| && j <= |g| && t <= 4
    decreases |g| - i, |g| - j, 4 - t
  {
    if i == |g| then None
    else if j == |g| then ScanFrom(g, k, p, i + 1, 0, 0)
    else if t == 4 || g[i][j] != Stone(p) then ScanFrom(g, k, p, i, j + 1, 0)
    else if LineAt(g, k, p, i, j, Directions[t]) then Some(LineCells(i, j, Directions[t], k))
    else ScanFrom(g, k, p, i, j, t + 1)
  }

  /** Whatever the scan returns is a line of p. */
  lemma {:induction false} ScanFromIsLine(g: Grid, k: int, p: Player, i: nat, j: nat, t: nat)
    requires Square(g) && i <= |g| && j <= |g| && t <= 4
    ensures ScanFrom(g, k, p, i, j, t).Some? ==> IsLine(g, k, p, ScanFrom(g, k, p, i, j, t).value)
    decreases |g| - i, |g| - j, 4 - t
  {
    if i == |g| {
    } else if j == |g| {
      ScanFromIsLine(g, k, p, i + 1, 0, 0);
      assert ScanFrom(g, k, p, i, j, t) == ScanFrom(g, k, p, i + 1, 0, 0);
    } else if t == 4 || g[i][j] != Stone(p) {
      ScanFromIsLine(g, k, p, i, j + 1, 0);
      assert ScanFrom(g, k, p, i, j, t) == ScanFrom(g, k, p, i, j + 1, 0);
    } else if LineAt(g, k, p, i, j, Directions[t]) {
      assert ScanFrom(g, k, p, i, j, t) == Some(LineCells(i, j, Directions[t], k));
      assert InRange(g, i, j) && 0 <= t < 4;
    } else {
      ScanFromIsLine(g, k, p, i, j, t + 1);
      assert ScanFrom(g, k, p, i, j, t) == ScanFrom(g, k, p, i, j, t + 1);
    }
  }

  /**
   * The whole scan: the winning sequence check_win would record for p. A
   * found line has K cells, and K is at least 1 (FirstLineSpec says which
   * line it is).
   */
  function FirstLine(g: Grid, k: int, p: Player): (r: Option<seq<Pos>>)
    requires Square(g)
    ensures r.Some? ==> k >= 1 && |r.value| == k
  {
    ScanFromIsLine(g, k, p, 0, 0, 0);
    ScanFrom(g, k, p, 0, 0, 0)
  }

  /** No line of p starts at a search position at or after (i, j, t). */
  ghost predicate NoLineFrom(g: Grid, k: int, p: Player, i: int, j: int, t: int)
    requires Square(g)
  {
    forall a, b, e :: InRange(g, a, b) && 0 <= e < 4 && AtOrAfter(a, b, e, i, j, t) ==>
      !LineAt(g, k, p, a, b, Directions[e])
  }

  /** A line of p starts at (a, b, e), and none at a search position in [(i, j, t), (a, b, e)). */
  ghost predicate FirstHitFrom(g: Grid, k: int, p: Player, i: int, j: int, t: int, a: int, b: int, e: int)
    requires Square(g)
  {
    && InRange(g, a, b) && 0 <= e < 4 && AtOrAfter(a, b, e, i, j, t)
    && LineAt(g, k, p, a, b, Directions[e])
    && forall a', b', e' ::
         InRange(g, a', b') && 0 <= e' < 4 && AtOrAfter(a', b', e', i, j, t) && !AtOrAfter(a', b', e', a, b, e)
         ==> !LineAt(g, k, p, a', b', Directions[e'])
  }

  /** At the end of a row the scan moves on to the next row, and nothing lies in between. */
  lemma RowEndStep(g: Grid, k: int, p: Player, i: nat, t: nat)
    requires Square(g) && i < |g|
    ensures NoLineFrom(g, k, p, i, |g|, t) <==> NoLineFrom(g, k, p, i + 1, 0, 0)
    ensures forall a, b, e :: FirstHitFrom(g, k, p, i + 1, 0, 0, a, b, e) ==> FirstHitFrom(g, k, p, i, |g|, t, a, b, e)
  {
  }

  /** A cell that is not p's (or whose directions are used up) starts no further line. */
  lemma CellEndStep(g: Grid, k: int, p: Player, i: nat, j: nat, t: nat)
    requires Square(g) && i < |g| && j < |g| && t <= 4
    requires t == 4 || g[i][j] != Stone(p)
    ensures NoLineFrom(g, k, p, i, j, t) <==> NoLineFrom(g, k, p, i, j + 1, 0)
    ensures forall a, b, e :: FirstHitFrom(g, k, p, i, j + 1, 0, a, b, e) ==> FirstHitFrom(g, k, p, i, j, t, a, b, e)
  {
    NoLineFromCell(g, k, p, i, j, t);
    if NoLineFrom(g, k, p, i, j + 1, 0) {
      forall a, b, e | InRange(g, a, b) && 0 <= e < 4 && AtOrAfter(a, b, e, i, j, t)
        ensures !LineAt(g, k, p, a, b, Directions[e])
      {
        if (a, b) != (i, j) {
          assert AtOrAfter(a, b, e, i, j + 1, 0);
        }
      }
    }
    forall a, b, e | FirstHitFrom(g, k, p, i, j + 1, 0, a, b, e)
      ensures FirstHitFrom(g, k, p, i, j, t, a, b, e)
    {
      forall a', b', e' |
        InRange(g, a', b') && 0 <= e' < 4 && AtOrAfter(a', b', e', i, j, t) && !AtOrAfter(a', b', e', a, b, e)
        ensures !LineAt(g, k, p, a', b', Directions[e'])
      {
        if (a', b') != (i, j) {
          assert AtOrAfter(a', b', e', i, j + 1, 0);
        }
      }
    }
  }

  lemma NoLineFromCell(g: Grid, k: int, p: Player, i: nat, j: nat, t: nat)
    requires Square(g) && i < |g| && j < |g| && t <= 4
    requires t == 4 || g[i][j] != Stone(p)
    ensures forall e :: t <= e < 4 ==> !LineAt(g, k, p, i, j, Directions[e])
  {
    forall e | t <= e < 4 ensures !LineAt(g, k, p, i, j, Directions[e]) {
      if k >= 1 {
        assert Along(i, j, Directions[e], 0) == (i, j);
      }
    }
  }

  /** A direction that gives no line passes the scan on to the next direction. */
  lemma DirStep(g: Grid, k: int, p: Player, i: nat, j: nat, t: nat)
    requires Square(g) && i < |g| && j < |g| && t < 4
    requires !LineAt(g, k, p, i, j, Directions[t])
    ensures NoLineFrom(g, k, p, i, j, t) <==> NoLineFrom(g, k, p, i, j, t + 1)
    ensures forall a, b, e :: FirstHitFrom(g, k, p, i, j, t + 1, a, b, e) ==> FirstHitFrom(g, k, p, i, j, t, a, b, e)
  {
  }

  lemma {:induction false} ScanFromNone(g: Grid, k: int, p: Player, i: nat, j: nat, t: nat)
    requires Square(g) && i <= |g| && j <= |g| && t <= 4
    ensures ScanFrom(g, k, p, i, j, t).None? <==> NoLineFrom(g, k, p, i, j, t)
    decreases |g| - i, |g| - j, 4 - t
  {
    if i == |g| {
    } else if j == |g| {
      ScanFromNone(g, k, p, i + 1, 0, 0);
      RowEndStep(g, k, p, i, t);
    } else if t == 4 || g[i][j] != Stone(p) {
      ScanFromNone(g, k, p, i, j + 1, 0);
      CellEndStep(g, k, p, i, j, t);
    } else if LineAt(g, k, p, i, j, Directions[t]) {
      assert AtOrAfter(i, j, t, i, j, t);
    } else {
      ScanFromNone(g, k, p, i, j, t + 1);
      DirStep(g, k, p, i, j, t);
    }
  }

  lemma {:induction false} ScanFromSome(g: Grid, k: int, p: Player, i: nat, j: nat, t: nat)
    requires Square(g) && i <= |g| && j <= |g| && t <= 4
    requires ScanFrom(g, k, p, i, j, t).Some?
    ensures exists a, b, e ::
              FirstHitFrom(g, k, p, i, j, t, a, b, e) && ScanFrom(g, k, p, i, j, t).value == LineCells(a, b, Directions[e], k)
    decreases |g| - i, |g| - j, 4 - t
  {
    var s := ScanFrom(g, k, p, i, j, t).value;
    if j == |g| {
      ScanFromSome(g, k, p, i + 1, 0, 0);
      RowEndStep(g, k, p, i, t);
      var a, b, e :| FirstHitFrom(g, k, p, i + 1, 0, 0, a, b, e) && s == LineCells(a, b, Directions[e], k);
      assert FirstHitFrom(g, k, p, i, j, t, a, b, e);
    } else if t == 4 || g[i][j] != Stone(p) {
      ScanFromSome(g, k, p, i, j + 1, 0);
      CellEndStep(g, k, p, i, j, t);
      var a, b, e :| FirstHitFrom(g, k, p, i, j + 1, 0, a, b, e) && s == LineCells(a, b, Directions[e], k);
      assert FirstHitFrom(g, k, p, i, j, t, a, b, e);
    } else if LineAt(g, k, p, i, j, Directions[t]) {
      assert FirstHitFrom(g, k, p, i, j, t, i, j, t);
    } else {
      ScanFromSome(g, k, p, i, j, t + 1);
      DirStep(g, k, p, i, j, t);
      var a, b, e :| FirstHitFrom(g, k, p, i, j, t + 1, a, b, e) && s == LineCells(a, b, Directions[e], k);
      assert FirstHitFrom(g, k, p, i, j, t, a, b, e);
    }
  }

  /**
   * check_win's verdict and recorded sequence: it reports a line exactly when
   * p has one, and the recorded sequence is the first line in (row, column,
   * direction) order, listed as K cells all owned by p with constant step
   * (dx, dy) from the starting cell.
   */
  lemma FirstLineSpec(g: Grid, k: int, p: Player)
    requires Square(g)
    ensures FirstLine(g, k, p).Some? <==> HasLine(g, k, p)
    ensures FirstLine(g, k, p).Some? ==>
      exists a, b, e :: FirstHitFrom(g, k, p, 0, 0, 0, a, b, e)
        && FirstLine(g, k, p).value == LineCells(a, b, Directions[e], k)
  {
    ScanFromNone(g, k, p, 0, 0, 0);
    if FirstLine(g, k, p).Some? {
      ScanFromSome(g, k, p, 0, 0, 0);
    }
    if HasLine(g, k, p) {
      var r, c, e :| InRange(g, r, c) && 0 <= e < 4 && LineAt(g, k, p, r, c, Directions[e]);
      assert AtOrAfter(r, c, e, 0, 0, 0);
    }
  }

  /** The recorded sequence is a line of p, listed from its first cell along its direction. */
  lemma FirstLineIsLine(g: Grid, k: int, p: Player)
    requires Square(g)
    ensures FirstLine(g, k, p).Some? ==> IsLine(g, k, p, FirstLine(g, k, p).value)
  {
    ScanFromIsLine(g, k, p, 0, 0, 0);
  }

  /** Each cell of s is one step (dx, dy) of d from the previous one. */
  predicate Stepped(s: seq<Pos>, d: Dir)
  {
    forall t :: 0 <= t < |s| - 1 ==> s[t + 1] == (s[t].0 + d.Dx(), s[t].1 + d.Dy())
  }

  lemma LineCellsStepped(a: int, b: int, d: Dir, k: nat)
    ensures Stepped(LineCells(a, b, d, k), d)
  {
    var s := LineCells(a, b, d, k);
    forall t | 0 <= t < k - 1 ensures s[t + 1] == (s[t].0 + d.Dx(), s[t].1 + d.Dy()) {
      assert s[t] == Along(a, b, d, t) && s[t + 1] == Along(a, b, d, t + 1);
    }
  }

  /** The recorded sequence has K cells, all p's, each one step (dx, dy) from the previous. */
  lemma FirstLineShape(g: Grid, k: int, p: Player)
    requires Square(g) && FirstLine(g, k, p).Some?
    ensures k >= 1 && |FirstLine(g, k, p).value| == k
    ensures forall t :: 0 <= t < k ==> Owns(g, p, FirstLine(g, k, p).value[t])
    ensures exists d: Dir :: Stepped(FirstLine(g, k, p).value, d)
  {
    FirstLineSpec(g, k, p);
    var a, b, e :| FirstHitFrom(g, k, p, 0, 0, 0, a, b, e)
      && FirstLine(g, k, p).value == LineCells(a, b, Directions[e], k);
    LineCellsStepped(a, b, Directions[e], k);
  }

  /** s lists the K cells of a line of p on the grid, from its first cell along its direction. */
  ghost predicate IsLine(g: Grid, k: int, p: Player, s: seq<Pos>)
    requires Square(g)
  {
    exists r, c, e :: InRange(g, r, c) && 0 <= e < 4 && LineAt(g, k, p, r, c, Directions[e])
                      && s == LineCells(r, c, Directions[e], k)
  }

  /** The K cells of a line stay p's when a stone is added on an empty cell. */
  lemma LineAtSurvivesPlace(g: Grid, k: int, p: Player, a: int, b: int, d: Dir, r: int, c: int, v: Cell)
    requires Square(g) && Legal(g, r, c) && LineAt(g, k, p, a, b, d)
    ensures LineAt(Place(g, r, c, v), k, p, a, b, d)
  {
    var g' := Place(g, r, c, v);
    forall t | 0 <= t < k ensures Owns(g', p, Along(a, b, d, t)) {
      assert Owns(g, p, Along(a, b, d, t));
    }
  }

  /** A stone added to an empty cell never breaks an existing line. */
  lemma LineSurvivesPlace(g: Grid, k: int, p: Player, r: int, c: int, v: Cell)
    requires Square(g) && Legal(g, r, c) && HasLine(g, k, p)
    ensures HasLine(Place(g, r, c, v), k, p)
  {
    var a, b, e :| InRange(g, a, b) && 0 <= e < 4 && LineAt(g, k, p, a, b, Directions[e]);
    LineAtSurvivesPlace(g, k, p, a, b, Directions[e], r, c, v);
    assert InRange(Place(g, r, c, v), a, b);
  }

  /** A recorded line stays a line, with the same cells, when a stone is added on an empty cell. */
  lemma IsLineSurvivesPlace(g: Grid, k: int, p: Player, s: seq<Pos>, r: int, c: int, v: Cell)
    requires Square(g) && Legal(g, r, c) && IsLine(g, k, p, s)
    ensures IsLine(Place(g, r, c, v), k, p, s)
  {
    var a, b, e :| InRange(g, a, b) && 0 <= e < 4 && LineAt(g, k, p, a, b, Directions[e])
                   && s == LineCells(a, b, Directions[e], k);
    LineAtSurvivesPlace(g, k, p, a, b, Directions[e], r, c, v);
    assert InRange(Place(g, r, c, v), a, b);
  }
}
