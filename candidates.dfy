/**
 * The moves the AI's search considers at a position: the empty cells within
 * two rows and two columns (Chebyshev distance 2) of some stone, or, when
 * there is no such cell, every empty cell.
 */
module Candidates {
  import opened Grid

  /** q lies within two rows and two columns of the stone at (a, b). */
  ghost predicate NearStone(g: Grid, q: Pos, a: int, b: int)
    requires Square(g)
  {
    InRange(g, a, b) && g[a][b] != Empty && -2 <= q.0 - a <= 2 && -2 <= q.1 - b <= 2
  }

  /** The empty cells near some stone. */
  ghost function NearCells(g: Grid): (s: set<Pos>)
    requires Square(g)
    ensures forall q :: q in s <==> Legal(g, q.0, q.1) && exists a, b :: NearStone(g, q, a, b)
  {
    set r, c | 0 <= r < |g| && 0 <= c < |g| && g[r][c] == Empty && (exists a, b :: NearStone(g, (r, c), a, b)) :: (r, c)
  }

  /**
   * The moves the search tries: the cells near a stone, else every empty
   * cell. Each is a legal move, and no cell near a stone is left out.
   */
  ghost function CandidateSet(g: Grid): (s: set<Pos>)
    requires Square(g)
    ensures forall q :: q in s ==> Legal(g, q.0, q.1)
    ensures NearCells(g) <= s
  {
    if NearCells(g) == {} then EmptyCells(g) else NearCells(g)
  }

  /** There is a candidate exactly when the board is not full. */
  lemma CandidatesNonEmpty(g: Grid)
    requires Square(g)
    ensures CandidateSet(g) != {} <==> !Full(g)
  {
    if NearCells(g) != {} {
      var q :| q in NearCells(g);
      assert Legal(g, q.0, q.1);
    } else if !Full(g) {
      var r, c :| 0 <= r < |g| && 0 <= c < |g| && g[r][c] == Empty;
      assert (r, c) in EmptyCells(g);
    }
  }

  /** On a board without stones every empty cell is a candidate. */
  lemma NoStonesAllCandidates(g: Grid)
    requires Square(g)
    requires forall r, c :: InRange(g, r, c) ==> g[r][c] == Empty
    ensures CandidateSet(g) == EmptyCells(g)
  {
    assert forall q, a, b :: !NearStone(g, q, a, b);
    assert NearCells(g) == {};
  }

  function Sign(x: int): int
  {
    if x > 0 then 1 else if x < 0 then -1 else 0
  }

  function Abs(x: int): nat
  {
    if x >= 0 then x else -x
  }

  /**
   * Walking one king step at a time from a stone towards an empty cell, the
   * first empty cell met is next to the stone before it.
   */
  lemma {:induction false} WalkToEmpty(g: Grid, a: int, b: int, r: int, c: int)
    requires Square(g) && InRange(g, a, b) && InRange(g, r, c)
    requires g[a][b] != Empty && g[r][c] == Empty
    ensures NearCells(g) != {}
    decreases Abs(r - a) + Abs(c - b)
  {
    var a', b' := a + Sign(r - a), b + Sign(c - b);
    if g[a'][b'] == Empty {
      assert NearStone(g, (a', b'), a, b);
      assert (a', b') in NearCells(g);
    } else {
      WalkToEmpty(g, a', b', r, c);
    }
  }

  /**
   * The search falls back to every empty cell only on a board that has no
   * stone or no empty cell.
   */
  lemma NoNearCellsIff(g: Grid)
    requires Square(g)
    ensures NearCells(g) == {} <==> Full(g) || forall r, c :: InRange(g, r, c) ==> g[r][c] == Empty
  {
    if !Full(g) && exists a, b :: InRange(g, a, b) && g[a][b] != Empty {
      var a, b :| InRange(g, a, b) && g[a][b] != Empty;
      var r, c :| 0 <= r < |g| && 0 <= c < |g| && g[r][c] == Empty;
      WalkToEmpty(g, a, b, r, c);
    } else if !Full(g) {
      assert forall q, a, b :: !NearStone(g, q, a, b);
    }
  }

  /** No element is listed twice. */
  predicate Distinct(s: seq<Pos>)
  {
    forall a, b :: 0 <= a < b < |s| ==> s[a] != s[b]
  }

  /** q is near a stone that comes before (i, j) in row-major order. */
  ghost predicate NearBefore(g: Grid, q: Pos, i: int, j: int)
    requires Square(g)
  {
    exists a, b :: NearStone(g, q, a, b) && (a < i || (a == i && b < j))
  }

  /** Passing the cell (i, j) adds the cells near it, if it holds a stone. */
  lemma NearBeforeNextCell(g: Grid, q: Pos, i: int, j: int)
    requires Square(g) && InRange(g, i, j)
    ensures NearBefore(g, q, i, j + 1) <==> NearBefore(g, q, i, j) || NearStone(g, q, i, j)
  {
    if NearBefore(g, q, i, j + 1) {
      var a, b :| NearStone(g, q, a, b) && (a < i || (a == i && b < j + 1));
      if !(a < i || (a == i && b < j)) {
        assert (a, b) == (i, j);
      }
    }
  }

  /** The end of row i is the start of row i + 1. */
  lemma NearBeforeNextRow(g: Grid, q: Pos, i: int)
    requires Square(g)
    ensures NearBefore(g, q, i, |g|) <==> NearBefore(g, q, i + 1, 0)
  {
    if NearBefore(g, q, i + 1, 0) {
      var a, b :| NearStone(g, q, a, b) && (a < i + 1 || (a == i + 1 && b < 0));
      assert a < i || (a == i && b < |g|);
    }
  }

  /** Before the end of the board means anywhere. */
  lemma NearBeforeEnd(g: Grid, q: Pos)
    requires Square(g)
    ensures NearBefore(g, q, |g|, 0) <==> exists a, b :: NearStone(g, q, a, b)
  {
    if exists a, b :: NearStone(g, q, a, b) {
      var a, b :| NearStone(g, q, a, b);
      assert a < |g|;
    }
  }
}
