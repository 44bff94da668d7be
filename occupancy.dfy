/**
 * Counting arguments about the board: how many cells a body can cover,
 * when a free cell is left for the apple, and what winning means.
 */
module Occupancy {
  import opened Coordinates
  import opened Simulation

  const CELLS: int := GRID_SIZE * GRID_SIZE

  /** Row-major index of a cell; a bijection from the grid onto [0, CELLS). */
  function Index(c: Coords): int {
    c.x * GRID_SIZE + c.y
  }

  function CellAt(i: int): Coords {
    Coords(i / GRID_SIZE, i % GRID_SIZE)
  }

  lemma IndexInRange(c: Coords)
    requires InGrid(c)
    ensures 0 <= Index(c) < CELLS && CellAt(Index(c)) == c
  {
    assert c.x * GRID_SIZE + c.y == GRID_SIZE * c.x + c.y;
  }

  lemma CellAtInGrid(i: int)
    requires 0 <= i < CELLS
    ensures InGrid(CellAt(i)) && Index(CellAt(i)) == i
  {
  }

  /** The indices of the cells a body covers. */
  function Covered(s: seq<Coords>): set<int> {
    if s == [] then {} else {Index(s[0])} + Covered(s[1..])
  }

  /** The integers 0 to n - 1. */
  function Range(n: nat): (r: set<int>)
    ensures |r| == n
    ensures forall i :: i in r <==> 0 <= i < n
  {
    if n == 0 then {} else Range(n - 1) + {n - 1}
  }

  lemma HasMember(b: set<int>)
    requires |b| > 0
    ensures exists x :: x in b
  {
    if forall x :: x !in b {
      assert false;
    }
  }

  lemma {:induction false} SubsetSize(a: set<int>, b: set<int>)
    requires a <= b
    ensures |a| <= |b|
    ensures |a| == |b| ==> a == b
    decreases |b|
  {
    if |b| > 0 {
      HasMember(b);
      var x :| x in b;
      if x in a {
        SubsetSize(a - {x}, b - {x});
        if |a| == |b| {
          assert a == (a - {x}) + {x} && b == (b - {x}) + {x};
        }
      } else {
        SubsetSize(a, b - {x});
      }
    }
  }

  lemma {:induction false} CoveredMembers(s: seq<Coords>, i: int)
    ensures i in Covered(s) <==> exists j :: 0 <= j < |s| && Index(s[j]) == i
  {
    if s != [] {
      CoveredMembers(s[1..], i);
      if i in Covered(s[1..]) {
        var j :| 0 <= j < |s| - 1 && Index(s[1..][j]) == i;
        assert Index(s[j + 1]) == i;
      }
      if exists j :: 0 <= j < |s| && Index(s[j]) == i {
        var j :| 0 <= j < |s| && Index(s[j]) == i;
        if j > 0 {
          assert Index(s[1..][j - 1]) == i;
        }
      }
    }
  }

  /** A body covers at most as many cells as it has segments, all in the grid. */
  lemma {:induction false} CoveredBounds(s: seq<Coords>)
    requires AllInGrid(s)
    ensures |Covered(s)| <= |s| && Covered(s) <= Range(CELLS)
    ensures Distinct(s) ==> |Covered(s)| == |s|
  {
    if s != [] {
      CoveredBounds(s[1..]);
      IndexInRange(s[0]);
      if Distinct(s) {
        assert Distinct(s[1..]);
        CoveredMembers(s[1..], Index(s[0]));
        if Index(s[0]) in Covered(s[1..]) {
          var j :| 0 <= j < |s| - 1 && Index(s[1..][j]) == Index(s[0]);
          IndexInRange(s[j + 1]);
          assert false;
        }
      }
    }
  }

  /** Any body shorter than the board leaves some cell of the grid free. */
  lemma FreeCellExists(s: seq<Coords>)
    requires AllInGrid(s) && |s| < CELLS
    ensures exists c :: InGrid(c) && c !in s
  {
    CoveredBounds(s);
    if Range(CELLS) <= Covered(s) {
      SubsetSize(Range(CELLS), Covered(s));
      assert false;
    }
    HasMember(Range(CELLS) - Covered(s));
    var i :| i in Range(CELLS) - Covered(s);
    CellAtInGrid(i);
    var c := CellAt(i);
    if c in s {
      var j :| 0 <= j < |s| && s[j] == c;
      CoveredMembers(s, i);
      assert false;
    }
  }

  /** A body of distinct cells fits on the board. */
  lemma DistinctFits(s: seq<Coords>)
    requires AllInGrid(s) && Distinct(s)
    ensures |s| <= CELLS
  {
    CoveredBounds(s);
    SubsetSize(Covered(s), Range(CELLS));
  }

  /**
   * Cells distinct and the apple off the body: the state every respawn
   * produces when it held before.
   */
  predicate Clear(w: World) {
    Distinct(w.snake) && w.apple !in w.snake
  }

  /**
   * In every well-formed state, growth leaves at least one cell off the
   * grown body, so the respawn loop has a cell to find. The length bound
   * comes from the win test, which runs before growth.
   */
  lemma GrowthLeavesFreeCell(w: World)
    requires WellFormed(w) && Grows(w)
    ensures |w.snake| + 1 < CELLS
    ensures exists c :: InGrid(c) && c !in [NextHead(w)] + w.snake
  {
    var grown := [NextHead(w)] + w.snake;
    assert AllInGrid(grown);
    FreeCellExists(grown);
  }

  /**
   * In a clear state, winning means the body and the apple together
   * cover every cell of the grid.
   */
  lemma WinFillsBoard(w: World)
    requires WellFormed(w) && Clear(w)
    requires NextHead(w) == w.apple && |w.snake| == WIN_LENGTH
    ensures CanTick(w) && Step(w).0 == Won
    ensures forall c :: InGrid(c) ==> c == w.apple || c in w.snake
  {
    var full := [w.apple] + w.snake;
    forall i, j | 0 <= i < j < |full| ensures full[i] != full[j] {
      if i > 0 {
        assert full[i] == w.snake[i - 1] && full[j] == w.snake[j - 1];
      } else {
        assert full[j] in w.snake;
      }
    }
    assert AllInGrid(full);
    CoveredBounds(full);
    SubsetSize(Covered(full), Range(CELLS));
    forall c | InGrid(c) ensures c == w.apple || c in w.snake {
      IndexInRange(c);
      var i := Index(c);
      assert i in Covered(full);
      CoveredMembers(full, i);
      var j :| 0 <= j < |full| && Index(full[j]) == i;
      IndexInRange(full[j]);
      assert full[j] == c;
      assert c in full;
    }
  }

  /**
   * The respawn loop cannot run forever once the generator produces
   * every cell of the grid among its draws.
   */
  lemma EveryCellDrawnCanTick(w: World)
    requires WellFormed(w)
    requires forall c :: InGrid(c) ==> c in w.rng
    ensures CanTick(w)
  {
    if Grows(w) {
      GrowthLeavesFreeCell(w);
      var c :| InGrid(c) && c !in [NextHead(w)] + w.snake;
      var i :| 0 <= i < |w.rng| && w.rng[i] == c;
      assert HasFreeDraw([NextHead(w)] + w.snake, w.rng);
    }
  }
}
