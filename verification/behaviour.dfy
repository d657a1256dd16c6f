/** How one generation, as written, behaves on small configurations, and where it
    departs from the textbook rule (survival on 2 or 3 live neighbours, birth on
    exactly 3). */
module Behaviour {
  import opened Grids
  import opened Universes
  import opened Neighbourhoods
  import opened Generations

  /** A cell that is the only live cell of a torus of at least 2 x 2 has no live
      neighbour (on a narrower torus the wrapped window reads the cell itself). */
  lemma LoneCellCount(u: Universe, x: int, y: int)
    requires Torus(u) && u.width >= 2 && u.height >= 2 && InGrid(u, x, y)
    requires forall a, b | InGrid(u, a, b) && (a, b) != (x, y) :: u.grid[a][b] == 0
    ensures Neighbours(u, x, y) == 0
  {
  }

  /** On a torus of at least 2 x 2, a cell that is the only live cell dies, and
      the universe with it. */
  lemma IsolatedCellDies(u: Universe, x: int, y: int)
    requires Torus(u) && u.width >= 2 && u.height >= 2 && InGrid(u, x, y)
    requires forall a, b | InGrid(u, a, b) && (a, b) != (x, y) :: u.grid[a][b] == 0
    ensures AllZero(NextGrid(u))
  {
    LoneCellCount(u, x, y);
    forall a, b | InGrid(u, a, b)
      ensures NextGrid(u)[a][b] == 0
    {
      NextGridRule(u, a, b);
    }
  }

  /** A 2 x 2 block in a 4 x 4 torus. */
  function BlockUniverse(): Universe
  {
    Universe(4, 4, 1, true, [[0, 0, 0, 0], [0, 1, 1, 0], [0, 1, 1, 0], [0, 0, 0, 0]])
  }

  /** The block cell (1, 1) sees the other three block cells. */
  lemma BlockCellCount()
    ensures Neighbours(BlockUniverse(), 1, 1) == 3
  {
    var u := BlockUniverse();
    assert Around(u, 1, 1, -1, -1) == 0 && Around(u, 1, 1, -1, 0) == 0 && Around(u, 1, 1, -1, 1) == 0;
    assert Around(u, 1, 1, 0, -1) == 0 && Around(u, 1, 1, 0, 1) == 1;
    assert Around(u, 1, 1, 1, -1) == 0 && Around(u, 1, 1, 1, 0) == 1 && Around(u, 1, 1, 1, 1) == 1;
  }

  /** The dead corner (0, 0) sees only the block cell (1, 1). */
  lemma BlockCornerCount()
    ensures Neighbours(BlockUniverse(), 0, 0) == 1
  {
    var u := BlockUniverse();
    assert Around(u, 0, 0, -1, -1) == 0 && Around(u, 0, 0, -1, 0) == 0 && Around(u, 0, 0, -1, 1) == 0;
    assert Around(u, 0, 0, 0, -1) == 0 && Around(u, 0, 0, 0, 1) == 0;
    assert Around(u, 0, 0, 1, -1) == 0 && Around(u, 0, 0, 1, 0) == 0 && Around(u, 0, 0, 1, 1) == 1;
  }

  /** The block is not a still life as written (universe.py line 339): its corner neighbour
      (0, 0) has a single live neighbour, yet it is born, because it lies in the
      window of the block cell (1, 1), which has exactly 3. */
  lemma BlockGrows(u: Universe)
    requires u == BlockUniverse()
    ensures u.grid[0][0] == 0 && NextGrid(u)[0][0] == 1
    ensures u.grid[1][1] == 1 && NextGrid(u)[1][1] == 1
  {
    BlockCellCount();
    CornerBorn(u);
    NextGridRule(u, 0, 0);
    NextGridRule(u, 1, 1);
  }

  /** The corner (0, 0) lies in the window of the block cell (1, 1). */
  lemma CornerBorn(u: Universe)
    requires u == BlockUniverse()
    ensures Torus(u) && BornAt(u, 0, 0)
  {
    BlockCellCount();
    assert WindowPos(u, 1, 1, 0, 0) == (0, 0);
    assert InWindowOf(u, 1, 1, 0, 0);
  }

  /** A blinker (three cells in a row) in a 5 x 5 torus. */
  function BlinkerUniverse(): Universe
  {
    Universe(5, 5, 1, true, [[0, 0, 0, 0, 0], [0, 0, 0, 0, 0], [0, 1, 1, 1, 0], [0, 0, 0, 0, 0], [0, 0, 0, 0, 0]])
  }

  /** The live-neighbour counts of the three blinker cells: 1, 2 and 1. */
  lemma BlinkerCounts()
    ensures Neighbours(BlinkerUniverse(), 2, 1) == 1
    ensures Neighbours(BlinkerUniverse(), 2, 2) == 2
    ensures Neighbours(BlinkerUniverse(), 2, 3) == 1
  {
    BlinkerEnd(1);
    BlinkerMiddle();
    BlinkerEnd(3);
  }

  /** An end cell of the blinker sees only the middle cell. */
  lemma BlinkerEnd(b: int)
    requires b == 1 || b == 3
    ensures Neighbours(BlinkerUniverse(), 2, b) == 1
  {
    var u := BlinkerUniverse();
    if b == 1 {
      assert Around(u, 2, 1, -1, -1) == 0 && Around(u, 2, 1, -1, 0) == 0 && Around(u, 2, 1, -1, 1) == 0;
      assert Around(u, 2, 1, 0, -1) == 0 && Around(u, 2, 1, 0, 1) == 1;
      assert Around(u, 2, 1, 1, -1) == 0 && Around(u, 2, 1, 1, 0) == 0 && Around(u, 2, 1, 1, 1) == 0;
    } else {
      assert Around(u, 2, 3, -1, -1) == 0 && Around(u, 2, 3, -1, 0) == 0 && Around(u, 2, 3, -1, 1) == 0;
      assert Around(u, 2, 3, 0, -1) == 1 && Around(u, 2, 3, 0, 1) == 0;
      assert Around(u, 2, 3, 1, -1) == 0 && Around(u, 2, 3, 1, 0) == 0 && Around(u, 2, 3, 1, 1) == 0;
    }
  }

  /** The middle cell of the blinker sees both end cells. */
  lemma BlinkerMiddle()
    ensures Neighbours(BlinkerUniverse(), 2, 2) == 2
  {
    var u := BlinkerUniverse();
    assert Around(u, 2, 2, -1, -1) == 0 && Around(u, 2, 2, -1, 0) == 0 && Around(u, 2, 2, -1, 1) == 0;
    assert Around(u, 2, 2, 0, -1) == 1 && Around(u, 2, 2, 0, 1) == 1;
    assert Around(u, 2, 2, 1, -1) == 0 && Around(u, 2, 2, 1, 0) == 0 && Around(u, 2, 2, 1, 1) == 0;
  }

  /** No cell of the blinker has exactly 3 live neighbours. */
  lemma BlinkerNoThree(a: int, b: int)
    requires InGrid(BlinkerUniverse(), a, b) && Live(BlinkerUniverse(), a, b)
    ensures Neighbours(BlinkerUniverse(), a, b) != 3
  {
    assert a == 2 && 1 <= b <= 3;
    if b == 2 {
      BlinkerMiddle();
    } else {
      BlinkerEnd(b);
    }
  }

  /** As written, only a count of exactly 3 keeps or makes anything alive: when
      no live cell has exactly 3 live neighbours, the whole universe dies in one
      generation. */
  lemma NoThreeNoLife(u: Universe)
    requires Torus(u)
    requires forall lx, ly | InGrid(u, lx, ly) && Live(u, lx, ly) :: Neighbours(u, lx, ly) != 3
    ensures AllZero(NextGrid(u))
  {
    forall a, b | InGrid(u, a, b)
      ensures NextGrid(u)[a][b] == 0
    {
      NextGridRule(u, a, b);
    }
  }

  /** The blinker dies in one generation as written (universe.py line 356): its middle cell has
      2 live neighbours (`BlinkerCounts`), which the textbook rule lets survive,
      and no cell has 3, so nothing is born. */
  lemma BlinkerDies()
    ensures AllZero(NextGrid(BlinkerUniverse()))
  {
    var u := BlinkerUniverse();
    forall lx, ly | InGrid(u, lx, ly) && Live(u, lx, ly)
      ensures Neighbours(u, lx, ly) != 3
    {
      BlinkerNoThree(lx, ly);
    }
    NoThreeNoLife(u);
  }
}
