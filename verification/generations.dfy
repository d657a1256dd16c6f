/** One generation of the universe, and `run` (ConwayUniverse.run), modelled as
    the code is written, under wrap-around. */
module Generations {
  import opened Results
  import opened Grids
  import opened Universes
  import opened Neighbourhoods

  /** The configuration in which `run` is modelled: a well-shaped toroidal universe. */
  predicate Torus(u: Universe) {
    Valid(u) && u.boundary
  }

  /** A cell that the live-cell enumeration reports: any non-zero entry. */
  predicate Live(u: Universe, x: int, y: int)
    requires Valid(u) && InGrid(u, x, y)
  {
    u.grid[x][y] != 0
  }

  /** A coordinate at most one step outside [0, n), wrapped around the torus. */
  function Wrap(c: int, n: int): int
  {
    if c < 0 then c + n else if c >= n then c - n else c
  }

  /** Whether the cell at offset (dx, dy) from (x, y) on the torus holds 1. */
  function Around(u: Universe, x: int, y: int, dx: int, dy: int): nat
    requires Torus(u) && InGrid(u, x, y) && -1 <= dx <= 1 && -1 <= dy <= 1
  {
    One(u.grid[Wrap(x + dx, u.width)][Wrap(y + dy, u.height)])
  }

  /** The number of the eight cells around (x, y) on the torus that hold 1: the
      textbook live-neighbour count, stated without windows. `WindowNeighbours`
      shows that `count_nhood` of the cell's 3 x 3 window computes it. */
  function Neighbours(u: Universe, x: int, y: int): (n: int)
    requires Torus(u) && InGrid(u, x, y)
    ensures 0 <= n <= 8
  {
    Around(u, x, y, -1, -1) + Around(u, x, y, -1, 0) + Around(u, x, y, -1, 1)
    + Around(u, x, y, 0, -1) + Around(u, x, y, 0, 1)
    + Around(u, x, y, 1, -1) + Around(u, x, y, 1, 0) + Around(u, x, y, 1, 1)
  }

  /** The count `run` takes for a cell (universe.py lines 320-322): `count_nhood` of the
      cell's 3 x 3 Moore window, which is always defined. */
  function NhoodCount(u: Universe, x: int, y: int): (n: int)
    requires Torus(u) && InGrid(u, x, y)
    ensures 0 <= n <= 8
  {
    CountNhood3(Window(u, x, y, 1));
    CountNhood(Window(u, x, y, 1)).value
  }

  /** `count_nhood` of the 3 x 3 Moore window of a cell is defined and equals the
      cell's live-neighbour count on the torus. */
  lemma WindowNeighbours(u: Universe, x: int, y: int)
    requires Torus(u) && InGrid(u, x, y)
    ensures CountNhood(Window(u, x, y, 1)) == Some(Neighbours(u, x, y))
  {
    var m := Window(u, x, y, 1);
    WindowEntry(u, x, y, 0, 0);
    WindowEntry(u, x, y, 0, 1);
    WindowEntry(u, x, y, 0, 2);
    WindowEntry(u, x, y, 1, 0);
    WindowEntry(u, x, y, 1, 2);
    WindowEntry(u, x, y, 2, 0);
    WindowEntry(u, x, y, 2, 1);
    WindowEntry(u, x, y, 2, 2);
    var n := One(m[0][0]) + One(m[0][1]) + One(m[0][2]) + One(m[1][0]) + One(m[1][2])
           + One(m[2][0]) + One(m[2][1]) + One(m[2][2]);
    assert n == Neighbours(u, x, y);
    CountNhood3(m);
  }

  lemma WindowEntry(u: Universe, x: int, y: int, i: int, j: int)
    requires Torus(u) && InGrid(u, x, y) && 0 <= i < 3 && 0 <= j < 3
    ensures One(Window(u, x, y, 1)[i][j]) == Around(u, x, y, i - 1, j - 1)
  {
    WindowAt(u, x, y, i, j);
  }

  /** The grid position that entry (i, j) of the 3 x 3 window around (x, y) reads. */
  function WindowPos(u: Universe, x: int, y: int, i: int, j: int): (int, int)
  {
    (Translate(u.boundary, x - 1 + i, u.width), Translate(u.boundary, y - 1 + j, u.height))
  }

  /** (cx, cy) is read by one of the first `q` window entries around (x, y), in
      the row-major order of the window. */
  ghost predicate Covered(u: Universe, x: int, y: int, cx: int, cy: int, q: int) {
    exists i, j | 0 <= i < 3 && 0 <= j < 3 && 3 * i + j < q :: WindowPos(u, x, y, i, j) == (cx, cy)
  }

  /** (cx, cy) lies in the 3 x 3 window of (x, y). */
  ghost predicate InWindowOf(u: Universe, x: int, y: int, cx: int, cy: int) {
    Covered(u, x, y, cx, cy, 9)
  }

  /** The count `run` takes for every cell of the grid. */
  ghost function NeighbourCounts(u: Universe): (counts: Matrix)
    requires Torus(u)
    ensures IsMatrix(counts, u.width, u.height)
  {
    seq(u.width, x requires 0 <= x < u.width =>
      seq(u.height, y requires 0 <= y < u.height => NhoodCount(u, x, y)))
  }

  /** The birth condition as written: some live cell whose count in `counts` is
      exactly 3 has (cx, cy) in its window. */
  ghost predicate Born(u: Universe, counts: Matrix, cx: int, cy: int)
    requires Valid(u) && IsMatrix(counts, u.width, u.height)
  {
    exists lx, ly | InGrid(u, lx, ly) && Live(u, lx, ly) :: counts[lx][ly] == 3 && InWindowOf(u, lx, ly, cx, cy)
  }

  /** The next state of a cell, given the counts of all cells: a live cell stays
      alive iff its count is exactly 3; a dead cell comes alive iff it is `Born`. */
  ghost function NextCell(u: Universe, counts: Matrix, x: int, y: int): int
    requires Valid(u) && IsMatrix(counts, u.width, u.height) && InGrid(u, x, y)
  {
    if Live(u, x, y) then (if counts[x][y] == 3 then 1 else 0)
    else if Born(u, counts, x, y) then 1
    else 0
  }

  ghost function NextFrom(u: Universe, counts: Matrix): (g: Matrix)
    requires Valid(u) && IsMatrix(counts, u.width, u.height)
    ensures IsMatrix(g, u.width, u.height)
    ensures Binary(g)
  {
    seq(u.width, x requires 0 <= x < u.width =>
      seq(u.height, y requires 0 <= y < u.height => NextCell(u, counts, x, y)))
  }

  /** The next generation, cell by cell. */
  ghost function NextGrid(u: Universe): (g: Matrix)
    requires Torus(u)
    ensures IsMatrix(g, u.width, u.height)
    ensures Binary(g)
  {
    NextFrom(u, NeighbourCounts(u))
  }

  // ---------------------------------------------------------------------------
  // The state of the new grid part-way through a generation

  /** Every cell of `cells` is a live cell of the grid. */
  ghost predicate Seen(u: Universe, cells: seq<(int, int)>)
    requires Valid(u)
  {
    forall k | 0 <= k < |cells| :: InGrid(u, cells[k].0, cells[k].1) && u.grid[cells[k].0][cells[k].1] != 0
  }

  /** Some live cell of `done` whose count is exactly 3 has (cx, cy) in its window. */
  ghost predicate BornBy(u: Universe, counts: Matrix, done: seq<(int, int)>, cx: int, cy: int)
    requires Valid(u) && IsMatrix(counts, u.width, u.height) && Seen(u, done)
  {
    exists k | 0 <= k < |done| :: counts[done[k].0][done[k].1] == 3 && InWindowOf(u, done[k].0, done[k].1, cx, cy)
  }

  lemma BornByExtend(u: Universe, counts: Matrix, done: seq<(int, int)>, x: int, y: int, cx: int, cy: int)
    requires Valid(u) && IsMatrix(counts, u.width, u.height) && Seen(u, done)
    requires InGrid(u, x, y) && Live(u, x, y)
    ensures Seen(u, done + [(x, y)])
    ensures BornBy(u, counts, done + [(x, y)], cx, cy) <==>
      BornBy(u, counts, done, cx, cy) || (counts[x][y] == 3 && InWindowOf(u, x, y, cx, cy))
  {
    var done' := done + [(x, y)];
    if BornBy(u, counts, done, cx, cy) {
      var k :| 0 <= k < |done| && counts[done[k].0][done[k].1] == 3 && InWindowOf(u, done[k].0, done[k].1, cx, cy);
      assert done'[k] == done[k];
    }
    if counts[x][y] == 3 && InWindowOf(u, x, y, cx, cy) {
      assert done'[|done|] == (x, y);
    }
    if BornBy(u, counts, done', cx, cy) {
      var k :| 0 <= k < |done'| && counts[done'[k].0][done'[k].1] == 3 && InWindowOf(u, done'[k].0, done'[k].1, cx, cy);
      if k < |done| {
        assert done'[k] == done[k];
      }
    }
  }

  /** The new grid's cell once the live cells `done` have been processed. */
  ghost function PartialCell(u: Universe, counts: Matrix, done: seq<(int, int)>, cx: int, cy: int): int
    requires Valid(u) && IsMatrix(counts, u.width, u.height) && Seen(u, done) && InGrid(u, cx, cy)
  {
    if Live(u, cx, cy) then (if (cx, cy) in done && counts[cx][cy] == 3 then 1 else 0)
    else if BornBy(u, counts, done, cx, cy) then 1
    else 0
  }

  ghost predicate Partial(u: Universe, counts: Matrix, next: Matrix, done: seq<(int, int)>)
    requires Valid(u) && IsMatrix(counts, u.width, u.height) && Seen(u, done)
  {
    && IsMatrix(next, u.width, u.height)
    && forall cx, cy | InGrid(u, cx, cy) :: next[cx][cy] == PartialCell(u, counts, done, cx, cy)
  }

  /** The new grid's cell while the live cell (x, y), whose count is `n`, is being
      processed: its provisional "2 or 3" survival value is in place, and the
      dead cells read by its first `q` window entries are born when n is 3. */
  ghost function MidwayCell(u: Universe, counts: Matrix, done: seq<(int, int)>, x: int, y: int, n: int, q: int, cx: int, cy: int): int
    requires Valid(u) && IsMatrix(counts, u.width, u.height) && Seen(u, done) && InGrid(u, cx, cy)
  {
    if (cx, cy) == (x, y) then (if n == 2 || n == 3 then 1 else 0)
    else if !Live(u, cx, cy) && n == 3 && Covered(u, x, y, cx, cy, q) then 1
    else PartialCell(u, counts, done, cx, cy)
  }

  ghost predicate Midway(u: Universe, counts: Matrix, next: Matrix, done: seq<(int, int)>, x: int, y: int, n: int, q: int)
    requires Valid(u) && IsMatrix(counts, u.width, u.height) && Seen(u, done)
  {
    && IsMatrix(next, u.width, u.height)
    && forall cx, cy | InGrid(u, cx, cy) :: next[cx][cy] == MidwayCell(u, counts, done, x, y, n, q, cx, cy)
  }

  /** Under wrap-around, window entry (i, j) is the grid cell at `WindowPos`. */
  lemma WindowAt(u: Universe, x: int, y: int, i: int, j: int)
    requires Torus(u) && InGrid(u, x, y) && 0 <= i < 3 && 0 <= j < 3
    ensures InGrid(u, WindowPos(u, x, y, i, j).0, WindowPos(u, x, y, i, j).1)
    ensures Window(u, x, y, 1)[i][j] == u.grid[WindowPos(u, x, y, i, j).0][WindowPos(u, x, y, i, j).1]
  {
  }

  lemma CoveredStep(u: Universe, x: int, y: int, cx: int, cy: int, i: int, j: int)
    requires 0 <= i < 3 && 0 <= j < 3
    ensures Covered(u, x, y, cx, cy, 3 * i + j + 1) <==>
      Covered(u, x, y, cx, cy, 3 * i + j) || WindowPos(u, x, y, i, j) == (cx, cy)
  {
  }

  /** Processing window entry (i, j) of the live cell (x, y): the cell it reads
      is set alive when it is dead and the count is 3, and nothing else changes. */
  lemma BirthStep(u: Universe, counts: Matrix, before: Matrix, after: Matrix, done: seq<(int, int)>,
                  x: int, y: int, n: int, i: int, j: int)
    requires Torus(u) && IsMatrix(counts, u.width, u.height) && Seen(u, done)
    requires InGrid(u, x, y) && 0 <= i < 3 && 0 <= j < 3
    requires InGrid(u, WindowPos(u, x, y, i, j).0, WindowPos(u, x, y, i, j).1)
    requires Midway(u, counts, before, done, x, y, n, 3 * i + j)
    requires Live(u, x, y)
    requires after == if !Live(u, WindowPos(u, x, y, i, j).0, WindowPos(u, x, y, i, j).1) && n == 3
      then Store(before, WindowPos(u, x, y, i, j).0, WindowPos(u, x, y, i, j).1, 1) else before
    ensures Midway(u, counts, after, done, x, y, n, 3 * i + j + 1)
  {
    forall cx, cy | InGrid(u, cx, cy)
      ensures after[cx][cy] == MidwayCell(u, counts, done, x, y, n, 3 * i + j + 1, cx, cy)
    {
      CoveredStep(u, x, y, cx, cy, i, j);
    }
  }

  /** The birth pass of one live cell (universe.py lines 334-352): every entry of its window
      is visited in row-major order. */
  method Births(u: Universe, next: Matrix, x: int, y: int, nh: Matrix, n: int,
                ghost counts: Matrix, ghost done: seq<(int, int)>)
    returns (next': Matrix)
    requires Torus(u) && IsMatrix(counts, u.width, u.height) && Seen(u, done)
    requires InGrid(u, x, y) && Live(u, x, y)
    requires nh == Window(u, x, y, 1) && CountNhood(nh) == Some(n)
    requires Midway(u, counts, next, done, x, y, n, 0)
    ensures Midway(u, counts, next', done, x, y, n, 9)
  {
    next' := next;
    for xd := 0 to |nh|
      invariant Midway(u, counts, next', done, x, y, n, 3 * xd)
    {
      for yd := 0 to |nh|
        invariant Midway(u, counts, next', done, x, y, n, 3 * xd + yd)
      {
        next' := BirthAt(u, next', x, y, nh, n, xd, yd, counts, done);
      }
    }
  }

  /** One entry (xd, yd) of the birth pass: when the window entry is dead, the
      window of the LIVE cell is computed again (universe.py line 339), and when its count is
      3 the dead position is set alive; a write outside the grid would be
      skipped. */
  method BirthAt(u: Universe, next: Matrix, x: int, y: int, nh: Matrix, n: int, xd: int, yd: int,
                 ghost counts: Matrix, ghost done: seq<(int, int)>)
    returns (next': Matrix)
    requires Torus(u) && IsMatrix(counts, u.width, u.height) && Seen(u, done)
    requires InGrid(u, x, y) && Live(u, x, y) && 0 <= xd < 3 && 0 <= yd < 3
    requires nh == Window(u, x, y, 1) && CountNhood(nh) == Some(n)
    requires Midway(u, counts, next, done, x, y, n, 3 * xd + yd)
    ensures Midway(u, counts, next', done, x, y, n, 3 * xd + yd + 1)
  {
    WindowAt(u, x, y, xd, yd);
    WindowMiddle(u, x, y);
    var middle := Middle(|nh|);
    WindowPosMiddle(u, x, y, xd, yd, middle);
    next' := next;
    if nh[xd][yd] == 0 {
      var foundDead := Nhood(u, x, y);
      var nhDead := foundDead.value;
      if CountNhood(nhDead) == Some(3) {
        var ax := Translate(u.boundary, x - middle + xd, u.width);
        var ay := Translate(u.boundary, y - middle + yd, u.height);
        match Put(next', ax, ay, 1)
        case Some(g) => next' := g;
        case None =>
      }
    }
    BirthStep(u, counts, next, next', done, x, y, n, xd, yd);
  }

  lemma WindowMiddle(u: Universe, x: int, y: int)
    requires Torus(u) && InGrid(u, x, y)
    ensures Middle(|Window(u, x, y, 1)|) == 1
  {
  }

  /** The coordinates `run` writes a birth to are the window position. */
  lemma WindowPosMiddle(u: Universe, x: int, y: int, xd: int, yd: int, middle: int)
    requires middle == 1
    ensures WindowPos(u, x, y, xd, yd)
      == (Translate(u.boundary, x - middle + xd, u.width), Translate(u.boundary, y - middle + yd, u.height))
  {
  }

  /** Writing the provisional survival value of (x, y) starts its pass. */
  lemma StartPass(u: Universe, counts: Matrix, partial: Matrix, next: Matrix, done: seq<(int, int)>, x: int, y: int, n: int)
    requires Valid(u) && IsMatrix(counts, u.width, u.height) && Seen(u, done) && InGrid(u, x, y)
    requires Partial(u, counts, partial, done)
    requires next == Store(partial, x, y, if n == 2 || n == 3 then 1 else 0)
    ensures Midway(u, counts, next, done, x, y, n, 0)
  {
  }

  /** The count recorded for a cell is `count_nhood` of its window. */
  lemma CountAt(u: Universe, x: int, y: int)
    requires Torus(u) && InGrid(u, x, y)
    ensures CountNhood(Window(u, x, y, 1)) == Some(NeighbourCounts(u)[x][y])
  {
  }

  lemma PartialExtend(u: Universe, counts: Matrix, mid: Matrix, next: Matrix, done: seq<(int, int)>, x: int, y: int)
    requires Valid(u) && IsMatrix(counts, u.width, u.height) && Seen(u, done)
    requires InGrid(u, x, y) && Live(u, x, y)
    requires Midway(u, counts, mid, done, x, y, counts[x][y], 9)
    requires next == Store(mid, x, y, if counts[x][y] == 3 then 1 else 0)
    ensures Seen(u, done + [(x, y)])
    ensures Partial(u, counts, next, done + [(x, y)])
  {
    var done' := done + [(x, y)];
    forall cx, cy | InGrid(u, cx, cy)
      ensures next[cx][cy] == PartialCell(u, counts, done', cx, cy)
    {
      BornByExtend(u, counts, done, x, y, cx, cy);
    }
  }

  lemma PartialComplete(u: Universe, counts: Matrix, next: Matrix, cells: seq<(int, int)>)
    requires Valid(u) && IsMatrix(counts, u.width, u.height) && Seen(u, cells)
    requires forall x, y | InGrid(u, x, y) && u.grid[x][y] != 0 :: (x, y) in cells
    requires Partial(u, counts, next, cells)
    ensures next == NextFrom(u, counts)
  {
    forall cx, cy | InGrid(u, cx, cy)
      ensures next[cx][cy] == NextCell(u, counts, cx, cy)
    {
      if !Live(u, cx, cy) {
        if BornBy(u, counts, cells, cx, cy) {
          var k :| 0 <= k < |cells| && counts[cells[k].0][cells[k].1] == 3 && InWindowOf(u, cells[k].0, cells[k].1, cx, cy);
          var (lx, ly) := cells[k];
          assert InGrid(u, lx, ly) && Live(u, lx, ly);
        }
        if Born(u, counts, cx, cy) {
          var lx, ly :| InGrid(u, lx, ly) && Live(u, lx, ly) && counts[lx][ly] == 3 && InWindowOf(u, lx, ly, cx, cy);
          assert (lx, ly) in cells;
          var k :| 0 <= k < |cells| && cells[k] == (lx, ly);
        }
      }
    }
    MatrixExt(next, NextFrom(u, counts), u.width, u.height);
  }

  /** One generation of `run` (universe.py lines 312-358), for the live cells enumerated in
      any order: a fresh zero grid is filled from the old grid only. For each live
      cell its window count is taken, its "2 or 3" survival value written (line
      332), its births done, and then its value overwritten by "exactly 3" (line
      356). */
  method Generation(u: Universe, cells: seq<(int, int)>) returns (next: Matrix)
    requires Torus(u) && Seen(u, cells)
    requires forall x, y | InGrid(u, x, y) && u.grid[x][y] != 0 :: (x, y) in cells
    ensures IsMatrix(next, u.width, u.height) && Binary(next)
    ensures next == NextGrid(u)
  {
    ghost var counts := NeighbourCounts(u);
    next := Reshape(u, 0, 0);
    for p := 0 to |cells|
      invariant Seen(u, cells[..p])
      invariant Partial(u, counts, next, cells[..p])
    {
      SliceStep(cells, p);
      next := ProcessCell(u, next, cells[p].0, cells[p].1, counts, cells[..p]);
    }
    assert cells[..|cells|] == cells;
    PartialComplete(u, counts, next, cells);
  }

  lemma SliceStep<T>(s: seq<T>, p: int)
    requires 0 <= p < |s|
    ensures s[..p + 1] == s[..p] + [s[p]]
  {
  }

  /** The body of the generation loop for the live cell (x, y). */
  method ProcessCell(u: Universe, next: Matrix, x: int, y: int, ghost counts: Matrix, ghost done: seq<(int, int)>)
    returns (next': Matrix)
    requires Torus(u) && counts == NeighbourCounts(u) && Seen(u, done)
    requires InGrid(u, x, y) && Live(u, x, y)
    requires Partial(u, counts, next, done)
    ensures Seen(u, done + [(x, y)])
    ensures Partial(u, counts, next', done + [(x, y)])
  {
    var found := Nhood(u, x, y);
    var nh := found.value;
    var nalive := CountNhood(nh).value;
    CountAt(u, x, y);
    next' := Store(next, x, y, if nalive == 2 || nalive == 3 then 1 else 0);
    StartPass(u, counts, next, next', done, x, y, nalive);
    next' := Births(u, next', x, y, nh, nalive, counts, done);
    var ax := Translate(u.boundary, x, u.width);
    var ay := Translate(u.boundary, y, u.height);
    ghost var mid := next';
    next' := Store(next', ax, ay, if nalive == 3 then 1 else 0);
    PartialExtend(u, counts, mid, next', done, x, y);
  }

  /** A dead cell is born as written: some live cell with exactly 3 live
      neighbours has it in its window. */
  ghost predicate BornAt(u: Universe, x: int, y: int)
    requires Torus(u)
  {
    exists lx, ly | InGrid(u, lx, ly) && Live(u, lx, ly) :: Neighbours(u, lx, ly) == 3 && InWindowOf(u, lx, ly, x, y)
  }

  lemma CountsAt(u: Universe, x: int, y: int)
    requires Torus(u) && InGrid(u, x, y)
    ensures |NeighbourCounts(u)[x]| == u.height
    ensures NeighbourCounts(u)[x][y] == Neighbours(u, x, y)
  {
    WindowNeighbours(u, x, y);
  }

  lemma BornWithCounts(u: Universe, x: int, y: int)
    requires Torus(u)
    ensures Born(u, NeighbourCounts(u), x, y) <==> BornAt(u, x, y)
  {
    if Born(u, NeighbourCounts(u), x, y) {
      BornByCounts(u, x, y);
    }
    if BornAt(u, x, y) {
      BornAtCounts(u, x, y);
    }
  }

  lemma BornByCounts(u: Universe, x: int, y: int)
    requires Torus(u) && Born(u, NeighbourCounts(u), x, y)
    ensures BornAt(u, x, y)
  {
    var counts := NeighbourCounts(u);
    var lx, ly :| InGrid(u, lx, ly) && Live(u, lx, ly) && counts[lx][ly] == 3 && InWindowOf(u, lx, ly, x, y);
    CountsAt(u, lx, ly);
  }

  lemma BornAtCounts(u: Universe, x: int, y: int)
    requires Torus(u) && BornAt(u, x, y)
    ensures Born(u, NeighbourCounts(u), x, y)
  {
    var lx, ly :| InGrid(u, lx, ly) && Live(u, lx, ly) && Neighbours(u, lx, ly) == 3 && InWindowOf(u, lx, ly, x, y);
    CountsAt(u, lx, ly);
  }

  /** The rule one generation applies to each cell, stated with the counts of
      `count_nhood`: a live cell is alive next iff its count is exactly 3; a dead
      cell is alive next iff it lies in the window of a live cell whose count is
      exactly 3. */
  lemma NextGridRule(u: Universe, x: int, y: int)
    requires Torus(u) && InGrid(u, x, y)
    ensures NextGrid(u)[x][y] == 0 || NextGrid(u)[x][y] == 1
    ensures Live(u, x, y) ==> (NextGrid(u)[x][y] == 1 <==> Neighbours(u, x, y) == 3)
    ensures !Live(u, x, y) ==> (NextGrid(u)[x][y] == 1 <==> BornAt(u, x, y))
  {
    var counts := NeighbourCounts(u);
    assert NextGrid(u)[x][y] == NextCell(u, counts, x, y);
    CountsAt(u, x, y);
    BornWithCounts(u, x, y);
  }

  /** The live-cell enumeration (scipy's `find`): every non-zero cell, in
      row-major order. `Generation` accepts any order. */
  method FindAlive(u: Universe) returns (cells: seq<(int, int)>)
    requires Valid(u)
    ensures Seen(u, cells)
    ensures forall x, y | InGrid(u, x, y) && u.grid[x][y] != 0 :: (x, y) in cells
    ensures |cells| == 0 <==> AllZero(u.grid)
  {
    cells := [];
    for x := 0 to u.width
      invariant Seen(u, cells)
      invariant forall a, b | 0 <= a < x && 0 <= b < u.height && u.grid[a][b] != 0 :: (a, b) in cells
    {
      for y := 0 to u.height
        invariant Seen(u, cells)
        invariant forall a, b | 0 <= a < x && 0 <= b < u.height && u.grid[a][b] != 0 :: (a, b) in cells
        invariant forall b | 0 <= b < y && u.grid[x][b] != 0 :: (x, b) in cells
      {
        if u.grid[x][y] != 0 {
          cells := cells + [(x, y)];
        }
      }
    }
    if |cells| > 0 {
      assert u.grid[cells[0].0][cells[0].1] != 0;
    }
  }

  /** The universe after one generation: only the grid changes. */
  ghost function Step(u: Universe): (v: Universe)
    requires Torus(u)
    ensures Torus(v) && v == u.(grid := v.grid)
  {
    u.(grid := NextGrid(u))
  }

  /** The grid after `n` generations: the first one, then `n - 1` more. */
  ghost function Evolve(u: Universe, n: nat): (g: Matrix)
    requires Torus(u)
    ensures IsMatrix(g, u.width, u.height)
    ensures n > 0 ==> Binary(g)
    decreases n
  {
    if n == 0 then u.grid else Evolve(Step(u), n - 1)
  }

  /** An all-dead grid stays all-dead: no cell is live and none is born. */
  lemma DeadIsFixpoint(u: Universe)
    requires Torus(u) && AllZero(u.grid)
    ensures NextGrid(u) == u.grid
  {
    var counts := NeighbourCounts(u);
    forall x, y | InGrid(u, x, y)
      ensures NextGrid(u)[x][y] == u.grid[x][y]
    {
      assert NextGrid(u)[x][y] == NextCell(u, counts, x, y);
      assert !Born(u, counts, x, y);
    }
    MatrixExt(NextGrid(u), u.grid, u.width, u.height);
  }

  /** Once the grid is all-dead, further generations change nothing. */
  lemma {:induction false} EvolveDeadStays(u: Universe, g: nat, n: nat)
    requires Torus(u) && g <= n && AllZero(Evolve(u, g))
    ensures Evolve(u, n) == Evolve(u, g)
    decreases n
  {
    if n > g {
      EvolveDeadStays(u, g, n - 1);
      var v := u.(grid := Evolve(u, n - 1));
      assert v.grid == Evolve(u, g);
      DeadIsFixpoint(v);
      EvolveStep(u, n - 1, v);
    }
  }

  /** Stopping at a dead grid loses nothing: it is the grid after every number
      of generations, and it has no live cell. */
  lemma StopsEarly(u: Universe, g: nat)
    requires Torus(u) && g <= Cycles(u) && AllZero(Evolve(u, g))
    ensures Evolve(u, Cycles(u)) == Evolve(u, g)
    ensures Population(Evolve(u, g)) == 0
  {
    EvolveDeadStays(u, g, Cycles(u));
  }

  /** A universe that starts dead never computes a generation: the grid the
      first generation would start from is already dead. */
  lemma DeadStart(u: Universe, g: nat)
    requires Torus(u) && AllZero(u.grid)
    ensures g > 0 ==> AllZero(Evolve(u, g - 1))
    ensures g == 0 ==> Evolve(u, g) == u.grid
  {
    if g > 0 {
      EvolveDeadStays(u, 0, g - 1);
    }
  }

  /** Generation `g + 1` is the next generation of generation `g`. */
  lemma {:induction false} EvolveStep(u: Universe, g: nat, v: Universe)
    requires Torus(u) && v == u.(grid := Evolve(u, g))
    ensures Torus(v)
    ensures Evolve(u, g + 1) == NextGrid(v)
    decreases g
  {
    if g > 0 {
      var s := Step(u);
      assert v == s.(grid := Evolve(s, g - 1));
      EvolveStep(s, g - 1, v);
    }
  }

  /** The body of one cycle of `run` on the grid after `g` generations: report
      a dead universe, or replace the grid by the next generation in one
      assignment (universe.py line 358). */
  method Advance(r: Universe, ghost u: Universe, ghost g: nat) returns (dead: bool, r': Universe)
    requires Torus(u) && r == u.(grid := Evolve(u, g))
    ensures dead <==> AllZero(r.grid)
    ensures dead ==> r' == r
    ensures !dead ==> r' == u.(grid := Evolve(u, g + 1))
  {
    EvolveStep(u, g, r);
    // both calls of `find` in the program enumerate the same grid
    var cells := FindAlive(r);
    if |cells| == 0 {
      return true, r;
    }
    var next := Generation(r, cells);
    return false, r.(grid := next);
  }

  /** The number of generations `run` attempts: `range(1, cycles + 1)`. */
  function Cycles(u: Universe): nat
  {
    if u.cycles > 0 then u.cycles else 0
  }

  /** `run`: at most `cycles` generations, each computed into a fresh grid from
      the current one and swapped in whole; it stops early, leaving the grid as it
      is, when no cell is alive at the start of a generation. Stopping early does
      not change the outcome: the result is the grid after `cycles` generations. */
  method Run(u: Universe) returns (r: Universe, generations: nat)
    requires Torus(u)
    ensures r == u.(grid := r.grid) && Valid(r)
    ensures generations <= Cycles(u)
    ensures r.grid == Evolve(u, generations)
    ensures r.grid == Evolve(u, Cycles(u))
    ensures generations < Cycles(u) ==> AllZero(r.grid) && Population(r.grid) == 0
    ensures generations > 0 ==> !AllZero(Evolve(u, generations - 1))
    ensures generations > 0 ==> Binary(r.grid)
    ensures AllZero(u.grid) ==> r == u && generations == 0
  {
    r := u;
    generations := 0;
    var cycle := 1;
    while cycle <= u.cycles
      invariant 1 <= cycle && generations == cycle - 1 && generations <= Cycles(u)
      invariant r == u.(grid := r.grid) && Valid(r)
      invariant r.grid == Evolve(u, generations)
      invariant generations > 0 ==> !AllZero(Evolve(u, generations - 1))
    {
      var dead, r' := Advance(r, u, generations);
      if dead {
        StopsEarly(u, generations);
        if AllZero(u.grid) {
          DeadStart(u, generations);
        }
        return;
      }
      r := r';
      generations := generations + 1;
      cycle := cycle + 1;
    }
    if AllZero(u.grid) {
      DeadStart(u, generations);
    }
  }

}
