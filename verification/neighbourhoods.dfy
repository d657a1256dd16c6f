/** Moore neighbourhoods of a cell and the counting of live cells in them
    (`nhood_moore`, `nhood`, `count_nhood` of ConwayUniverse). */
module Neighbourhoods {
  import opened Results
  import opened Grids
  import opened Universes

  /** The sentinel for positions outside a hard-edged grid (CELL_INACTIVE). */
  const Inactive: int := -1

  /** Where `nhood_moore` is modelled: a non-negative depth, and under
      wrap-around a cell of the grid and a depth no larger than either dimension,
      so that the single wrap of `Translate` lands inside the grid. */
  predicate MooreDomain(u: Universe, x: int, y: int, depth: int) {
    && Valid(u)
    && 0 <= depth
    && (u.boundary ==> InGrid(u, x, y) && depth <= u.width && depth <= u.height)
  }

  /** Entry (i, j) of the depth-`depth` window around (x, y): the grid cell at the
      translated position when it is inside the grid; otherwise the sentinel when
      only the column is outside; and, when the row is outside, the sentinel in the
      last column only (the row loop writes at column index -1, which numpy reads
      as the last one) and 0 elsewhere. */
  function MooreCell(u: Universe, x: int, y: int, depth: int, i: int, j: int): int
    requires MooreDomain(u, x, y, depth)
    requires 0 <= i < 2 * depth + 1 && 0 <= j < 2 * depth + 1
  {
    var ax := Translate(u.boundary, x - depth + i, u.width);
    var ay := Translate(u.boundary, y - depth + j, u.height);
    if InGrid(u, ax, ay) then u.grid[ax][ay]
    else if 0 <= ax < u.width then Inactive
    else if j == 2 * depth then Inactive
    else 0
  }

  /** The (2 * depth + 1)-square window around (x, y). */
  function Window(u: Universe, x: int, y: int, depth: int): (m: Matrix)
    requires MooreDomain(u, x, y, depth)
    ensures IsMatrix(m, 2 * depth + 1, 2 * depth + 1)
  {
    seq(2 * depth + 1, i requires 0 <= i < 2 * depth + 1 =>
      seq(2 * depth + 1, j requires 0 <= j < 2 * depth + 1 => MooreCell(u, x, y, depth, i, j)))
  }

  /** `nhood_moore`: fills a zero matrix row by row, walking the raw coordinates
      x - depth .. x + depth and y - depth .. y + depth with their own counters;
      the result is the window. Under wrap-around every entry is the grid cell at
      the coordinates taken modulo the dimensions. */
  method NhoodMoore(u: Universe, x: int, y: int, depth: int) returns (moore: Matrix)
    requires MooreDomain(u, x, y, depth)
    ensures moore == Window(u, x, y, depth)
    ensures IsMatrix(moore, 2 * depth + 1, 2 * depth + 1)
    ensures u.boundary ==> forall i, j | 0 <= i < 2 * depth + 1 && 0 <= j < 2 * depth + 1 ::
      moore[i][j] == u.grid[(x - depth + i) % u.width][(y - depth + j) % u.height]
  {
    var dimension := 2 * depth + 1;
    moore := Zeros(dimension, dimension);
    var mx := -1;
    for i := x - depth to x + depth + 1
      invariant mx == i - (x - depth) - 1
      invariant IsMatrix(moore, dimension, dimension)
      invariant forall a, b | 0 <= a <= mx && 0 <= b < dimension :: moore[a][b] == MooreCell(u, x, y, depth, a, b)
      invariant forall a, b | mx < a < dimension && 0 <= b < dimension :: moore[a][b] == 0
    {
      mx := mx + 1;
      var ax := Translate(u.boundary, i, u.width);
      if !u.boundary && (ax < 0 || ax > u.width - 1) {
        // my is still -1 here: numpy writes the sentinel into the last column
        moore := Store(moore, mx, dimension - 1, Inactive);
        continue;
      }
      moore := MooreRow(u, x, y, depth, moore, mx, i);
    }
    MatrixExt(moore, Window(u, x, y, depth), dimension, dimension);
    if u.boundary {
      WindowTorus(u, x, y, depth);
    }
  }

  /** The inner loop of `nhood_moore` for window row `mx`, whose grid row `i` is
      inside the grid or wrapped into it: each entry of the row is filled, and
      no other row changes. */
  method MooreRow(u: Universe, x: int, y: int, depth: int, moore: Matrix, mx: int, i: int)
    returns (moore': Matrix)
    requires MooreDomain(u, x, y, depth)
    requires IsMatrix(moore, 2 * depth + 1, 2 * depth + 1) && 0 <= mx < 2 * depth + 1
    requires i == x - depth + mx
    requires u.boundary || 0 <= i < u.width
    ensures IsMatrix(moore', 2 * depth + 1, 2 * depth + 1)
    ensures forall a | 0 <= a < 2 * depth + 1 && a != mx :: moore'[a] == moore[a]
    ensures forall b | 0 <= b < 2 * depth + 1 :: moore'[mx][b] == MooreCell(u, x, y, depth, mx, b)
  {
    var dimension := 2 * depth + 1;
    var ax := Translate(u.boundary, i, u.width);
    var my := -1;
    moore' := moore;
    for j := y - depth to y + depth + 1
      invariant my == j - (y - depth) - 1
      invariant IsMatrix(moore', dimension, dimension)
      invariant forall a | 0 <= a < dimension && a != mx :: moore'[a] == moore[a]
      invariant forall b | 0 <= b <= my :: moore'[mx][b] == MooreCell(u, x, y, depth, mx, b)
    {
      my := my + 1;
      var ay := Translate(u.boundary, j, u.height);
      if !u.boundary && (ay < 0 || ay > u.height - 1) {
        moore' := Store(moore', mx, my, Inactive);
        continue;
      }
      if u.boundary || (ax == i && ay == j) {
        var cell := GetItem(u, ax, ay);
        moore' := Store(moore', mx, my, cell.value.value);
      } else {
        // without wrap-around the translation is the identity: never reached
        assert false;
      }
    }
  }

  /** Under wrap-around the window is read entirely from the grid, at the
      window's coordinates taken modulo the dimensions. */
  lemma WindowTorus(u: Universe, x: int, y: int, depth: int)
    requires MooreDomain(u, x, y, depth) && u.boundary
    ensures forall i, j | 0 <= i < 2 * depth + 1 && 0 <= j < 2 * depth + 1 ::
      Window(u, x, y, depth)[i][j] == u.grid[(x - depth + i) % u.width][(y - depth + j) % u.height]
  {
  }

  /** The centre of the window is the queried cell itself. */
  lemma WindowCentre(u: Universe, x: int, y: int, depth: int)
    requires MooreDomain(u, x, y, depth) && InGrid(u, x, y)
    ensures Window(u, x, y, depth)[depth][depth] == u.grid[x][y]
  {
  }

  /** Under wrap-around a window of a 0/1 grid holds no sentinel. */
  lemma WindowBinary(u: Universe, x: int, y: int, depth: int)
    requires MooreDomain(u, x, y, depth) && u.boundary && Binary(u.grid)
    ensures Binary(Window(u, x, y, depth))
  {
  }

  /** With hard edges nothing is wrapped: a position inside the grid is read,
      an in-grid row with an out-of-grid column holds the sentinel, and an
      out-of-grid row holds the sentinel in its last entry and 0 in all others. */
  lemma WindowHardEdge(u: Universe, x: int, y: int, depth: int, i: int, j: int)
    requires MooreDomain(u, x, y, depth) && !u.boundary
    requires 0 <= i < 2 * depth + 1 && 0 <= j < 2 * depth + 1
    ensures InGrid(u, x - depth + i, y - depth + j) ==>
      Window(u, x, y, depth)[i][j] == u.grid[x - depth + i][y - depth + j]
    ensures 0 <= x - depth + i < u.width && !(0 <= y - depth + j < u.height) ==>
      Window(u, x, y, depth)[i][j] == Inactive
    ensures !(0 <= x - depth + i < u.width) ==>
      Window(u, x, y, depth)[i][j] == (if j == 2 * depth then Inactive else 0)
  {
  }

  /** `nhood`: the Moore window for kind "MOORE"; every other kind, including
      "vN" (whose routine computes but never returns its matrix), yields None. */
  method Nhood(u: Universe, x: int, y: int, depth: int := 1, kind: string := "MOORE") returns (r: Option<Matrix>)
    requires MooreDomain(u, x, y, depth)
    ensures r.Some? <==> kind == "MOORE"
    ensures r.Some? ==> r.value == Window(u, x, y, depth)
  {
    if kind == "MOORE" {
      var m := NhoodMoore(u, x, y, depth);
      r := Some(m);
    } else {
      r := None;
    }
  }

  // ---------------------------------------------------------------------------
  // count_nhood

  /** Whether `count_nhood` can locate its centre: it takes the centre row index
      from the length of row 0 and the centre column index from the length of
      row 1, and numpy raises IndexError when either access falls outside. */
  predicate HasCentre(m: Matrix) {
    |m| >= 2 && Middle(|m[0]|) < |m| && Middle(|m[1]|) < |m[Middle(|m[0]|)]|
  }

  /** `count_nhood` on a given matrix: the entries equal to 1, less one when the
      centre entry is 1. Its value is the number of positions other than the
      centre that hold a 1, so sentinels and zeros never count. */
  function CountNhood(m: Matrix): (r: Option<int>)
    ensures r.Some? <==> HasCentre(m)
    ensures r.Some? ==> r.value == |OnesOf(m) - {(Middle(|m[0]|), Middle(|m[1]|))}|
  {
    if |m| < 2 then None
    else
      var mx := Middle(|m[0]|);
      var my := Middle(|m[1]|);
      if mx >= |m| || my >= |m[mx]| then None
      else
        CountOnesCard(m);
        var count := CountOnes(m);
        if m[mx][my] == 1 then
          assert (mx, my) in OnesOf(m);
          Some(count - 1)
        else
          assert OnesOf(m) - {(mx, my)} == OnesOf(m);
          Some(count)
  }

  /** On a 3 x 3 matrix `count_nhood` counts the eight entries around the
      centre that equal 1. */
  lemma CountNhood3(m: Matrix)
    requires IsMatrix(m, 3, 3)
    ensures CountNhood(m) == Some(One(m[0][0]) + One(m[0][1]) + One(m[0][2])
                                + One(m[1][0]) + One(m[1][2])
                                + One(m[2][0]) + One(m[2][1]) + One(m[2][2]))
  {
    CountOnes3(m);
    assert Middle(|m[0]|) == 1 && Middle(|m[1]|) == 1;
  }

  /** A window of depth at least 1 always has a centre, at (depth, depth); its
      count excludes that centre and lies between 0 and (2 * depth + 1)^2 - 1
      (0 .. 8 for the 3 x 3 window `run` uses). */
  lemma {:induction false} WindowCount(u: Universe, x: int, y: int, depth: int)
    requires MooreDomain(u, x, y, depth) && depth >= 1
    ensures CountNhood(Window(u, x, y, depth)).Some?
    ensures CountNhood(Window(u, x, y, depth)).value == |OnesOf(Window(u, x, y, depth)) - {(depth, depth)}|
    ensures 0 <= CountNhood(Window(u, x, y, depth)).value <= (2 * depth + 1) * (2 * depth + 1) - 1
  {
    var w := Window(u, x, y, depth);
    var side := 2 * depth + 1;
    assert Middle(side) == depth;
    OnesBesidesBound(w, side, side, (depth, depth));
  }

  /** A depth-0 window is 1 x 1, and counting in it fails: it has no row 1. */
  lemma DepthZeroCountFails(u: Universe, x: int, y: int)
    requires MooreDomain(u, x, y, 0)
    ensures CountNhood(Window(u, x, y, 0)) == None
  {
  }

  /** `count_nhood()` with no argument: the same centre correction applied to the
      whole grid, whose "centre" is (Middle(height), Middle(height)). */
  function CountUniverse(u: Universe): (r: Option<int>)
    requires Valid(u)
    ensures u.width >= 2 && Middle(u.height) < u.width && u.height > 0 ==>
      r == Some(|OnesOf(u.grid) - {(Middle(u.height), Middle(u.height))}|)
    ensures r.Some? <==> u.width >= 2 && u.height > 0 && Middle(u.height) < u.width
  {
    CountNhood(u.grid)
  }

  /** The number of live cells of a grid. */
  function Population(g: Matrix): (r: nat)
    ensures r == |OnesOf(g)|
    ensures AllZero(g) ==> r == 0
  {
    CountOnesCard(g);
    if AllZero(g) then
      assert OnesOf(g) == {};
      CountOnes(g)
    else CountOnes(g)
  }

  /** Whenever the whole-grid "centre" cell is alive, `count_nhood()` reports one
      live cell fewer than the population. */
  lemma WholeGridCountMissesCentre(u: Universe)
    requires Valid(u) && u.width >= 2 && u.height > 0 && Middle(u.height) < u.width
    requires u.grid[Middle(u.height)][Middle(u.height)] == 1
    ensures CountUniverse(u) == Some(Population(u.grid) - 1)
  {
    var c := (Middle(u.height), Middle(u.height));
    assert c in OnesOf(u.grid);
  }

  /** A 3 x 3 universe whose only live cell is its middle one: `count_nhood()`
      reports 0 live cells although one is alive. */
  lemma WholeGridCountExample()
    ensures var u := Universe(3, 3, 0, true, [[0, 0, 0], [0, 1, 0], [0, 0, 0]]);
      CountUniverse(u) == Some(0) && Population(u.grid) == 1
  {
    var u := Universe(3, 3, 0, true, [[0, 0, 0], [0, 1, 0], [0, 0, 0]]);
    WholeGridCountMissesCentre(u);
    assert OnesOf(u.grid) == {(1, 1)};
  }

  /** A dead 3 x 10 universe: its "centre" row index Middle(10) = 4 lies past the
      3 rows, so `count_nhood()` fails instead of reporting its 0 live cells. */
  lemma TallGridCountFails()
    ensures var u := New(3, Some(10));
      CountUniverse(u) == None && Population(u.grid) == 0
  {
    var u := New(3, Some(10));
    assert Middle(10) == 4;
  }
}
