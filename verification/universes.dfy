/** The state of a Conway universe and direct, bounds-checked access to its cells
    (class ConwayUniverse in universe.py, without its neighbourhood logic). */
module Universes {
  import opened Results
  import opened Grids

  /** A universe: fixed dimensions, the number of generations `run` performs,
      the boundary mode (true: toroidal wrap-around; false: hard edges), and the
      grid, of `width` rows (index x) by `height` columns (index y). */
  datatype Universe = Universe(width: nat, height: nat, cycles: int, boundary: bool, grid: Matrix)

  /** The grid has the shape the universe declares. */
  predicate Valid(u: Universe) {
    IsMatrix(u.grid, u.width, u.height)
  }

  predicate InGrid(u: Universe, x: int, y: int) {
    0 <= x < u.width && 0 <= y < u.height
  }

  /** The universe's matrix shape, a zero argument standing for the universe's
      own dimension (`reshape`): a fresh all-dead matrix. */
  function Reshape(u: Universe, width: nat, height: nat): (m: Matrix)
    ensures IsMatrix(m, if width == 0 then u.width else width, if height == 0 then u.height else height)
    ensures AllZero(m)
  {
    var w := if width == 0 then u.width else width;
    var h := if height == 0 then u.height else height;
    Zeros(w, h)
  }

  /** The constructor: the height defaults to the width, and the universe starts
      all-dead. */
  function New(width: nat, height: Option<nat> := None, cycles: int := 0, boundary: bool := true): (u: Universe)
    ensures Valid(u)
    ensures u.width == width
    ensures height.None? ==> u.height == width
    ensures height.Some? ==> u.height == height.value
    ensures u.cycles == cycles && u.boundary == boundary
    ensures AllZero(u.grid)
  {
    var h := if height.None? then width else height.value;
    var blank := Universe(width, h, cycles, boundary, []);
    blank.(grid := Reshape(blank, 0, 0))
  }

  /** `__translate_coordinate`: with wrap-around, a coordinate one step outside
      the range is moved back by one full `dimension`; without it, coordinates are
      left alone. The single wrap lands every coordinate of
      `[-dimension, 2 * dimension)` in `[0, dimension)`, where it agrees with the
      mathematical residue. */
  function Translate(boundary: bool, coord: int, dimension: int): (r: int)
    ensures !boundary ==> r == coord
    ensures 0 <= coord < dimension ==> r == coord
    ensures boundary && -dimension <= coord < 2 * dimension ==> 0 <= r < dimension && r == coord % dimension
  {
    if !boundary then coord
    else if coord < 0 then dimension + coord
    else if coord > dimension - 1 then coord - dimension
    else coord
  }

  /** `__middle`: the centre index of a sequence of length `n`, computed as
      `int((n - 1) / 2)`; Python's `int` truncates toward zero, so an empty
      sequence gives 0 rather than -1. */
  function Middle(n: nat): (r: nat)
    ensures n == 0 ==> r == 0
    ensures n > 0 ==> r < n && (n == 2 * r + 1 || n == 2 * r + 2)
  {
    if n == 0 then 0 else (n - 1) / 2
  }

  /** `__getitem__` at non-negative coordinates: the cell inside the grid; outside
      it, `None` without wrap-around, and with wrap-around an index error naming
      the width when x is too large (even if y is too), and otherwise the height. */
  function GetItem(u: Universe, x: nat, y: nat): (r: Result<Option<int>>)
    requires Valid(u)
    ensures InGrid(u, x, y) <==> r.Ok? && r.value.Some?
    ensures InGrid(u, x, y) ==> r.value.value == u.grid[x][y]
    ensures !InGrid(u, x, y) && !u.boundary ==> r == Ok(None)
    ensures !InGrid(u, x, y) && u.boundary && x >= u.width ==> r == Err(WidthExceeded(x))
    ensures !InGrid(u, x, y) && u.boundary && x < u.width ==> r == Err(HeightExceeded(y))
  {
    if InBounds(u.grid, x, y) then Ok(Some(u.grid[x][y]))
    else if !u.boundary then Ok(None)
    else if x > u.width - 1 then Err(WidthExceeded(x))
    else Err(HeightExceeded(y))
  }

  /** `__setitem__` at non-negative coordinates: inside the grid it writes that
      one cell and nothing else; outside it fails whatever the boundary mode, the
      width error taking precedence over the height error. */
  function SetItem(u: Universe, x: nat, y: nat, alive: int): (r: Result<Universe>)
    requires Valid(u)
    ensures r.Ok? <==> InGrid(u, x, y)
    ensures r.Ok? ==> Valid(r.value) && r.value == u.(grid := r.value.grid)
    ensures r.Ok? ==> r.value.grid[x][y] == alive
    ensures r.Ok? ==> forall i, j | InGrid(u, i, j) && (i, j) != (x, y) :: r.value.grid[i][j] == u.grid[i][j]
    ensures x >= u.width ==> r == Err(WidthExceeded(x))
    ensures x < u.width && y >= u.height ==> r == Err(HeightExceeded(y))
  {
    match Put(u.grid, x, y, alive)
    case Some(g) => Ok(u.(grid := g))
    case None => if x > u.width - 1 then Err(WidthExceeded(x)) else Err(HeightExceeded(y))
  }

  /** Reading a cell back after writing it returns the written value, and every
      other cell reads as before. */
  lemma SetThenGet(u: Universe, x: nat, y: nat, alive: int, x': nat, y': nat)
    requires Valid(u) && SetItem(u, x, y, alive).Ok?
    ensures GetItem(SetItem(u, x, y, alive).value, x, y) == Ok(Some(alive))
    ensures (x', y') != (x, y) ==> GetItem(SetItem(u, x, y, alive).value, x', y') == GetItem(u, x', y')
  {
  }

  /** An out-of-range write fails exactly as an out-of-range read does under
      wrap-around, and leaves nothing to read back. */
  lemma OutOfRangeAccess(u: Universe, x: nat, y: nat, alive: int)
    requires Valid(u) && !InGrid(u, x, y)
    ensures SetItem(u, x, y, alive).Err?
    ensures u.boundary ==> GetItem(u, x, y) == Err(SetItem(u, x, y, alive).error)
    ensures !u.boundary ==> GetItem(u, x, y) == Ok(None)
  {
  }
}
