# Conway universe: a Dafny model

This project models the core of `ConwayUniverse` (`universe.py`), a Game of Life engine on a
numpy matrix. It covers:

- the universe's state and its direct, bounds-checked cell access (`__getitem__`,
  `__setitem__`, `reshape`, the constructor);
- the helpers `__translate_coordinate` (a single toroidal wrap) and `__middle`;
- the Moore neighbourhood `nhood_moore` and its dispatcher `nhood`;
- `count_nhood`, which counts the cells equal to 1 in a matrix and leaves out its centre;
- `run`: at most `cycles` generations, each one computed into a fresh matrix from the live
  cells, stopping early once nothing is alive.

The model follows the code as written, including three places where it departs from the
textbook rule:

- **Survival needs exactly 3.** Line 332 writes the "2 or 3 neighbours" survival value.
  Line 356 then overwrites it with "exactly 3". A live cell with 2 live neighbours dies
  (`Behaviour.BlinkerDies`).
- **Births follow the live cell's count.** Line 339 recomputes the window of the LIVE cell
  `(x, y)`, not that of the dead candidate. So a dead cell is born exactly when it lies in
  the 3 x 3 window of some live cell that has exactly 3 live neighbours. The block is
  therefore not a still life (`Behaviour.BlockGrows`).
- **The sentinel lands in the last column.** With hard edges, a window row outside the grid
  is skipped after writing the sentinel -1 at column index `moore_y = -1` (line 210).
  numpy reads that index as the row's last column, so the rest of the row stays 0
  (`Neighbourhoods.WindowHardEdge`).

The grid is `grid[x][y]` with `x < width`, as numpy's shape `(w, h)` lays it out.

- **Live cells.** The live-cell enumeration (scipy's `find`) reports every non-zero entry.
- **Counting.** `count_nhood` counts only entries equal to 1, so the sentinel -1 never
  counts.
- **Enumeration order.** `Generations.Generation` is proved for every enumeration order of
  the live cells, not just scipy's.
- **Where generations are modelled.** They are modelled under wrap-around (`boundary`
  true), on a well-shaped grid.
- **Meaning of a generation.** `Generations.NextGridRule` characterises one generation cell
  by cell through the textbook neighbour count `Generations.Neighbours`. That count is a sum
  over the eight surrounding cells and is written without windows.
  `Generations.WindowNeighbours` proves that `count_nhood` of the 3 x 3 window computes it.
- **What `run` yields.** `Generations.Run` proves the result is the grid after `cycles`
  generations, whether or not it stopped early.

In these places the code differs from what its docstrings and the usual description of the
game lead one to expect. The model follows the code:

- **Survival and births.** See the three points above.
- **Hard-edge reads.** An out-of-range read with `boundary` false returns `None` (line
  122); it does not raise an error.
- **Block.** The block does not stay still.
- **Hard-edge windows.** An out-of-grid window row is not filled column by column; see
  the third point above.

## Model

| member | source | states |
|---|---|---|
| Universes.New | universe.py:44-61 | the height defaults to the width (cycles to 0, boundary to wrap-around, as parameter defaults); cycles and boundary are stored; the grid has the declared shape and is all dead |
| Universes.Reshape | universe.py:170-184 | a zero argument stands for the universe's own dimension; the result has the requested shape and is all dead |
| Universes.Translate | universe.py:149-161 | without wrap-around the coordinate is unchanged; in-range coordinates are unchanged; with wrap-around every coordinate in [-dimension, 2*dimension) lands in [0, dimension) and equals the coordinate modulo the dimension |
| Universes.Middle | universe.py:163-168 | the empty sequence gives 0 (truncation toward zero); otherwise the result is a valid index with n = 2r+1 or n = 2r+2 |
| Universes.GetItem | universe.py:116-129 | a value is read exactly when the position is in the grid, and it is that cell; outside, None without wrap-around, and with wrap-around a width error when x is too large (even if y is too), else a height error naming y |
| Universes.SetItem | universe.py:131-143 | the write succeeds exactly inside the grid; it sets that cell, keeps every other cell and every other field; outside it fails with the width error first, then the height error, in both boundary modes |
| Universes.SetThenGet | universe.py:116-143 | reading a written cell returns the written value, and every other position reads as before |
| Universes.OutOfRangeAccess | universe.py:119-143 | an out-of-range write always fails; under wrap-around an out-of-range read fails with the same error, and without it the read returns None |
| Neighbourhoods.NhoodMoore | universe.py:186-229 | the loops build exactly the (2*depth+1)-square window; under wrap-around each entry is the grid cell at the window coordinates taken modulo the dimensions |
| Neighbourhoods.MooreRow | universe.py:213-227 | the inner loop fills every entry of one window row and changes no other row |
| Neighbourhoods.WindowTorus | universe.py:201-225 | under wrap-around the window is read entirely from the grid at coordinates modulo the dimensions |
| Neighbourhoods.WindowCentre | universe.py:198-225 | the window's centre (depth, depth) is the queried cell |
| Neighbourhoods.WindowBinary | universe.py:224-225 | under wrap-around, a window of a 0/1 grid contains no sentinel |
| Neighbourhoods.WindowHardEdge | universe.py:204-227 | without wrap-around an in-grid position is read unchanged; an in-grid row with an out-of-grid column holds -1; an out-of-grid row holds -1 in its last entry (index -1 at line 210) and 0 elsewhere |
| Neighbourhoods.Nhood | universe.py:251-259 | a matrix is returned exactly for kind "MOORE", and it is the Moore window (depth 1 and kind "MOORE" are the defaults); any other kind, "vN" included, yields none |
| Neighbourhoods.CountNhood | universe.py:261-280 | the count is defined exactly when the centre, taken from the lengths of rows 0 and 1, can be indexed; it is then the number of positions other than that centre holding 1 |
| Neighbourhoods.CountNhood3 | universe.py:273-280 | on a 3 x 3 matrix the count is the number of the eight non-centre entries equal to 1 |
| Neighbourhoods.WindowCount | universe.py:273-280 | a window of depth at least 1 always has its centre at (depth, depth); its count excludes that centre and is at most (2*depth+1)^2 - 1 |
| Neighbourhoods.DepthZeroCountFails | universe.py:273-274 | counting in a depth-0 window fails, since a 1 x 1 matrix has no row 1 |
| Neighbourhoods.CountUniverse | universe.py:267-280 | with no argument the whole grid is counted, less the cell (Middle(height), Middle(height)) when it is alive; it fails exactly when there are fewer than 2 rows, no columns, or Middle(height) is not a row index |
| Neighbourhoods.WholeGridCountMissesCentre | universe.py:267-280 | whenever that cell is alive, the whole-grid count is the population minus one |
| Neighbourhoods.WholeGridCountExample | universe.py:267-280 | a 3 x 3 grid whose only live cell is the middle one has population 1, yet the count reports 0 |
| Neighbourhoods.TallGridCountFails | universe.py:267-277 | a dead 3 x 10 universe has population 0, yet counting its whole grid fails |
| Neighbourhoods.Population | universe.py:275 | the number of live cells is the size of the set of positions holding 1, and 0 on a dead grid |
| Generations.NhoodCount | universe.py:320-322 | the count taken for a cell, count_nhood of its 3 x 3 window, is always defined and lies in 0..8 |
| Generations.WindowNeighbours | universe.py:320-322 | count_nhood of a cell's 3 x 3 window equals the number of its eight toroidal neighbours holding 1 |
| Generations.FindAlive | universe.py:306-313 | every enumerated position is a live cell, every non-zero cell is enumerated, and the enumeration is empty exactly when the grid is all dead |
| Generations.Generation | universe.py:312-358 | for live cells enumerated in any order, the new grid is the next generation cell by cell, and it holds only 0 and 1 |
| Generations.ProcessCell | universe.py:315-356 | processing one more live cell extends the partial new grid: its final value is "count == 3", and its births are added |
| Generations.Births | universe.py:334-352 | the birth pass visits all nine window entries in row-major order |
| Generations.BirthAt | universe.py:338-352 | one window entry: a dead entry is set alive when the live cell's own window count is 3; nothing else changes |
| Generations.BornWithCounts | universe.py:338-352 | the birth condition on the recorded counts is the same as the birth condition on the textbook neighbour counts |
| Generations.NextGridRule | universe.py:312-358 | every new cell is 0 or 1; a live cell is alive next exactly when it has 3 live neighbours; a dead cell is alive next exactly when it lies in the window of a live cell with 3 live neighbours |
| Generations.DeadIsFixpoint | universe.py:312-358 | one generation leaves an all-dead grid unchanged |
| Generations.EvolveStep | universe.py:358 | generation g+1 is the next generation of generation g |
| Generations.EvolveDeadStays | universe.py:306-310 | once a generation is all dead, every later generation is the same grid |
| Generations.StopsEarly | universe.py:306-310 | stopping at a dead grid loses nothing: it is also the grid after all cycles, and it has no live cell |
| Generations.DeadStart | universe.py:306-310 | from an all-dead start, every generation before the current one is dead |
| Generations.Advance | universe.py:306-358 | one cycle reports death exactly when the grid is all dead, and then leaves it alone; otherwise it yields the next generation |
| Generations.Run | universe.py:289-358 | only the grid changes; at most max(cycles, 0) generations are run; the result is the grid after max(cycles, 0) generations; stopping early happens only on an all-dead grid, and every generation before the last one computed is alive, so the run stops at the first dead generation; a dead start returns the universe unchanged |
| Behaviour.LoneCellCount | universe.py:320-322 | the only live cell of a torus of at least 2 x 2 has no live neighbour |
| Behaviour.IsolatedCellDies | universe.py:332-356 | on a torus of at least 2 x 2, a universe with a single live cell is all dead after one generation |
| Behaviour.BlockCellCount | universe.py:320-322 | in a 2 x 2 block on a 4 x 4 torus, a block cell has 3 live neighbours |
| Behaviour.BlockCornerCount | universe.py:320-322 | the dead cell diagonal to the block has 1 live neighbour |
| Behaviour.CornerBorn | universe.py:338-350 | that dead cell lies in the window of a block cell with 3 live neighbours |
| Behaviour.BlockGrows | universe.py:338-356 | the block is not a still life: that dead cell is born, and the block cell survives |
| Behaviour.BlinkerCounts | universe.py:320-322 | the three blinker cells have 1, 2 and 1 live neighbours |
| Behaviour.BlinkerNoThree | universe.py:320-322 | no live cell of the blinker has exactly 3 live neighbours |
| Behaviour.NoThreeNoLife | universe.py:332-356 | when no live cell has exactly 3 live neighbours, the next generation is all dead |
| Behaviour.BlinkerDies | universe.py:354-356 | the blinker is all dead after one generation, because survival needs exactly 3 |

## Left out

- `conway.py` (the command-line driver), `__str__`, `seed` (an empty hook) and all printing controlled by `quiet`: these are I/O only.
- `nhood_vN`: it fills its matrix but never returns it, so `nhood` with kind "vN" yields nothing. `Neighbourhoods.Nhood` models it as None. Its masking loop is not modelled.
- The exception classes and their message texts. Errors are the datatype `IndexError` (width or height, carrying the offending coordinate).
- The width and height properties are read-only, so assigning them fails in Python. The model keeps them fixed in an immutable datatype.
- `boundary` is passed through `bool()`; the model takes a `bool`. `cycles` is any integer; `range(1, cycles + 1)` is empty for a non-positive one (`Generations.Cycles`).
- Universes.GetItem, Universes.SetItem: coordinates are non-negative. numpy reads a negative index from the end, and slice keys (`self[:]`) are not modelled.
- Neighbourhoods.NhoodMoore: under wrap-around it requires the cell to be in the grid and the depth to be at most each dimension. Beyond that, a single wrap leaves the grid and numpy indexing takes over.
- Neighbourhoods.NhoodMoore: it requires a non-negative depth. For a negative depth `np.zeros` is given the negative size `2 * depth + 1` (lines 198-199) and raises ValueError; that error path is not modelled.
- Universes.SetItem: `alive` is an unbounded integer. The grid is numpy's 64-bit `int` matrix, so a value outside the signed 64-bit range raises OverflowError at line 134, which `except IndexError` does not catch; the model writes such a value and reports success.
- Generations.Run: modelled only under wrap-around. Without it, the window's sentinel column and skipped births at the edges make the next grid depend on numpy's negative indexing, and this is not modelled.
- Generations.Generation: numpy's integer matrix is modelled with unbounded integers. Values written are only 0 and 1, so no overflow arises.
- The order in which scipy's `find` lists the live cells is left open. `Generations.Generation` is proved for every order, and `Generations.FindAlive` produces a row-major one.

## Findings

| source | as written | input that shows it | evidently intended | confidence | as-written member | corrected member |
|---|---|---|---|---|---|---|
| universe.py:267-280 | `count_nhood()` with no argument counts the whole grid but still subtracts one for the "centre" cell (Middle(height), Middle(height)) when it is alive | a 3 x 3 grid whose only live cell is (1, 1): the count is 0 | the number of live cells of the grid | not executed | Neighbourhoods.CountUniverse (with Neighbourhoods.WholeGridCountExample) | Neighbourhoods.Population |
| universe.py:267-277 | `count_nhood()` with no argument takes the "centre" row index Middle(height) from the grid's column count, and indexes the grid with it at line 277 | a 3 x 10 grid: Middle(10) = 4 is not one of its 3 rows, so the call raises IndexError | the number of live cells of the grid, for every shape | not executed | Neighbourhoods.CountUniverse (with Neighbourhoods.TallGridCountFails) | Neighbourhoods.Population |
