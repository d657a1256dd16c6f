/** Two-dimensional integer matrices (the numpy arrays of the universe), and the
    counting of live entries in them. A matrix `m` is indexed `m[x][y]`. */
module Grids {
  import opened Results

  type Matrix = seq<seq<int>>

  /** `m` has `rows` rows of `cols` entries each. */
  predicate IsMatrix(m: Matrix, rows: int, cols: int) {
    |m| == rows && forall r :: 0 <= r < |m| ==> |m[r]| == cols
  }

  predicate InBounds(m: Matrix, x: int, y: int) {
    0 <= x < |m| && 0 <= y < |m[x]|
  }

  /** Every entry is DEAD (0) or ALIVE (1). */
  predicate Binary(m: Matrix) {
    forall x, y | 0 <= x < |m| && 0 <= y < |m[x]| :: m[x][y] == 0 || m[x][y] == 1
  }

  /** Every entry is 0. */
  predicate AllZero(m: Matrix) {
    forall x, y | 0 <= x < |m| && 0 <= y < |m[x]| :: m[x][y] == 0
  }

  /** `np.zeros(shape=(rows, cols), dtype=int)`. */
  function Zeros(rows: nat, cols: nat): (m: Matrix)
    ensures IsMatrix(m, rows, cols)
    ensures AllZero(m)
  {
    seq(rows, _ => seq(cols, _ => 0))
  }

  /** Writes `v` at an index that is known to be in range. */
  function Store(m: Matrix, x: int, y: int, v: int): (r: Matrix)
    requires InBounds(m, x, y)
    ensures |r| == |m|
    ensures forall i :: 0 <= i < |m| ==> |r[i]| == |m[i]|
    ensures r[x][y] == v
    ensures forall i, j | 0 <= i < |m| && 0 <= j < |m[i]| && (i != x || j != y) :: r[i][j] == m[i][j]
  {
    m[x := m[x][y := v]]
  }

  /** numpy item assignment `m[x, y] = v` at non-negative indices: it fails
      (IndexError, here `None`) exactly when an index is out of range, and
      otherwise changes that one entry only. */
  function Put(m: Matrix, x: nat, y: nat, v: int): (r: Option<Matrix>)
    ensures r.Some? <==> InBounds(m, x, y)
    ensures r.Some? ==> |r.value| == |m|
    ensures r.Some? ==> forall i :: 0 <= i < |m| ==> |r.value[i]| == |m[i]|
    ensures r.Some? ==> r.value[x][y] == v
    ensures r.Some? ==> forall i, j | 0 <= i < |m| && 0 <= j < |m[i]| && (i != x || j != y) :: r.value[i][j] == m[i][j]
  {
    if InBounds(m, x, y) then Some(Store(m, x, y, v)) else None
  }

  /** Entry-wise equality of two matrices of the same shape is equality. */
  lemma MatrixExt(a: Matrix, b: Matrix, rows: nat, cols: nat)
    requires IsMatrix(a, rows, cols) && IsMatrix(b, rows, cols)
    requires forall i, j | 0 <= i < rows && 0 <= j < cols :: a[i][j] == b[i][j]
    ensures a == b
  {
    forall i | 0 <= i < rows
      ensures a[i] == b[i]
    {
      assert forall j | 0 <= j < cols :: a[i][j] == b[i][j];
    }
  }

  // ---------------------------------------------------------------------------
  // Counting ALIVE entries: `(m == 1).sum()`

  /** 1 for an entry equal to 1 (ALIVE), 0 for anything else. */
  function One(v: int): nat { if v == 1 then 1 else 0 }

  /** Number of entries of `row` equal to 1. */
  function OnesInRow(row: seq<int>): nat
  {
    if |row| == 0 then 0
    else OnesInRow(row[..|row| - 1]) + One(row[|row| - 1])
  }

  /** Number of entries of `m` equal to 1, summed row by row. */
  function CountOnes(m: Matrix): nat
  {
    if |m| == 0 then 0
    else CountOnes(m[..|m| - 1]) + OnesInRow(m[|m| - 1])
  }

  lemma OnesInRow3(row: seq<int>)
    requires |row| == 3
    ensures OnesInRow(row) == One(row[0]) + One(row[1]) + One(row[2])
  {
    var p2 := row[..2];
    var p1 := p2[..1];
    assert p1[..0] == [];
    assert OnesInRow(p1) == One(row[0]);
    assert OnesInRow(p2) == OnesInRow(p1) + One(row[1]);
    assert OnesInRow(row) == OnesInRow(p2) + One(row[2]);
  }

  /** The count of 1s of a 3 x 3 matrix, entry by entry. */
  lemma CountOnes3(m: Matrix)
    requires IsMatrix(m, 3, 3)
    ensures CountOnes(m) == One(m[0][0]) + One(m[0][1]) + One(m[0][2])
                          + One(m[1][0]) + One(m[1][1]) + One(m[1][2])
                          + One(m[2][0]) + One(m[2][1]) + One(m[2][2])
  {
    var p2 := m[..2];
    var p1 := p2[..1];
    assert p1[..0] == [];
    OnesInRow3(m[0]);
    OnesInRow3(m[1]);
    OnesInRow3(m[2]);
    assert CountOnes(p1) == OnesInRow(m[0]);
    assert CountOnes(p2) == CountOnes(p1) + OnesInRow(m[1]);
    assert CountOnes(m) == CountOnes(p2) + OnesInRow(m[2]);
  }

  /** The positions of the entries equal to 1 in row `k` whose content is `row`. */
  ghost function RowOnes(row: seq<int>, k: int): set<(int, int)>
  {
    set c | 0 <= c < |row| && row[c] == 1 :: (k, c)
  }

  /** The positions of the entries of `m` equal to 1. */
  ghost function OnesOf(m: Matrix): set<(int, int)>
  {
    set i, j | 0 <= i < |m| && 0 <= j < |m[i]| && m[i][j] == 1 :: (i, j)
  }

  /** All positions of `m`. */
  ghost function Positions(m: Matrix): set<(int, int)>
  {
    set i, j | 0 <= i < |m| && 0 <= j < |m[i]| :: (i, j)
  }

  ghost function RowPositions(len: nat, k: int): set<(int, int)>
  {
    set c | 0 <= c < len :: (k, c)
  }

  lemma {:induction false} RowOnesCard(row: seq<int>, k: int)
    ensures |RowOnes(row, k)| == OnesInRow(row)
  {
    if |row| == 0 {
      assert RowOnes(row, k) == {};
    } else {
      var last := |row| - 1;
      var p := row[..last];
      RowOnesCard(p, k);
      if row[last] == 1 {
        assert RowOnes(row, k) == RowOnes(p, k) + {(k, last)};
      } else {
        assert RowOnes(row, k) == RowOnes(p, k);
      }
    }
  }

  /** The row-by-row sum counts exactly the positions holding a 1. */
  lemma {:induction false} CountOnesCard(m: Matrix)
    ensures CountOnes(m) == |OnesOf(m)|
  {
    if |m| > 0 {
      var last := |m| - 1;
      var p := m[..last];
      CountOnesCard(p);
      RowOnesCard(m[last], last);
      assert OnesOf(m) == OnesOf(p) + RowOnes(m[last], last);
      assert OnesOf(p) !! RowOnes(m[last], last);
    } else {
      assert OnesOf(m) == {};
    }
  }

  lemma {:induction false} RowPositionsCard(len: nat, k: int)
    ensures |RowPositions(len, k)| == len
  {
    if len == 0 {
      assert RowPositions(len, k) == {};
    } else {
      RowPositionsCard(len - 1, k);
      assert RowPositions(len, k) == RowPositions(len - 1, k) + {(k, len - 1)};
    }
  }

  /** A `rows` x `cols` matrix has `rows * cols` positions. */
  lemma {:induction false} PositionsCard(m: Matrix, rows: nat, cols: nat)
    requires IsMatrix(m, rows, cols)
    ensures |Positions(m)| == rows * cols
  {
    if rows > 0 {
      var p := m[..rows - 1];
      assert IsMatrix(p, rows - 1, cols);
      PositionsCard(p, rows - 1, cols);
      RowPositionsCard(cols, rows - 1);
      PositionsSplit(m, rows, cols);
      MulStep(rows, cols);
    } else {
      assert Positions(m) == {};
    }
  }

  lemma MulStep(rows: int, cols: int)
    ensures (rows - 1) * cols + cols == rows * cols
  {
  }

  /** The positions of a matrix are those of all but its last row, and those of the last row. */
  lemma PositionsSplit(m: Matrix, rows: nat, cols: nat)
    requires IsMatrix(m, rows, cols) && rows > 0
    ensures |Positions(m)| == |Positions(m[..rows - 1])| + |RowPositions(cols, rows - 1)|
  {
    var p := m[..rows - 1];
    var top := RowPositions(cols, rows - 1);
    forall q | q in Positions(m) ensures q in Positions(p) + top {
      var i, j :| 0 <= i < |m| && 0 <= j < |m[i]| && q == (i, j);
      if i < rows - 1 { assert p[i] == m[i]; }
    }
    forall q | q in Positions(p) + top ensures q in Positions(m) {
      if q in top {
        assert m[rows - 1][q.1] == m[rows - 1][q.1];
      } else {
        var i, j :| 0 <= i < |p| && 0 <= j < |p[i]| && q == (i, j);
        assert m[i] == p[i];
      }
    }
    assert Positions(m) == Positions(p) + top;
    assert Positions(p) !! top;
  }

  /** At most `rows * cols - 1` positions other than a given one hold a 1. */
  lemma OnesBesidesBound(m: Matrix, rows: nat, cols: nat, c: (int, int))
    requires IsMatrix(m, rows, cols) && 0 <= c.0 < rows && 0 <= c.1 < cols
    ensures |OnesOf(m) - {c}| <= rows * cols - 1
  {
    PositionsCard(m, rows, cols);
    var a := OnesOf(m) - {c};
    var b := Positions(m) - {c};
    assert c in Positions(m);
    assert |b| == rows * cols - 1;
    assert a <= b;
    assert b == a + (b - a);
  }

}
