/**
 The implicit rows-by-cols vertex grid that every tiling pattern works on.

 A pattern writes one vertex per grid cell, rows outer and columns inner, so
 the vertex written for cell (y, x) is the (x + y*cols + 1)-th vertex of the
 OBJ file. Faces refer to vertices by that 1-based index.
 */
module Grid {

  /** A grid cell: row `y`, column `x`, named as the generator loops name them. */
  datatype Cell = Cell(y: int, x: int)

  /** A displacement (dx, dy) from the cell a face loop is visiting. */
  datatype Offset = Offset(dx: int, dy: int)

  /** Column x, row y lies inside the rows-by-cols grid. */
  predicate InGrid(rows: int, cols: int, x: int, y: int) {
    0 <= x < cols && 0 <= y < rows
  }

  /** The 1-based OBJ index of the vertex of column x, row y. */
  function Index(cols: int, x: int, y: int): int {
    x + y * cols + 1
  }

  /** The cell whose vertex is the k-th (1-based) vertex record. */
  function CellOf(cols: int, k: int): Cell
    requires cols >= 1
  {
    Cell((k - 1) / cols, (k - 1) % cols)
  }

  lemma {:induction false} MulLeft(a: int, b: int, c: int)
    requires a <= b && c >= 0
    ensures a * c <= b * c
  {
    assert b * c - a * c == (b - a) * c;
  }

  /** Division by a positive divisor has a unique quotient and remainder. */
  lemma {:induction false} DivModUnique(k: int, cols: int, q: int, r: int)
    requires cols >= 1 && 0 <= r < cols && k == q * cols + r
    ensures k / cols == q && k % cols == r
  {
    var q', r' := k / cols, k % cols;
    assert k == q' * cols + r';
    assert (q - q') * cols == r' - r;
    if q > q' {
      MulLeft(1, q - q', cols);
    } else if q < q' {
      MulLeft(1, q' - q, cols);
    }
  }

  /** Every cell of the grid has an index in [1, rows*cols]. */
  lemma {:induction false} IndexInRange(rows: int, cols: int, x: int, y: int)
    requires InGrid(rows, cols, x, y)
    ensures 1 <= Index(cols, x, y) <= rows * cols
  {
    MulLeft(0, y, cols);
    MulLeft(y, rows - 1, cols);
  }

  /** Reading the cell back from the index of an in-grid cell gives that cell. */
  lemma {:induction false} CellOfIndex(rows: int, cols: int, x: int, y: int)
    requires InGrid(rows, cols, x, y)
    ensures CellOf(cols, Index(cols, x, y)) == Cell(y, x)
  {
    DivModUnique(x + y * cols, cols, y, x);
  }

  /** Every index in [1, rows*cols] is the index of exactly the cell CellOf names. */
  lemma {:induction false} IndexOfCell(rows: int, cols: int, k: int)
    requires rows >= 1 && cols >= 1 && 1 <= k <= rows * cols
    ensures InGrid(rows, cols, CellOf(cols, k).x, CellOf(cols, k).y)
    ensures Index(cols, CellOf(cols, k).x, CellOf(cols, k).y) == k
  {
    var q, r := (k - 1) / cols, (k - 1) % cols;
    assert k - 1 == q * cols + r && 0 <= r < cols;
    if q < 0 {
      MulLeft(q, -1, cols);
      assert false;
    }
    if q >= rows {
      MulLeft(rows, q, cols);
      assert false;
    }
  }

  /** Distinct in-grid cells never share a vertex index. */
  lemma {:induction false} IndexInjective(rows: int, cols: int, x: int, y: int, x': int, y': int)
    requires InGrid(rows, cols, x, y) && InGrid(rows, cols, x', y')
    ensures Index(cols, x, y) == Index(cols, x', y') <==> x == x' && y == y'
  {
    if Index(cols, x, y) == Index(cols, x', y') {
      CellOfIndex(rows, cols, x, y);
      CellOfIndex(rows, cols, x', y');
    }
  }
}
