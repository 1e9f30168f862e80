/**
 Facts about individual patterns: where each face of the regular tilings sits
 in the output, which cells of hexagon, semi1 and semi3 emit what, and how
 many faces semi3 writes.
 */
module Patterns {
  import opened Grid
  import opened Shapes
  import opened Emission

  // ---------------------------------------------------------------------------
  // Walks in which every cell emits the same number of faces

  /** n more slots after n*a slots end at n*(a + 1). */
  lemma {:induction false} MulAdd(n: int, a: int, b: int)
    ensures n * a + n * b == n * (a + b)
  {
  }

  lemma {:induction false} MulSucc(n: int, a: int)
    ensures n * a + n == n * (a + 1)
  {
  }

  /** A row whose cells each emit n faces emits n per cell in total. */
  lemma {:induction false} RowWalkSize(body: Body, y: int, x0: int, x1: int, n: nat)
    requires x0 <= x1
    requires forall x :: x0 <= x < x1 ==> |Visit(body, x, y)| == n
    ensures |RowWalk(body, y, x0, x1)| == n * (x1 - x0)
    decreases x1 - x0
  {
    if x1 > x0 {
      RowWalkSize(body, y, x0, x1 - 1, n);
      MulSucc(n, x1 - 1 - x0);
    }
  }

  /** In such a row, face j of cell x is face n*(x - x0) + j of the row. */
  lemma {:induction false} RowWalkAt(body: Body, y: int, x0: int, x1: int, n: nat, x: int, j: int)
    requires x0 <= x < x1 && 0 <= j < n
    requires forall x :: x0 <= x < x1 ==> |Visit(body, x, y)| == n
    ensures 0 <= n * (x - x0) + j < |RowWalk(body, y, x0, x1)|
    ensures RowWalk(body, y, x0, x1)[n * (x - x0) + j] == Visit(body, x, y)[j]
    decreases x1 - x0
  {
    RowWalkSize(body, y, x0, x1 - 1, n);
    RowWalkSize(body, y, x0, x1, n);
    MulLeft(0, x - x0, n);
    if x < x1 - 1 {
      RowWalkAt(body, y, x0, x1 - 1, n, x, j);
    }
  }

  /** A sweep whose rows each emit w faces emits w per row in total. */
  lemma {:induction false} SweepWalkSize(body: Body, y0: int, y1: int, x0: int, x1: int, w: nat)
    requires y0 <= y1
    requires forall y :: y0 <= y < y1 ==> |RowWalk(body, y, x0, x1)| == w
    ensures |SweepWalk(body, y0, y1, x0, x1)| == w * (y1 - y0)
    decreases y1 - y0
  {
    if y1 > y0 {
      SweepWalkSize(body, y0, y1 - 1, x0, x1, w);
      MulSucc(w, y1 - 1 - y0);
    }
  }

  /** In such a sweep, face i of row y is face w*(y - y0) + i of the sweep. */
  lemma {:induction false} SweepWalkAt(body: Body, y0: int, y1: int, x0: int, x1: int, w: nat, y: int, i: int)
    requires y0 <= y < y1 && 0 <= i < w
    requires forall y :: y0 <= y < y1 ==> |RowWalk(body, y, x0, x1)| == w
    ensures 0 <= w * (y - y0) + i < |SweepWalk(body, y0, y1, x0, x1)|
    ensures SweepWalk(body, y0, y1, x0, x1)[w * (y - y0) + i] == RowWalk(body, y, x0, x1)[i]
    decreases y1 - y0
  {
    SweepWalkSize(body, y0, y1 - 1, x0, x1, w);
    SweepWalkSize(body, y0, y1, x0, x1, w);
    MulLeft(0, y - y0, w);
    if y < y1 - 1 {
      SweepWalkAt(body, y0, y1 - 1, x0, x1, w, y, i);
    }
  }

  /** Rows of w cells of n faces each: row a, cell c starts at slot n*(a*w + c). */
  lemma {:induction false} CellSlot(n: int, w: int, a: int, c: int)
    ensures n * w * a + n * c == n * (a * w + c)
  {
    assert n * w * a == n * (a * w);
  }

  /** A sweep whose cells each emit n faces emits n per cell in total. */
  lemma {:induction false} UniformSize(body: Body, y0: int, y1: int, x0: int, x1: int, n: nat)
    requires y0 <= y1 && x0 <= x1
    requires forall x, y :: y0 <= y < y1 && x0 <= x < x1 ==> |Visit(body, x, y)| == n
    ensures |SweepWalk(body, y0, y1, x0, x1)| == n * (x1 - x0) * (y1 - y0)
  {
    forall y | y0 <= y < y1
      ensures |RowWalk(body, y, x0, x1)| == n * (x1 - x0)
    {
      RowWalkSize(body, y, x0, x1, n);
    }
    SweepWalkSize(body, y0, y1, x0, x1, n * (x1 - x0));
  }

  /**
   In a sweep whose cells each emit n faces, face j of cell (y, x) is preceded
   by the n*(x1 - x0) faces of every earlier row and the n faces of every
   earlier cell of its own row.
   */
  lemma {:induction false} UniformAt(body: Body, y0: int, y1: int, x0: int, x1: int, n: nat, x: int, y: int, j: int)
    requires y0 <= y < y1 && x0 <= x < x1 && 0 <= j < n
    requires forall x, y :: y0 <= y < y1 && x0 <= x < x1 ==> |Visit(body, x, y)| == n
    ensures 0 <= n * ((y - y0) * (x1 - x0) + (x - x0)) + j < |SweepWalk(body, y0, y1, x0, x1)|
    ensures SweepWalk(body, y0, y1, x0, x1)[n * ((y - y0) * (x1 - x0) + (x - x0)) + j] == Visit(body, x, y)[j]
  {
    var w, i := n * (x1 - x0), n * (x - x0) + j;
    assert n * ((y - y0) * (x1 - x0) + (x - x0)) + j == w * (y - y0) + i by {
      CellSlot(n, x1 - x0, y - y0, x - x0);
    }
    forall y' | y0 <= y' < y1
      ensures |RowWalk(body, y', x0, x1)| == w
    {
      RowWalkSize(body, y', x0, x1, n);
    }
    RowWalkAt(body, y, x0, x1, n, x, j);
    SweepWalkAt(body, y0, y1, x0, x1, w, y, i);
  }

  /**
   The loop over [0, rows-1) x [0, cols-1) of square and triangle: when every
   cell writes n faces, face j of cell (y, x) is face n*(y*(cols-1) + x) + j.
   */
  lemma {:induction false} GridSlot(body: Body, rows: int, cols: int, n: nat, x: int, y: int, j: int)
    requires 0 <= y < rows - 1 && 0 <= x < cols - 1 && 0 <= j < n
    requires forall x, y :: 0 <= y < rows - 1 && 0 <= x < cols - 1 ==> |Visit(body, x, y)| == n
    ensures 0 <= n * (y * (cols - 1) + x) + j < |SweepWalk(body, 0, rows - 1, 0, cols - 1)|
    ensures SweepWalk(body, 0, rows - 1, 0, cols - 1)[n * (y * (cols - 1) + x) + j] == Visit(body, x, y)[j]
  {
    UniformAt(body, 0, rows - 1, 0, cols - 1, n, x, y, j);
    assert (y - 0) * (cols - 1 - 0) + (x - 0) == y * (cols - 1) + x;
  }

  // ---------------------------------------------------------------------------
  // square and triangle

  /** square writes one quad per cell of [0, rows-1) x [0, cols-1). */
  lemma {:induction false} SquareFaceCount(rows: int, cols: int)
    requires rows >= 1 && cols >= 1
    ensures |Faces(Square, rows, cols)| == (rows - 1) * (cols - 1)
  {
    SingleSweep(Square, rows, cols);
    UniformSize(BodyOf(Square, 0, cols), 0, rows - 1, 0, cols - 1, 1);
  }

  /**
   In row-major order, the quad of cell (y, x) is face y*(cols-1) + x and runs
   (x,y), (x+1,y), (x+1,y+1), (x,y+1).
   */
  lemma {:induction false} SquareFaceAt(rows: int, cols: int, x: int, y: int)
    requires 0 <= y < rows - 1 && 0 <= x < cols - 1
    ensures 0 <= y * (cols - 1) + x < |Faces(Square, rows, cols)|
    ensures Faces(Square, rows, cols)[y * (cols - 1) + x] ==
      [Index(cols, x, y), Index(cols, x + 1, y), Index(cols, x + 1, y + 1), Index(cols, x, y + 1)]
  {
    SquareSlot(rows, cols, x, y);
    SquareCell(cols, x, y);
  }

  /** The face of square cell (y, x) sits at position y*(cols-1) + x. */
  lemma {:induction false} SquareSlot(rows: int, cols: int, x: int, y: int)
    requires 0 <= y < rows - 1 && 0 <= x < cols - 1
    ensures 0 <= y * (cols - 1) + x < |Faces(Square, rows, cols)|
    ensures Faces(Square, rows, cols)[y * (cols - 1) + x] == Visit(BodyOf(Square, 0, cols), x, y)[0]
  {
    var body := BodyOf(Square, 0, cols);
    assert Faces(Square, rows, cols) == SweepWalk(body, 0, rows - 1, 0, cols - 1) by {
      SingleSweep(Square, rows, cols);
    }
    assert forall x, y :: 0 <= y < rows - 1 && 0 <= x < cols - 1 ==> |Visit(body, x, y)| == 1 by {
      SquareSizes(cols);
    }
    GridSlot(body, rows, cols, 1, x, y, 0);
  }

  /** Each square cell writes its quad and nothing else. */
  lemma {:induction false} SquareCell(cols: int, x: int, y: int)
    ensures Visit(BodyOf(Square, 0, cols), x, y) ==
      [[Index(cols, x, y), Index(cols, x + 1, y), Index(cols, x + 1, y + 1), Index(cols, x, y + 1)]]
  {
    assert Visit(BodyOf(Square, 0, cols), x, y) == [Place(cols, x, y, UnitQuad)];
    assert Place(cols, x, y, UnitQuad) ==
      [Index(cols, x, y), Index(cols, x + 1, y), Index(cols, x + 1, y + 1), Index(cols, x, y + 1)];
  }

  /** Every square cell writes one face. */
  lemma {:induction false} SquareSizes(cols: int)
    ensures forall x, y :: |Visit(BodyOf(Square, 0, cols), x, y)| == 1
  {
    forall x, y
      ensures |Visit(BodyOf(Square, 0, cols), x, y)| == 1
    {
      SquareCell(cols, x, y);
    }
  }

  /** triangle writes two triangles per cell of [0, rows-1) x [0, cols-1). */
  lemma {:induction false} TriangleFaceCount(rows: int, cols: int)
    requires rows >= 1 && cols >= 1
    ensures |Faces(Triangle, rows, cols)| == 2 * (rows - 1) * (cols - 1)
  {
    SingleSweep(Triangle, rows, cols);
    TriangleSizes(cols);
    UniformSize(BodyOf(Triangle, 0, cols), 0, rows - 1, 0, cols - 1, 2);
    assert 2 * (cols - 1) * (rows - 1 - 0) == 2 * (rows - 1) * (cols - 1);
  }

  /**
   In row-major order, cell (y, x) writes faces 2k and 2k+1 for k = y*(cols-1) + x:
   first (x,y), (x+1,y), (x,y+1), then (x+1,y), (x+1,y+1), (x,y+1).
   */
  lemma {:induction false} TriangleFacesAt(rows: int, cols: int, x: int, y: int)
    requires 0 <= y < rows - 1 && 0 <= x < cols - 1
    ensures 0 <= 2 * (y * (cols - 1) + x) && 2 * (y * (cols - 1) + x) + 1 < |Faces(Triangle, rows, cols)|
    ensures Faces(Triangle, rows, cols)[2 * (y * (cols - 1) + x)] ==
      [Index(cols, x, y), Index(cols, x + 1, y), Index(cols, x, y + 1)]
    ensures Faces(Triangle, rows, cols)[2 * (y * (cols - 1) + x) + 1] ==
      [Index(cols, x + 1, y), Index(cols, x + 1, y + 1), Index(cols, x, y + 1)]
  {
    TriangleSlot(rows, cols, x, y, 0);
    TriangleSlot(rows, cols, x, y, 1);
    TriangleCell(cols, x, y);
  }

  /** Face j of triangle cell (y, x) sits at position 2*(y*(cols-1) + x) + j. */
  lemma {:induction false} TriangleSlot(rows: int, cols: int, x: int, y: int, j: int)
    requires 0 <= y < rows - 1 && 0 <= x < cols - 1 && 0 <= j < 2
    ensures 0 <= 2 * (y * (cols - 1) + x) + j < |Faces(Triangle, rows, cols)|
    ensures Faces(Triangle, rows, cols)[2 * (y * (cols - 1) + x) + j] == Visit(BodyOf(Triangle, 0, cols), x, y)[j]
  {
    var body := BodyOf(Triangle, 0, cols);
    assert Faces(Triangle, rows, cols) == SweepWalk(body, 0, rows - 1, 0, cols - 1) by {
      SingleSweep(Triangle, rows, cols);
    }
    assert forall x, y :: 0 <= y < rows - 1 && 0 <= x < cols - 1 ==> |Visit(body, x, y)| == 2 by {
      TriangleSizes(cols);
    }
    GridSlot(body, rows, cols, 2, x, y, j);
  }

  /** Every triangle cell writes two faces. */
  lemma {:induction false} TriangleSizes(cols: int)
    ensures forall x, y :: |Visit(BodyOf(Triangle, 0, cols), x, y)| == 2
  {
    forall x, y
      ensures |Visit(BodyOf(Triangle, 0, cols), x, y)| == 2
    {
      TriangleCell(cols, x, y);
    }
  }

  /** Each triangle cell writes the lower triangle, then the upper one. */
  lemma {:induction false} TriangleCell(cols: int, x: int, y: int)
    ensures Visit(BodyOf(Triangle, 0, cols), x, y) == [
      [Index(cols, x, y), Index(cols, x + 1, y), Index(cols, x, y + 1)],
      [Index(cols, x + 1, y), Index(cols, x + 1, y + 1), Index(cols, x, y + 1)]]
  {
    assert Visit(BodyOf(Triangle, 0, cols), x, y) == [Place(cols, x, y, LowerTriangle), Place(cols, x, y, UpperTriangle)];
    assert Place(cols, x, y, LowerTriangle) == [Index(cols, x, y), Index(cols, x + 1, y), Index(cols, x, y + 1)];
    assert Place(cols, x, y, UpperTriangle) == [Index(cols, x + 1, y), Index(cols, x + 1, y + 1), Index(cols, x, y + 1)];
  }

  /** The 2-by-2 triangle grid: two triangles, 1 2 3 and 2 4 3. */
  lemma TriangleTwoByTwo()
    ensures Faces(Triangle, 2, 2) == [[1, 2, 3], [2, 4, 3]]
  {
    var faces := Faces(Triangle, 2, 2);
    assert |faces| == 2 by { TriangleFaceCount(2, 2); }
    assert faces[0] == [1, 2, 3] && faces[1] == [2, 4, 3] by { TriangleFacesAt(2, 2, 0, 0); }
  }

  // ---------------------------------------------------------------------------
  // hexagon

  /**
   hexagon places its hexagon at a cell (y, x) of [0, rows-2) x [0, cols-1)
   exactly when x and y have the same parity, and writes nothing else.
   */
  lemma {:induction false} HexagonFaces(rows: int, cols: int)
    ensures forall y, x :: 0 <= y < rows - 2 && 0 <= x < cols - 1 ==>
      (Place(cols, x, y, TallHexagon) in Faces(Hexagon, rows, cols) <==> x % 2 == y % 2)
    ensures forall f :: f in Faces(Hexagon, rows, cols) ==>
      (exists y, x :: 0 <= y < rows - 2 && 0 <= x < cols - 1 && x % 2 == y % 2
        && f == Place(cols, x, y, TallHexagon))
  {
    forall f | f in Faces(Hexagon, rows, cols)
      ensures exists y, x ::
        0 <= y < rows - 2 && 0 <= x < cols - 1 && x % 2 == y % 2 && f == Place(cols, x, y, TallHexagon)
    {
      HexagonWritten(rows, cols, f);
    }
    forall y, x | 0 <= y < rows - 2 && 0 <= x < cols - 1
      ensures Place(cols, x, y, TallHexagon) in Faces(Hexagon, rows, cols) <==> x % 2 == y % 2
    {
      HexagonPlaced(rows, cols, x, y);
    }
  }

  /** A hexagon cell writes its hexagon when x and y have the same parity, and nothing otherwise. */
  lemma {:induction false} HexagonCellFaces(cols: int, x: int, y: int)
    ensures Visit(BodyOf(Hexagon, 0, cols), x, y) == if x % 2 == y % 2 then [Place(cols, x, y, TallHexagon)] else []
  {
    VisitBodyOf(Hexagon, 0, cols, x, y);
  }

  /** Every written hexagon face is the hexagon of a same-parity cell the loop visits. */
  lemma {:induction false} HexagonWritten(rows: int, cols: int, f: Face)
    requires f in Faces(Hexagon, rows, cols)
    ensures exists y, x ::
      0 <= y < rows - 2 && 0 <= x < cols - 1 && x % 2 == y % 2 && f == Place(cols, x, y, TallHexagon)
  {
    FacesMembers(Hexagon, rows, cols, f);
    var s: nat :| s < |Sweeps(Hexagon)| && EmittedAt(Hexagon, rows, cols, s, f);
    var x, y :| InSweep(Sweep(0, 2, 0, 1), rows, cols, x, y) && f in Visit(BodyOf(Hexagon, 0, cols), x, y);
    HexagonCellFaces(cols, x, y);
  }

  /** The hexagon of a visited cell is written exactly when x and y have the same parity. */
  lemma {:induction false} HexagonPlaced(rows: int, cols: int, x: int, y: int)
    requires 0 <= y < rows - 2 && 0 <= x < cols - 1
    ensures Place(cols, x, y, TallHexagon) in Faces(Hexagon, rows, cols) <==> x % 2 == y % 2
  {
    var f := Place(cols, x, y, TallHexagon);
    if x % 2 == y % 2 {
      assert f in Faces(Hexagon, rows, cols) by {
        HexagonCellFaces(cols, x, y);
        assert InSweep(Sweeps(Hexagon)[0], rows, cols, x, y) && f in Visit(BodyOf(Hexagon, 0, cols), x, y);
        assert EmittedAt(Hexagon, rows, cols, 0, f);
        FacesMembers(Hexagon, rows, cols, f);
      }
    }
    if f in Faces(Hexagon, rows, cols) {
      assert x % 2 == y % 2 by {
        HexagonWritten(rows, cols, f);
        var y', x' :| 0 <= y' < rows - 2 && 0 <= x' < cols - 1 && x' % 2 == y' % 2
          && f == Place(cols, x', y', TallHexagon);
        assert f[0] == Index(cols, x, y) == Index(cols, x', y');
        IndexInjective(rows, cols, x, y, x', y');
      }
    }
  }

  // ---------------------------------------------------------------------------
  // semi1

  /**
   The seven-way case table of semi1, keyed on i = (x + 3y) mod 7: nothing for
   i in {1, 3}; the lower triangle for 0; both triangles for 2, 5, 6; the
   upper triangle then the hexagon for 4.
   */
  lemma {:induction false} Semi1Cases(x: int, y: int)
    ensures (x + 3 * y) % 7 in {1, 3} ==> Semi1Cell(x, y) == []
    ensures (x + 3 * y) % 7 == 0 ==> Semi1Cell(x, y) == [LowerTriangle]
    ensures (x + 3 * y) % 7 in {2, 5, 6} ==> Semi1Cell(x, y) == [LowerTriangle, UpperTriangle]
    ensures (x + 3 * y) % 7 == 4 ==> Semi1Cell(x, y) == [UpperTriangle, Semi1Hexagon]
  {
  }

  // ---------------------------------------------------------------------------
  // semi3

  /** A semi3 row writes one quad per cell when even and two triangles per cell when odd. */
  lemma {:induction false} Semi3RowSize(cols: int, y: int)
    requires cols >= 1
    ensures |RowWalk(BodyOf(Semi3, 0, cols), y, 0, cols - 1)| == (cols - 1) * (if y % 2 == 0 then 1 else 2)
  {
    var body, n := BodyOf(Semi3, 0, cols), if y % 2 == 0 then 1 else 2;
    forall x
      ensures |Visit(body, x, y)| == n
    {
      assert |Visit(body, x, y)| == |Semi3Cell(x, y)|;
    }
    RowWalkSize(body, y, 0, cols - 1, n);
  }

  /** semi3 writes one quad per cell of an even row and two triangles per cell of an odd row. */
  lemma {:induction false} Semi3RowsCount(cols: int, h: int)
    requires cols >= 1 && h >= 0
    ensures |SweepWalk(BodyOf(Semi3, 0, cols), 0, h, 0, cols - 1)| == (cols - 1) * (h + h / 2)
  {
    var body := BodyOf(Semi3, 0, cols);
    if h == 0 {
      assert SweepWalk(body, 0, h, 0, cols - 1) == [];
    } else {
      assert |SweepWalk(body, 0, h, 0, cols - 1)| ==
        |SweepWalk(body, 0, h - 1, 0, cols - 1)| + |RowWalk(body, h - 1, 0, cols - 1)|;
      Semi3RowsCount(cols, h - 1);
      Semi3RowSize(cols, h - 1);
      AlternatingStep(cols - 1, h);
    }
  }

  /** Adding row h-1 (one unit when even, two when odd) to the first h-1 rows gives h + h/2 units. */
  lemma {:induction false} AlternatingStep(w: int, h: int)
    requires h > 0
    ensures w * ((h - 1) + (h - 1) / 2) + w * (if (h - 1) % 2 == 0 then 1 else 2) == w * (h + h / 2)
  {
    var k := if (h - 1) % 2 == 0 then 1 else 2;
    assert (h - 1) + (h - 1) / 2 + k == h + h / 2;
    MulAdd(w, (h - 1) + (h - 1) / 2, k);
  }

  /** A semi3 cell writes its quad on an even row, and on an odd row its lower then its upper triangle. */
  lemma {:induction false} Semi3CellFaces(cols: int, x: int, y: int)
    ensures Visit(BodyOf(Semi3, 0, cols), x, y) ==
      if y % 2 == 0 then [Place(cols, x, y, UnitQuad)]
      else [Place(cols, x, y, LowerTriangle), Place(cols, x, y, UpperTriangle)]
  {
    VisitBodyOf(Semi3, 0, cols, x, y);
  }

  /** The polygons semi3 uses: the unit quad and the two triangles that split it. */
  predicate Semi3Shape(sh: Shape) {
    sh == UnitQuad || sh == LowerTriangle || sh == UpperTriangle
  }

  /**
   Every semi3 polygon ends on the vertex below its cell, so two placed semi3
   polygons that coincide belong to the same cell.
   */
  lemma {:induction false} Semi3SameCell(rows: int, cols: int, x: int, y: int, sh: Shape, x': int, y': int, sh': Shape)
    requires 0 <= y < rows - 1 && 0 <= x < cols - 1 && 0 <= y' < rows - 1 && 0 <= x' < cols - 1
    requires Semi3Shape(sh) && Semi3Shape(sh')
    requires Place(cols, x, y, sh) == Place(cols, x', y', sh')
    ensures x == x' && y == y'
  {
    var f := Place(cols, x, y, sh);
    assert f[|sh| - 1] == Index(cols, x, y + 1);
    assert f[|sh'| - 1] == Index(cols, x', y' + 1);
    IndexInjective(rows, cols, x, y + 1, x', y' + 1);
  }

  /** `f` is a face of cell (y, x) under semi3's rule: the quad on an even row, either triangle on an odd one. */
  predicate Semi3Face(cols: int, x: int, y: int, f: Face) {
    if y % 2 == 0 then f == Place(cols, x, y, UnitQuad)
    else f == Place(cols, x, y, LowerTriangle) || f == Place(cols, x, y, UpperTriangle)
  }

  /** Every face of the visited cell (y, x) is written. */
  lemma {:induction false} Semi3Emits(rows: int, cols: int, x: int, y: int)
    requires 0 <= y < rows - 1 && 0 <= x < cols - 1
    ensures forall f :: f in Visit(BodyOf(Semi3, 0, cols), x, y) ==> f in Faces(Semi3, rows, cols)
  {
    forall f | f in Visit(BodyOf(Semi3, 0, cols), x, y)
      ensures f in Faces(Semi3, rows, cols)
    {
      assert InSweep(Sweeps(Semi3)[0], rows, cols, x, y);
      assert EmittedAt(Semi3, rows, cols, 0, f);
      FacesMembers(Semi3, rows, cols, f);
    }
  }

  /** Every face semi3 writes is the quad of an even-row cell or a triangle of an odd-row cell it visits. */
  lemma {:induction false} Semi3Written(rows: int, cols: int, f: Face)
    requires f in Faces(Semi3, rows, cols)
    ensures exists y, x :: 0 <= y < rows - 1 && 0 <= x < cols - 1 && Semi3Face(cols, x, y, f)
  {
    FacesMembers(Semi3, rows, cols, f);
    var s: nat :| s < |Sweeps(Semi3)| && EmittedAt(Semi3, rows, cols, s, f);
    var x, y :| InSweep(Sweep(0, 1, 0, 1), rows, cols, x, y) && f in Visit(BodyOf(Semi3, 0, cols), x, y);
    Semi3CellFaces(cols, x, y);
    assert Semi3Face(cols, x, y, f);
  }

  /** The polygon `sh` of a visited cell is written exactly when the row's parity selects it. */
  lemma {:induction false} Semi3Placed(rows: int, cols: int, x: int, y: int, sh: Shape)
    requires 0 <= y < rows - 1 && 0 <= x < cols - 1
    requires Semi3Shape(sh)
    ensures Place(cols, x, y, sh) in Faces(Semi3, rows, cols) <==> (sh == UnitQuad <==> y % 2 == 0)
  {
    var f := Place(cols, x, y, sh);
    if sh == UnitQuad <==> y % 2 == 0 {
      assert f in Faces(Semi3, rows, cols) by {
        Semi3CellFaces(cols, x, y);
        assert f in Visit(BodyOf(Semi3, 0, cols), x, y);
        Semi3Emits(rows, cols, x, y);
      }
    }
    if f in Faces(Semi3, rows, cols) {
      assert sh == UnitQuad <==> y % 2 == 0 by {
        Semi3Written(rows, cols, f);
        var y', x' :| 0 <= y' < rows - 1 && 0 <= x' < cols - 1 && Semi3Face(cols, x', y', f);
        var sh' := if y' % 2 == 0 then UnitQuad else if f == Place(cols, x', y', LowerTriangle) then LowerTriangle else UpperTriangle;
        assert f == Place(cols, x', y', sh');
        Semi3SameCell(rows, cols, x, y, sh, x', y', sh');
        assert |sh| == |sh'|;
      }
    }
  }

  /**
   semi3 writes, for each visited cell (y, x) of [0, rows-1) x [0, cols-1), its
   quad exactly when y is even and its two triangles exactly when y is odd, and
   nothing else.
   */
  lemma {:induction false} Semi3Faces(rows: int, cols: int)
    ensures forall y, x :: 0 <= y < rows - 1 && 0 <= x < cols - 1 ==>
      (Place(cols, x, y, UnitQuad) in Faces(Semi3, rows, cols) <==> y % 2 == 0)
    ensures forall y, x :: 0 <= y < rows - 1 && 0 <= x < cols - 1 ==>
      (Place(cols, x, y, LowerTriangle) in Faces(Semi3, rows, cols) <==> y % 2 == 1)
    ensures forall y, x :: 0 <= y < rows - 1 && 0 <= x < cols - 1 ==>
      (Place(cols, x, y, UpperTriangle) in Faces(Semi3, rows, cols) <==> y % 2 == 1)
    ensures forall f :: f in Faces(Semi3, rows, cols) ==>
      (exists y, x :: 0 <= y < rows - 1 && 0 <= x < cols - 1 && Semi3Face(cols, x, y, f))
  {
    forall y, x | 0 <= y < rows - 1 && 0 <= x < cols - 1
      ensures Place(cols, x, y, UnitQuad) in Faces(Semi3, rows, cols) <==> y % 2 == 0
      ensures Place(cols, x, y, LowerTriangle) in Faces(Semi3, rows, cols) <==> y % 2 == 1
      ensures Place(cols, x, y, UpperTriangle) in Faces(Semi3, rows, cols) <==> y % 2 == 1
    {
      Semi3Placed(rows, cols, x, y, UnitQuad);
      Semi3Placed(rows, cols, x, y, LowerTriangle);
      Semi3Placed(rows, cols, x, y, UpperTriangle);
    }
    forall f | f in Faces(Semi3, rows, cols)
      ensures exists y, x :: 0 <= y < rows - 1 && 0 <= x < cols - 1 && Semi3Face(cols, x, y, f)
    {
      Semi3Written(rows, cols, f);
    }
  }

  /** semi3 on rows-by-cols writes (cols-1) faces per even row and 2(cols-1) per odd row of [0, rows-1). */
  lemma {:induction false} Semi3FaceCount(rows: int, cols: int)
    requires rows >= 1 && cols >= 1
    ensures |Faces(Semi3, rows, cols)| == (cols - 1) * ((rows - 1) + (rows - 1) / 2)
  {
    SingleSweep(Semi3, rows, cols);
    Semi3RowsCount(cols, rows - 1);
  }
}
