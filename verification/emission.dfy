/**
 The face pass of a pattern: its loops walk their cell ranges row by row,
 column by column, and write the faces each cell's residues select, each
 face as the OBJ indices of its offsets from that cell.
 */
module Emission {
  import opened Grid
  import opened Shapes

  /** A face as written: the 1-based indices of its vertices, in order. */
  type Face = seq<int>

  /** The indices of polygon `sh` placed at column x, row y. */
  function Place(cols: int, x: int, y: int, sh: Shape): Face {
    seq(|sh|, k requires 0 <= k < |sh| => Index(cols, x + sh[k].dx, y + sh[k].dy))
  }

  /** The faces loop `s` of pattern `p` writes while visiting cell (x, y). */
  function CellFaces(p: Pattern, s: nat, cols: int, x: int, y: int): seq<Face> {
    var shapes := CellShapes(p, s, x, y);
    seq(|shapes|, j requires 0 <= j < |shapes| => Place(cols, x, y, shapes[j]))
  }

  /** The body of a face loop: the faces it writes at each cell (x, y). */
  type Body = (int, int) -> seq<Face>

  /** What loop body `body` writes at cell (x, y). */
  function Visit(body: Body, x: int, y: int): seq<Face> {
    body(x, y)
  }

  /** The body of loop `s` of pattern `p`. */
  function BodyOf(p: Pattern, s: nat, cols: int): Body {
    (x: int, y: int) => CellFaces(p, s, cols, x, y)
  }

  /** The faces written while the inner loop runs over columns [x0, x1) of row y. */
  function RowWalk(body: Body, y: int, x0: int, x1: int): seq<Face>
    decreases x1 - x0
  {
    if x1 <= x0 then [] else RowWalk(body, y, x0, x1 - 1) + Visit(body, x1 - 1, y)
  }

  /** The faces written while the outer loop runs over rows [y0, y1). */
  function SweepWalk(body: Body, y0: int, y1: int, x0: int, x1: int): seq<Face>
    decreases y1 - y0
  {
    if y1 <= y0 then [] else SweepWalk(body, y0, y1 - 1, x0, x1) + RowWalk(body, y1 - 1, x0, x1)
  }

  /** One more column extends the row by that cell's faces. */
  lemma {:induction false} RowWalkStep(body: Body, y: int, x0: int, x: int)
    requires x0 <= x
    ensures RowWalk(body, y, x0, x + 1) == RowWalk(body, y, x0, x) + Visit(body, x, y)
  {
  }

  /** One more row extends the walk by that row's faces. */
  lemma {:induction false} SweepWalkStep(body: Body, y0: int, y: int, x0: int, x1: int)
    requires y0 <= y
    ensures SweepWalk(body, y0, y + 1, x0, x1) == SweepWalk(body, y0, y, x0, x1) + RowWalk(body, y, x0, x1)
  {
  }

  /** The faces written by loop `s` of pattern `p` on a rows-by-cols grid. */
  function SweepFaces(p: Pattern, s: nat, rows: int, cols: int): seq<Face>
    requires s < |Sweeps(p)|
  {
    var sw := Sweeps(p)[s];
    SweepWalk(BodyOf(p, s, cols), sw.yFrom, rows - sw.yTrim, sw.xFrom, cols - sw.xTrim)
  }

  /** The faces written by the first n loops of pattern `p`. */
  function FacesUpTo(p: Pattern, rows: int, cols: int, n: nat): seq<Face>
    requires n <= |Sweeps(p)|
  {
    if n == 0 then [] else FacesUpTo(p, rows, cols, n - 1) + SweepFaces(p, n - 1, rows, cols)
  }

  /** Every face pattern `p` writes, in the order it writes them. */
  function Faces(p: Pattern, rows: int, cols: int): seq<Face> {
    FacesUpTo(p, rows, cols, |Sweeps(p)|)
  }

  /** A pattern with a single face loop writes exactly that loop's faces. */
  lemma {:induction false} SingleSweep(p: Pattern, rows: int, cols: int)
    requires |Sweeps(p)| == 1
    ensures Faces(p, rows, cols) == SweepFaces(p, 0, rows, cols)
  {
    assert FacesUpTo(p, rows, cols, 1) == FacesUpTo(p, rows, cols, 0) + SweepFaces(p, 0, rows, cols);
  }

  /** Loop body `body` writes `f` at one of the cells loop `sw` visits. */
  ghost predicate WalkEmits(body: Body, sw: Sweep, rows: int, cols: int, f: Face) {
    exists x: int, y: int :: InSweep(sw, rows, cols, x, y) && f in Visit(body, x, y)
  }

  /** `f` is a polygon face loop `s` of `p` emits at one of the cells it visits. */
  ghost predicate EmittedAt(p: Pattern, rows: int, cols: int, s: nat, f: Face)
    requires s < |Sweeps(p)|
  {
    WalkEmits(BodyOf(p, s, cols), Sweeps(p)[s], rows, cols, f)
  }

  /** The order-free description of the face pass: some face loop of `p` emits `f`. */
  ghost predicate Emitted(p: Pattern, rows: int, cols: int, f: Face) {
    exists s: nat :: s < |Sweeps(p)| && EmittedAt(p, rows, cols, s, f)
  }

  // ---------------------------------------------------------------------------
  // Which faces are written

  lemma {:induction false} RowWalkMembers(body: Body, y: int, x0: int, x1: int, f: Face)
    ensures f in RowWalk(body, y, x0, x1) <==>
      exists x :: x0 <= x < x1 && f in Visit(body, x, y)
    decreases x1 - x0
  {
    if x1 > x0 {
      RowWalkMembers(body, y, x0, x1 - 1, f);
      if f in Visit(body, x1 - 1, y) {
        assert x0 <= x1 - 1 < x1;
      }
    }
  }

  lemma {:induction false} SweepWalkMembers(body: Body, y0: int, y1: int, x0: int, x1: int, f: Face)
    ensures f in SweepWalk(body, y0, y1, x0, x1) <==>
      exists x, y :: y0 <= y < y1 && x0 <= x < x1 && f in Visit(body, x, y)
    decreases y1 - y0
  {
    if y1 > y0 {
      SweepWalkMembers(body, y0, y1 - 1, x0, x1, f);
      RowWalkMembers(body, y1 - 1, x0, x1, f);
      if f in RowWalk(body, y1 - 1, x0, x1) {
        var x :| x0 <= x < x1 && f in Visit(body, x, y1 - 1);
        assert y0 <= y1 - 1 < y1;
      }
      if exists x, y :: y0 <= y < y1 && x0 <= x < x1 && f in Visit(body, x, y) {
        var x, y :| y0 <= y < y1 && x0 <= x < x1 && f in Visit(body, x, y);
        if y == y1 - 1 {
          assert f in RowWalk(body, y1 - 1, x0, x1);
        }
      }
    }
  }

  /** The walk of loop `sw` writes exactly what its body writes at the cells `sw` visits. */
  lemma {:induction false} SweepInMembers(body: Body, sw: Sweep, rows: int, cols: int, f: Face)
    ensures f in SweepWalk(body, sw.yFrom, rows - sw.yTrim, sw.xFrom, cols - sw.xTrim) <==>
      WalkEmits(body, sw, rows, cols, f)
  {
    SweepWalkMembers(body, sw.yFrom, rows - sw.yTrim, sw.xFrom, cols - sw.xTrim, f);
  }

  /** What the lambda body of loop `s` writes at (x, y) is that loop's cell rule. */
  lemma {:induction false} VisitBodyOf(p: Pattern, s: nat, cols: int, x: int, y: int)
    ensures Visit(BodyOf(p, s, cols), x, y) == CellFaces(p, s, cols, x, y)
  {
  }

  /** One face loop writes exactly the faces it emits at the cells it visits. */
  lemma {:induction false} SweepFacesMembers(p: Pattern, s: nat, rows: int, cols: int, f: Face)
    requires s < |Sweeps(p)|
    ensures f in SweepFaces(p, s, rows, cols) <==> EmittedAt(p, rows, cols, s, f)
  {
    var sw, body := Sweeps(p)[s], BodyOf(p, s, cols);
    assert SweepFaces(p, s, rows, cols) == SweepWalk(body, sw.yFrom, rows - sw.yTrim, sw.xFrom, cols - sw.xTrim);
    assert EmittedAt(p, rows, cols, s, f) == WalkEmits(body, sw, rows, cols, f);
    SweepInMembers(body, sw, rows, cols, f);
  }

  lemma {:induction false} FacesUpToMembers(p: Pattern, rows: int, cols: int, n: nat, f: Face)
    requires n <= |Sweeps(p)|
    ensures f in FacesUpTo(p, rows, cols, n) <==> exists s: nat :: s < n && EmittedAt(p, rows, cols, s, f)
  {
    if n > 0 {
      FacesUpToMembers(p, rows, cols, n - 1, f);
      SweepFacesMembers(p, n - 1, rows, cols, f);
    }
  }

  /** The row-major walk writes exactly the faces the cell rules emit. */
  lemma {:induction false} FacesMembers(p: Pattern, rows: int, cols: int, f: Face)
    ensures f in Faces(p, rows, cols) <==> Emitted(p, rows, cols, f)
  {
    FacesUpToMembers(p, rows, cols, |Sweeps(p)|, f);
  }

  /** A written face is some table polygon placed at a cell the loop visits. */
  lemma {:induction false} EmittedShape(p: Pattern, rows: int, cols: int, f: Face)
    returns (s: nat, x: int, y: int, sh: Shape)
    requires f in Faces(p, rows, cols)
    ensures s < |Sweeps(p)| && InSweep(Sweeps(p)[s], rows, cols, x, y)
    ensures sh in Table(p, s) && Covered(Sweeps(p)[s], sh) && f == Place(cols, x, y, sh)
  {
    FacesMembers(p, rows, cols, f);
    s :| s < |Sweeps(p)| && EmittedAt(p, rows, cols, s, f);
    x, y :| InSweep(Sweeps(p)[s], rows, cols, x, y) && f in Visit(BodyOf(p, s, cols), x, y);
    var shapes := CellShapes(p, s, x, y);
    assert exists j :: 0 <= j < |shapes| && f == Place(cols, x, y, shapes[j]) by {
      VisitBodyOf(p, s, cols, x, y);
    }
    var j :| 0 <= j < |shapes| && f == Place(cols, x, y, shapes[j]);
    sh := shapes[j];
    assert sh in Table(p, s) by {
      assert sh in shapes;
      CellShapesInTable(p, s, x, y);
    }
    assert Covered(Sweeps(p)[s], sh) by {
      TableCovered(p, s);
    }
  }

  // ---------------------------------------------------------------------------
  // Properties of every pattern

  /** Placing a covered polygon at a visited cell touches only in-grid vertices. */
  lemma {:induction false} PlaceInGrid(sw: Sweep, rows: int, cols: int, x: int, y: int, sh: Shape, k: int)
    requires InSweep(sw, rows, cols, x, y) && Covered(sw, sh) && 0 <= k < |sh|
    ensures InGrid(rows, cols, x + sh[k].dx, y + sh[k].dy)
  {
    CoveredAt(sw, sh, k);
  }

  /** Each index of a covered polygon placed at a visited cell is a vertex index. */
  lemma {:induction false} PlaceInRange(sw: Sweep, rows: int, cols: int, x: int, y: int, sh: Shape, k: int)
    requires InSweep(sw, rows, cols, x, y) && Covered(sw, sh) && 0 <= k < |sh|
    ensures 1 <= Place(cols, x, y, sh)[k] <= rows * cols
  {
    PlaceInGrid(sw, rows, cols, x, y, sh, k);
    IndexInRange(rows, cols, x + sh[k].dx, y + sh[k].dy);
  }

  /** Every index of every face lies in [1, rows*cols]. */
  lemma {:induction false} FacesInRange(p: Pattern, rows: int, cols: int)
    ensures forall f, k :: f in Faces(p, rows, cols) && 0 <= k < |f| ==> 1 <= f[k] <= rows * cols
  {
    forall f, k | f in Faces(p, rows, cols) && 0 <= k < |f|
      ensures 1 <= f[k] <= rows * cols
    {
      var s, x, y, sh := EmittedShape(p, rows, cols, f);
      PlaceInRange(Sweeps(p)[s], rows, cols, x, y, sh, k);
    }
  }

  /** Faces are triangles, quads, hexagons, octagons or dodecagons. */
  lemma {:induction false} FaceArities(p: Pattern, rows: int, cols: int)
    ensures forall f :: f in Faces(p, rows, cols) ==> |f| in {3, 4, 6, 8, 12}
  {
    forall f | f in Faces(p, rows, cols)
      ensures |f| in {3, 4, 6, 8, 12}
    {
      var s, x, y, sh := EmittedShape(p, rows, cols, f);
      TableArities(p, s);
    }
  }

  /** A polygon with distinct offsets, placed inside the grid, has distinct indices. */
  lemma {:induction false} PlaceDistinct(sw: Sweep, rows: int, cols: int, x: int, y: int, sh: Shape)
    requires InSweep(sw, rows, cols, x, y) && Covered(sw, sh) && DistinctOffsets(sh)
    ensures forall i, j :: 0 <= i < j < |sh| ==> Place(cols, x, y, sh)[i] != Place(cols, x, y, sh)[j]
  {
    forall i, j | 0 <= i < j < |sh|
      ensures Place(cols, x, y, sh)[i] != Place(cols, x, y, sh)[j]
    {
      PlaceInGrid(sw, rows, cols, x, y, sh, i);
      PlaceInGrid(sw, rows, cols, x, y, sh, j);
      IndexInjective(rows, cols, x + sh[i].dx, y + sh[i].dy, x + sh[j].dx, y + sh[j].dy);
    }
  }

  /** No face lists the same vertex twice. */
  lemma {:induction false} FaceIndicesDistinct(p: Pattern, rows: int, cols: int)
    ensures forall f, i, j :: f in Faces(p, rows, cols) && 0 <= i < j < |f| ==> f[i] != f[j]
  {
    forall f | f in Faces(p, rows, cols)
      ensures forall i, j :: 0 <= i < j < |f| ==> f[i] != f[j]
    {
      var s, x, y, sh := EmittedShape(p, rows, cols, f);
      TableDistinct(p, s);
      PlaceDistinct(Sweeps(p)[s], rows, cols, x, y, sh);
    }
  }

  /** A grid less than two rows high or two columns wide gets no faces from any pattern. */
  lemma {:induction false} DegenerateGridHasNoFaces(p: Pattern, rows: int, cols: int)
    ensures rows <= 1 || cols <= 1 ==> Faces(p, rows, cols) == []
  {
    if (rows <= 1 || cols <= 1) && Faces(p, rows, cols) != [] {
      var s, x, y, sh := EmittedShape(p, rows, cols, Faces(p, rows, cols)[0]);
      SweepsTrimmed(p);
      assert false;
    }
  }
}
