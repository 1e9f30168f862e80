/**
 The face tables of the eleven tilings: for each pattern, the cell ranges its
 face loops walk and, for each visited cell, the polygons it emits as literal
 lists of offsets, selected by residues of the cell's column x and row y.
 */
module Shapes {
  import opened Grid

  /** A polygon as the ordered list of offsets its vertices lie at. */
  type Shape = seq<Offset>

  datatype Pattern =
    | Square | Triangle | Hexagon
    | Semi1 | Semi2 | Semi3 | Semi4 | Semi5 | Semi6 | Semi7 | Semi8

  /**
   The cell range of one face loop: rows y in [yFrom, rows - yTrim) and
   columns x in [xFrom, cols - xTrim), both ascending.
   */
  datatype Sweep = Sweep(yFrom: nat, yTrim: nat, xFrom: nat, xTrim: nat)

  /** The cell (x, y) is visited by the loop `sw` on a rows-by-cols grid. */
  predicate InSweep(sw: Sweep, rows: int, cols: int, x: int, y: int) {
    sw.yFrom <= y < rows - sw.yTrim && sw.xFrom <= x < cols - sw.xTrim
  }

  /** The face loops of each pattern, in the order they run. */
  function Sweeps(p: Pattern): seq<Sweep> {
    match p
    case Square => [Sweep(0, 1, 0, 1)]
    case Triangle => [Sweep(0, 1, 0, 1)]
    case Hexagon => [Sweep(0, 2, 0, 1)]
    case Semi1 => [Sweep(1, 1, 1, 1)]
    case Semi2 => [Sweep(1, 2, 1, 2), Sweep(0, 1, 0, 1)]
    case Semi3 => [Sweep(0, 1, 0, 1)]
    case Semi4 => [Sweep(0, 2, 1, 1)]
    case Semi5 => [Sweep(0, 1, 1, 1)]
    case Semi6 => [Sweep(1, 4, 0, 3)]
    case Semi7 => [Sweep(2, 3, 2, 2)]
    case Semi8 => [Sweep(3, 4, 3, 3)]
  }

  /** Every face loop stops at least one row and one column short of the far edges. */
  lemma {:induction false} SweepsTrimmed(p: Pattern)
    ensures forall sw :: sw in Sweeps(p) ==> sw.yTrim >= 1 && sw.xTrim >= 1
  {
  }

  // Polygons shared by several patterns.
  const UnitQuad: Shape := [Offset(0, 0), Offset(1, 0), Offset(1, 1), Offset(0, 1)]
  const LowerTriangle: Shape := [Offset(0, 0), Offset(1, 0), Offset(0, 1)]
  const UpperTriangle: Shape := [Offset(1, 0), Offset(1, 1), Offset(0, 1)]
  const BackTriangle: Shape := [Offset(0, 0), Offset(0, 1), Offset(-1, 1)]
  const RightTriangle: Shape := [Offset(0, 0), Offset(1, 0), Offset(1, 1)]
  const LeftTriangle: Shape := [Offset(0, 0), Offset(1, 1), Offset(0, 1)]
  /** The hexagon of semi7 and semi8, spanning four rows. */
  const StretchedHexagon: Shape :=
    [Offset(0, 0), Offset(1, 1), Offset(1, 2), Offset(0, 3), Offset(0, 2), Offset(0, 1)]

  // Polygons used by one pattern only.
  const TallHexagon: Shape :=
    [Offset(0, 0), Offset(1, 0), Offset(1, 1), Offset(1, 2), Offset(0, 2), Offset(0, 1)]
  const Semi1Hexagon: Shape :=
    [Offset(1, 0), Offset(0, 1), Offset(-1, 1), Offset(-1, 0), Offset(0, -1), Offset(1, -1)]
  const Semi2Octagon: Shape :=
    [Offset(0, 0), Offset(1, -1), Offset(2, -1), Offset(1, 0),
     Offset(1, 1), Offset(0, 2), Offset(-1, 2), Offset(0, 1)]
  const Semi4Hexagon: Shape :=
    [Offset(0, 0), Offset(1, 0), Offset(1, 1), Offset(0, 2), Offset(-1, 2), Offset(-1, 1)]
  const Semi6Dodecagon: Shape :=
    [Offset(1, 0), Offset(2, -1), Offset(3, -1), Offset(2, 0), Offset(2, 1), Offset(2, 2),
     Offset(2, 3), Offset(1, 4), Offset(0, 4), Offset(1, 3), Offset(0, 2), Offset(0, 1)]
  const Semi7Quad: Shape := [Offset(0, 0), Offset(2, -2), Offset(2, -1), Offset(1, 1)]
  const Semi7Triangle: Shape := [Offset(1, 1), Offset(2, -1), Offset(2, 1)]
  const Semi7Rhombus: Shape := [Offset(0, 0), Offset(-1, 2), Offset(-1, 3), Offset(-1, 1)]
  const Semi7SmallTriangle: Shape := [Offset(-1, 0), Offset(0, 0), Offset(-2, 2)]
  const Semi8QuadA: Shape := [Offset(0, 0), Offset(-3, 2), Offset(-3, 3), Offset(-1, 1)]
  const Semi8QuadB: Shape := [Offset(0, 1), Offset(-1, 3), Offset(-2, 2), Offset(0, 0)]
  const Semi8Dodecagon: Shape :=
    [Offset(0, 0), Offset(1, -2), Offset(2, -3), Offset(3, -3), Offset(3, -2), Offset(1, 0),
     Offset(1, 1), Offset(-1, 3), Offset(-1, 4), Offset(-2, 4), Offset(-3, 3), Offset(0, 1)]

  /** The polygons of one `if` of a face loop: emitted when its condition holds. */
  function When(c: bool, shapes: seq<Shape>): seq<Shape> {
    if c then shapes else []
  }

  function HexagonCell(x: int, y: int): seq<Shape> {
    When((y % 2 == 0 && x % 2 == 0) || (y % 2 == 1 && x % 2 == 1), [TallHexagon])
  }

  function Semi1Cell(x: int, y: int): seq<Shape> {
    var i := (x + 3 * y) % 7;
    When(i == 0 || i == 2 || i >= 5, [LowerTriangle])
    + When(i == 2 || i >= 4, [UpperTriangle])
    + When(i == 4, [Semi1Hexagon])
  }

  function Semi2OctagonCell(x: int, y: int): seq<Shape> {
    When(x % 2 == 1 && y % 2 == 0, [Semi2Octagon])
  }

  function Semi2SquareCell(x: int, y: int): seq<Shape> {
    When(x % 2 == 0 && y % 2 == 0, [UnitQuad])
  }

  function Semi3Cell(x: int, y: int): seq<Shape> {
    if y % 2 == 0 then [UnitQuad] else [LowerTriangle, UpperTriangle]
  }

  function Semi4Cell(x: int, y: int): seq<Shape> {
    When(x % 2 == 0 && y % 2 == 0, [LowerTriangle])
    + When(x % 2 == 0 && y % 2 == 1, [BackTriangle])
    + When(x % 2 == 1 && y % 2 == 0, [Semi4Hexagon])
  }

  function Semi5Cell(x: int, y: int): seq<Shape> {
    When(x % 2 == 0 && y % 2 == 0, [UnitQuad, BackTriangle])
    + When(x % 2 == 1 && y % 2 == 0, [LowerTriangle])
    + When(x % 2 == 0 && y % 2 == 1, [RightTriangle, LeftTriangle])
    + When(x % 2 == 1 && y % 2 == 1, [UnitQuad])
  }

  function Semi6Cell(x: int, y: int): seq<Shape> {
    When(x % 2 == 0 && y % 4 == 0, [Semi6Dodecagon, LowerTriangle])
    + When(x % 2 == 0 && y % 4 == 2, [LeftTriangle])
  }

  function Semi7Cell(x: int, y: int): seq<Shape> {
    When(x % 2 == 0 && y % 4 == 0, [StretchedHexagon, Semi7Quad, Semi7Triangle])
    + When(x % 2 == 1 && y % 4 == 1, [UnitQuad])
    + When(x % 2 == 1 && y % 4 == 2, [Semi7Rhombus])
    + When(x % 2 == 0 && y % 4 == 2, [Semi7SmallTriangle])
  }

  function Semi8Cell(x: int, y: int): seq<Shape> {
    When(x % 2 == 0 && y % 4 == 0, [StretchedHexagon])
    + When(x % 4 == 1 && y % 4 == 1, [UnitQuad])
    + When(x % 4 == 3 && y % 4 == 2, [Semi8QuadA])
    + When(x % 4 == 0 && y % 4 == 2, [Semi8QuadB])
    + When(x % 4 == 3 && y % 4 == 1, [Semi8Dodecagon])
  }

  /** The polygons face loop `s` of pattern `p` emits at cell (x, y), in emission order. */
  function CellShapes(p: Pattern, s: nat, x: int, y: int): seq<Shape> {
    match p
    case Square => [UnitQuad]
    case Triangle => [LowerTriangle, UpperTriangle]
    case Hexagon => HexagonCell(x, y)
    case Semi1 => Semi1Cell(x, y)
    case Semi2 => if s == 0 then Semi2OctagonCell(x, y) else Semi2SquareCell(x, y)
    case Semi3 => Semi3Cell(x, y)
    case Semi4 => Semi4Cell(x, y)
    case Semi5 => Semi5Cell(x, y)
    case Semi6 => Semi6Cell(x, y)
    case Semi7 => Semi7Cell(x, y)
    case Semi8 => Semi8Cell(x, y)
  }

  /** Every polygon face loop `s` of pattern `p` can emit, whatever the cell. */
  function Table(p: Pattern, s: nat): seq<Shape> {
    match p
    case Square => [UnitQuad]
    case Triangle => [LowerTriangle, UpperTriangle]
    case Hexagon => [TallHexagon]
    case Semi1 => [LowerTriangle, UpperTriangle, Semi1Hexagon]
    case Semi2 => if s == 0 then [Semi2Octagon] else [UnitQuad]
    case Semi3 => [UnitQuad, LowerTriangle, UpperTriangle]
    case Semi4 => [LowerTriangle, BackTriangle, Semi4Hexagon]
    case Semi5 => [UnitQuad, BackTriangle, LowerTriangle, RightTriangle, LeftTriangle]
    case Semi6 => [Semi6Dodecagon, LowerTriangle, LeftTriangle]
    case Semi7 => [StretchedHexagon, Semi7Quad, Semi7Triangle, UnitQuad, Semi7Rhombus, Semi7SmallTriangle]
    case Semi8 => [StretchedHexagon, UnitQuad, Semi8QuadA, Semi8QuadB, Semi8Dodecagon]
  }

  /** The offset `o` from any cell the loop `sw` visits stays inside the grid. */
  predicate OffsetCovered(sw: Sweep, o: Offset) {
    0 <= sw.xFrom + o.dx && o.dx <= sw.xTrim && 0 <= sw.yFrom + o.dy && o.dy <= sw.yTrim
  }

  /** The loop's margins keep every vertex of `sh` inside the grid. */
  predicate Covered(sw: Sweep, sh: Shape)
    decreases |sh|
  {
    |sh| == 0 || (OffsetCovered(sw, sh[0]) && Covered(sw, sh[1..]))
  }

  lemma {:induction false} CoveredAt(sw: Sweep, sh: Shape, k: int)
    requires Covered(sw, sh) && 0 <= k < |sh|
    ensures OffsetCovered(sw, sh[k])
    decreases |sh|
  {
    if k > 0 {
      CoveredAt(sw, sh[1..], k - 1);
    }
  }

  /** A polygon split in two is covered when both parts are. */
  lemma {:induction false} CoveredConcat(sw: Sweep, a: Shape, b: Shape)
    requires Covered(sw, a) && Covered(sw, b)
    ensures Covered(sw, a + b)
    decreases |a|
  {
    if |a| == 0 {
      assert a + b == b;
    } else {
      CoveredConcat(sw, a[1..], b);
      assert (a + b)[0] == a[0] && (a + b)[1..] == a[1..] + b;
    }
  }

  /** No offset, hence no vertex, appears twice in `sh`. */
  predicate DistinctOffsets(sh: Shape) {
    forall i, j :: 0 <= i < j < |sh| ==> sh[i] != sh[j]
  }

  /** Whatever a cell emits is drawn from its loop's table. */
  lemma {:induction false} CellShapesInTable(p: Pattern, s: nat, x: int, y: int)
    ensures forall sh :: sh in CellShapes(p, s, x, y) ==> sh in Table(p, s)
  {
    match p
    case Square =>
    case Triangle =>
    case Hexagon =>
    case Semi1 =>
    case Semi2 =>
    case Semi3 =>
    case Semi4 =>
    case Semi5 =>
    case Semi6 =>
    case Semi7 =>
    case Semi8 =>
  }

  /** The loop's margins cover every polygon of `shapes`. */
  predicate AllCovered(sw: Sweep, shapes: seq<Shape>)
    decreases |shapes|
  {
    |shapes| == 0 || (Covered(sw, shapes[0]) && AllCovered(sw, shapes[1..]))
  }

  lemma {:induction false} AllCoveredIn(sw: Sweep, shapes: seq<Shape>, sh: Shape)
    requires AllCovered(sw, shapes) && sh in shapes
    ensures Covered(sw, sh)
    decreases |shapes|
  {
    if sh != shapes[0] {
      assert sh in shapes[1..];
      AllCoveredIn(sw, shapes[1..], sh);
    }
  }

  /** Each loop's margins cover the offset span of every polygon it can emit. */
  lemma {:induction false} TableCovered(p: Pattern, s: nat)
    requires s < |Sweeps(p)|
    ensures forall sh :: sh in Table(p, s) ==> Covered(Sweeps(p)[s], sh)
  {
    TableAllCovered(p, s);
    forall sh | sh in Table(p, s)
      ensures Covered(Sweeps(p)[s], sh)
    {
      AllCoveredIn(Sweeps(p)[s], Table(p, s), sh);
    }
  }

  lemma {:induction false} TableAllCovered(p: Pattern, s: nat)
    requires s < |Sweeps(p)|
    ensures AllCovered(Sweeps(p)[s], Table(p, s))
  {
    match p
    case Square => SquareCovered();
    case Triangle => TriangleCovered();
    case Hexagon => HexagonCovered();
    case Semi1 => Semi1Covered();
    case Semi2 => Semi2Covered(s);
    case Semi3 => Semi3Covered();
    case Semi4 => Semi4Covered();
    case Semi5 => Semi5Covered();
    case Semi6 => Semi6Covered();
    case Semi7 => Semi7Covered();
    case Semi8 => Semi8Covered();
  }

  // One lemma per pattern keeps each table small enough to check by evaluation.

  lemma SquareCovered()
    ensures AllCovered(Sweeps(Square)[0], Table(Square, 0))
  {
  }

  lemma TriangleCovered()
    ensures AllCovered(Sweeps(Triangle)[0], Table(Triangle, 0))
  {
  }

  lemma HexagonCovered()
    ensures AllCovered(Sweeps(Hexagon)[0], Table(Hexagon, 0))
  {
  }

  lemma Semi1Covered()
    ensures AllCovered(Sweeps(Semi1)[0], Table(Semi1, 0))
  {
  }

  lemma {:induction false} Semi2Covered(s: nat)
    requires s < |Sweeps(Semi2)|
    ensures AllCovered(Sweeps(Semi2)[s], Table(Semi2, s))
  {
  }

  lemma Semi3Covered()
    ensures AllCovered(Sweeps(Semi3)[0], Table(Semi3, 0))
  {
  }

  lemma Semi4Covered()
    ensures AllCovered(Sweeps(Semi4)[0], Table(Semi4, 0))
  {
  }

  lemma Semi5Covered()
    ensures AllCovered(Sweeps(Semi5)[0], Table(Semi5, 0))
  {
  }

  lemma Semi6Covered()
    ensures AllCovered(Sweeps(Semi6)[0], Table(Semi6, 0))
  {
    Semi6DodecagonCovered();
    Semi6TrianglesCovered();
    assert AllCovered(Sweep(1, 4, 0, 3), [Semi6Dodecagon, LowerTriangle, LeftTriangle]);
  }

  lemma Semi6TrianglesCovered()
    ensures AllCovered(Sweep(1, 4, 0, 3), [LowerTriangle, LeftTriangle])
  {
  }

  lemma Semi6DodecagonCovered()
    ensures Covered(Sweep(1, 4, 0, 3), Semi6Dodecagon)
  {
    var sw := Sweep(1, 4, 0, 3);
    var right := [Offset(1, 0), Offset(2, -1), Offset(3, -1), Offset(2, 0), Offset(2, 1), Offset(2, 2)];
    var left := [Offset(2, 3), Offset(1, 4), Offset(0, 4), Offset(1, 3), Offset(0, 2), Offset(0, 1)];
    assert Semi6Dodecagon == right + left;
    assert Covered(sw, right);
    assert Covered(sw, left);
    CoveredConcat(sw, right, left);
  }

  lemma Semi7Covered()
    ensures AllCovered(Sweeps(Semi7)[0], Table(Semi7, 0))
  {
  }

  lemma Semi8Covered()
    ensures AllCovered(Sweeps(Semi8)[0], Table(Semi8, 0))
  {
    var sw := Sweep(3, 4, 3, 3);
    Semi8DodecagonCovered();
    Semi8QuadsCovered();
    assert AllCovered(sw, [Semi8Dodecagon]);
    assert AllCovered(sw, [Semi8QuadB, Semi8Dodecagon]);
    assert AllCovered(sw, [Semi8QuadA, Semi8QuadB, Semi8Dodecagon]);
    assert AllCovered(sw, [UnitQuad, Semi8QuadA, Semi8QuadB, Semi8Dodecagon]);
  }

  lemma Semi8QuadsCovered()
    ensures Covered(Sweep(3, 4, 3, 3), StretchedHexagon)
    ensures Covered(Sweep(3, 4, 3, 3), UnitQuad)
    ensures Covered(Sweep(3, 4, 3, 3), Semi8QuadA)
    ensures Covered(Sweep(3, 4, 3, 3), Semi8QuadB)
  {
  }

  lemma Semi8DodecagonCovered()
    ensures Covered(Sweep(3, 4, 3, 3), Semi8Dodecagon)
  {
    var sw := Sweep(3, 4, 3, 3);
    var upper := [Offset(0, 0), Offset(1, -2), Offset(2, -3), Offset(3, -3), Offset(3, -2), Offset(1, 0)];
    var lower := [Offset(1, 1), Offset(-1, 3), Offset(-1, 4), Offset(-2, 4), Offset(-3, 3), Offset(0, 1)];
    assert Semi8Dodecagon == upper + lower;
    assert Covered(sw, upper);
    assert Covered(sw, lower);
    CoveredConcat(sw, upper, lower);
  }

  /** Polygons have 3, 4, 6, 8 or 12 vertices. */
  lemma {:induction false} TableArities(p: Pattern, s: nat)
    ensures forall sh :: sh in Table(p, s) ==> |sh| in {3, 4, 6, 8, 12}
  {
  }

  /** No polygon of any table lists the same offset twice. */
  lemma {:induction false} TableDistinct(p: Pattern, s: nat)
    ensures forall sh :: sh in Table(p, s) ==> DistinctOffsets(sh)
  {
    match p
    case Square =>
    case Triangle =>
    case Hexagon =>
    case Semi1 =>
    case Semi2 =>
    case Semi3 =>
    case Semi4 =>
    case Semi5 =>
    case Semi6 => Semi6DodecagonDistinct();
    case Semi7 =>
    case Semi8 => Semi8DodecagonDistinct();
  }

  lemma Semi6DodecagonDistinct()
    ensures DistinctOffsets(Semi6Dodecagon)
  {
  }

  lemma Semi8DodecagonDistinct()
    ensures DistinctOffsets(Semi8Dodecagon)
  {
  }
}
