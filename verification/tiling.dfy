/**
 The generator as a whole: the name dispatch of `generatePattern` and the
 record stream one pattern writes, every vertex line first and then every
 face line, computed by loops that follow the generators' own loops.
 */
module Tiling {
  import opened Grid
  import opened Shapes
  import opened Emission

  datatype Option<T> = None | Some(value: T)

  /** One line of the OBJ output: the vertex of a grid cell, or a face. */
  datatype Line = Vertex(cell: Cell) | FaceLine(face: Face)

  /** The exact, case-sensitive name under which each pattern is requested. */
  function Name(p: Pattern): string {
    match p
    case Square => "square"
    case Triangle => "triangle"
    case Hexagon => "hexagon"
    case Semi1 => "semi1"
    case Semi2 => "semi2"
    case Semi3 => "semi3"
    case Semi4 => "semi4"
    case Semi5 => "semi5"
    case Semi6 => "semi6"
    case Semi7 => "semi7"
    case Semi8 => "semi8"
  }

  /** The dispatch of `generatePattern`: the first name that matches wins; no match selects nothing. */
  function ParsePattern(name: string): (r: Option<Pattern>)
    ensures r.Some? ==> Name(r.value) == name
    ensures r.None? <==> forall p: Pattern :: Name(p) != name
  {
    if name == "square" then Some(Square)
    else if name == "triangle" then Some(Triangle)
    else if name == "hexagon" then Some(Hexagon)
    else if name == "semi1" then Some(Semi1)
    else if name == "semi2" then Some(Semi2)
    else if name == "semi3" then Some(Semi3)
    else if name == "semi4" then Some(Semi4)
    else if name == "semi5" then Some(Semi5)
    else if name == "semi6" then Some(Semi6)
    else if name == "semi7" then Some(Semi7)
    else if name == "semi8" then Some(Semi8)
    else None
  }

  /** Every pattern is reached by its own name, and by no other pattern's name. */
  lemma {:induction false} ParseName(p: Pattern)
    ensures ParsePattern(Name(p)) == Some(p)
    ensures forall q: Pattern :: Name(q) == Name(p) ==> q == p
  {
    forall q: Pattern | Name(q) == Name(p)
      ensures q == p
    {
      assert ParsePattern(Name(q)) == Some(q);
    }
  }

  /** How many vertex lines a rows-by-cols grid gets: none when either side is not positive. */
  function VertexCount(rows: int, cols: int): nat {
    if rows > 0 && cols > 0 then rows * cols else 0
  }

  /**
   The vertex pass shared by all eleven generators: rows outer, columns inner,
   one vertex per cell. The k-th line (1-based) is the vertex of CellOf(cols, k),
   and its cell's index is k.
   */
  method WriteVertices(rows: int, cols: int) returns (out: seq<Line>)
    ensures |out| == VertexCount(rows, cols)
    ensures forall k :: 0 <= k < |out| ==> out[k].Vertex? && InGrid(rows, cols, out[k].cell.x, out[k].cell.y)
    ensures forall k :: 0 <= k < |out| ==> Index(cols, out[k].cell.x, out[k].cell.y) == k + 1
    ensures forall k :: 0 <= k < |out| ==> cols >= 1 && out[k] == Vertex(CellOf(cols, k + 1))
  {
    out := [];
    var y := 0;
    while y < rows
      invariant 0 <= y && (y <= rows || y == 0)
      invariant |out| == (if cols > 0 then y * cols else 0)
      invariant forall k :: 0 <= k < |out| ==> out[k].Vertex? && InGrid(rows, cols, out[k].cell.x, out[k].cell.y)
      invariant forall k :: 0 <= k < |out| ==> Index(cols, out[k].cell.x, out[k].cell.y) == k + 1
    {
      var x := 0;
      while x < cols
        invariant 0 <= x && (x <= cols || x == 0)
        invariant |out| == (if cols > 0 then y * cols + x else 0)
        invariant forall k :: 0 <= k < |out| ==> out[k].Vertex? && InGrid(rows, cols, out[k].cell.x, out[k].cell.y)
        invariant forall k :: 0 <= k < |out| ==> Index(cols, out[k].cell.x, out[k].cell.y) == k + 1
      {
        out := out + [Vertex(Cell(y, x))];
        x := x + 1;
      }
      y := y + 1;
    }
    forall k | 0 <= k < |out|
      ensures cols >= 1 && out[k] == Vertex(CellOf(cols, k + 1))
    {
      CellOfIndex(rows, cols, out[k].cell.x, out[k].cell.y);
    }
  }

  /** One visit of a face loop: each polygon the cell's residues select, in order. */
  method WriteCell(p: Pattern, s: nat, cols: int, x: int, y: int) returns (faces: seq<Face>)
    ensures faces == Visit(BodyOf(p, s, cols), x, y)
  {
    var shapes := CellShapes(p, s, x, y);
    ghost var all := CellFaces(p, s, cols, x, y);
    faces := [];
    var j := 0;
    while j < |shapes|
      invariant j <= |shapes| == |all|
      invariant faces == all[..j]
    {
      assert all[..j + 1] == all[..j] + [Place(cols, x, y, shapes[j])];
      faces := faces + [Place(cols, x, y, shapes[j])];
      j := j + 1;
    }
    assert all[..j] == all;
    VisitBodyOf(p, s, cols, x, y);
  }

  /** The inner loop of a face loop: columns [x0, x1) of row y, left to right. */
  method WriteRow(p: Pattern, s: nat, cols: int, y: int, x0: int, x1: int) returns (faces: seq<Face>)
    ensures faces == RowWalk(BodyOf(p, s, cols), y, x0, x1)
  {
    ghost var body := BodyOf(p, s, cols);
    faces := [];
    var x := x0;
    while x < x1
      invariant x0 <= x && (x <= x1 || x == x0)
      invariant faces == RowWalk(body, y, x0, x)
    {
      var cell := WriteCell(p, s, cols, x, y);
      RowWalkStep(body, y, x0, x);
      faces := faces + cell;
      x := x + 1;
    }
  }

  /** Face loop `s` of pattern `p`: rows [yFrom, rows - yTrim) from top to bottom. */
  method WriteSweep(p: Pattern, s: nat, rows: int, cols: int) returns (faces: seq<Face>)
    requires s < |Sweeps(p)|
    ensures faces == SweepFaces(p, s, rows, cols)
  {
    var sw := Sweeps(p)[s];
    var y0, y1, x0, x1 := sw.yFrom, rows - sw.yTrim, sw.xFrom, cols - sw.xTrim;
    ghost var body := BodyOf(p, s, cols);
    assert SweepFaces(p, s, rows, cols) == SweepWalk(body, y0, y1, x0, x1);
    faces := [];
    var y := y0;
    while y < y1
      invariant y0 <= y && (y <= y1 || y == y0)
      invariant faces == SweepWalk(body, y0, y, x0, x1)
    {
      var row := WriteRow(p, s, cols, y, x0, x1);
      SweepWalkStep(body, y0, y, x0, x1);
      faces := faces + row;
      y := y + 1;
    }
  }

  /**
   The face pass of pattern `p`: its face loops in turn. Every index it writes
   names a vertex of the grid.
   */
  method WriteFaces(p: Pattern, rows: int, cols: int) returns (fs: seq<Face>)
    ensures fs == Faces(p, rows, cols)
    ensures forall f, k :: f in fs && 0 <= k < |f| ==> 1 <= f[k] <= rows * cols
  {
    fs := [];
    var s := 0;
    while s < |Sweeps(p)|
      invariant s <= |Sweeps(p)|
      invariant fs == FacesUpTo(p, rows, cols, s)
    {
      var sweep := WriteSweep(p, s, rows, cols);
      fs := fs + sweep;
      s := s + 1;
    }
    FacesInRange(p, rows, cols);
  }

  /** The face lines of `fs`, in order. */
  function FaceLines(fs: seq<Face>): (r: seq<Line>)
    ensures |r| == |fs| && forall i :: 0 <= i < |fs| ==> r[i] == FaceLine(fs[i])
  {
    seq(|fs|, i requires 0 <= i < |fs| => FaceLine(fs[i]))
  }

  /**
   The layout of the output: the vertex lines of a rows-by-cols grid, then one
   face line per face, so every face line comes after every vertex line, and a
   face index that names a vertex still names one once the face is a line.
   */
  lemma {:induction false} StreamLayout(rows: int, cols: int, vertices: seq<Line>, fs: seq<Face>, out: seq<Line>)
    requires out == vertices + FaceLines(fs)
    requires |vertices| == VertexCount(rows, cols)
    requires forall k :: 0 <= k < |vertices| ==> cols >= 1 && vertices[k] == Vertex(CellOf(cols, k + 1))
    requires forall f, k :: f in fs && 0 <= k < |f| ==> 1 <= f[k] <= VertexCount(rows, cols)
    ensures |out| == VertexCount(rows, cols) + |fs|
    ensures forall k :: 0 <= k < VertexCount(rows, cols) ==> cols >= 1 && out[k] == Vertex(CellOf(cols, k + 1))
    ensures forall i :: 0 <= i < |fs| ==> out[VertexCount(rows, cols) + i] == FaceLine(fs[i])
    ensures forall i, j :: 0 <= i < j < |out| && out[i].FaceLine? ==> out[j].FaceLine?
    ensures forall i, k :: 0 <= i < |out| && out[i].FaceLine? && 0 <= k < |out[i].face| ==>
      1 <= out[i].face[k] <= VertexCount(rows, cols)
  {
    forall i | 0 <= i < |fs|
      ensures out[VertexCount(rows, cols) + i] == FaceLine(fs[i])
    {
      assert out[|vertices| + i] == FaceLines(fs)[i];
    }
    forall i, k | 0 <= i < |out| && out[i].FaceLine? && 0 <= k < |out[i].face|
      ensures 1 <= out[i].face[k] <= VertexCount(rows, cols)
    {
      var f := fs[i - |vertices|];
      assert out[i].face == f && f in fs;
    }
  }

  /**
   One generator (`square`, `triangle`, … `semi8`): the vertex pass, then
   the face pass, each face index naming one of the vertices written before it.
   */
  method Generate(p: Pattern, rows: int, cols: int) returns (out: seq<Line>)
    ensures |out| == VertexCount(rows, cols) + |Faces(p, rows, cols)|
    ensures forall k :: 0 <= k < VertexCount(rows, cols) ==> cols >= 1 && out[k] == Vertex(CellOf(cols, k + 1))
    ensures forall i :: 0 <= i < |Faces(p, rows, cols)| ==> out[VertexCount(rows, cols) + i] == FaceLine(Faces(p, rows, cols)[i])
    ensures forall i, j :: 0 <= i < j < |out| && out[i].FaceLine? ==> out[j].FaceLine?
    ensures forall i, k :: 0 <= i < |out| && out[i].FaceLine? && 0 <= k < |out[i].face| ==>
      1 <= out[i].face[k] <= VertexCount(rows, cols)
  {
    var vertices := WriteVertices(rows, cols);
    var fs := WriteFaces(p, rows, cols);
    out := vertices + FaceLines(fs);
    assert forall f, k :: f in fs && 0 <= k < |f| ==> 1 <= f[k] <= VertexCount(rows, cols) by {
      DegenerateGridHasNoFaces(p, rows, cols);
    }
    StreamLayout(rows, cols, vertices, fs, out);
  }

  /**
   `generatePattern`: an unknown name writes nothing; a known one runs that
   pattern's generator.
   */
  method GeneratePattern(name: string, rows: int, cols: int) returns (out: seq<Line>)
    ensures ParsePattern(name).None? ==> out == []
    ensures ParsePattern(name).Some? ==>
      |out| == VertexCount(rows, cols) + |Faces(ParsePattern(name).value, rows, cols)|
    ensures ParsePattern(name).Some? ==> forall k :: 0 <= k < VertexCount(rows, cols) ==>
      cols >= 1 && out[k] == Vertex(CellOf(cols, k + 1))
    ensures ParsePattern(name).Some? ==> forall i :: 0 <= i < |Faces(ParsePattern(name).value, rows, cols)| ==>
      out[VertexCount(rows, cols) + i] == FaceLine(Faces(ParsePattern(name).value, rows, cols)[i])
    ensures forall i, j :: 0 <= i < j < |out| && out[i].FaceLine? ==> out[j].FaceLine?
    ensures forall i, k :: 0 <= i < |out| && out[i].FaceLine? && 0 <= k < |out[i].face| ==>
      1 <= out[i].face[k] <= VertexCount(rows, cols)
  {
    match ParsePattern(name)
    case None =>
      out := [];
    case Some(p) =>
      out := Generate(p, rows, cols);
  }
}
