# Tiling generator: face connectivity of the eleven tilings

`tiling` writes an OBJ mesh of one of eleven planar tilings: `square`,
`triangle`, `hexagon` and the semi-regular `semi1` … `semi8`. Every pattern
works on an implicit rows-by-cols vertex grid. It first writes one vertex per
grid cell, rows outer and columns inner, so cell (y, x) is vertex
`x + y*cols + 1`. It then runs one or two face loops. Each face loop walks a
cell range trimmed by a per-pattern margin. At each cell it tests residues
of x and y (mod 2, mod 4, or `(x + 3y) mod 7` for semi1). Each case that
matches writes a polygon given as a fixed list of (dx, dy) offsets, which
become vertex indices. `generatePattern` picks the generator by name.

The model keeps the integer part of this and drops the float coordinates:

- `grid.dfy` (module `Grid`) covers the vertex grid, the 1-based index and its inverse.
- `shapes.dfy` (module `Shapes`) holds:
  - each pattern's face loops as `Sweep` margins;
  - every polygon as a literal offset list;
  - each face loop's residue case table as a function of (x, y). It follows the source's sequence of `if`s, one `When` per `if`, in source order.
- `emission.dfy` (module `Emission`) walks each loop row-major to give the exact face sequence `Faces(p, rows, cols)`. It also proves what holds for every pattern:
  - indices in range;
  - arities;
  - distinct indices within a face;
  - no faces on degenerate grids.
- `patterns.dfy` (module `Patterns`) has facts about single patterns: square and triangle face positions, the hexagon parity rule, the semi1 case table, and the semi3 row rule with its face count.
- `tiling.dfy` (module `Tiling`) holds the name dispatch, plus methods whose loops mirror the generators' loops and yield the output line stream.

C's `%` truncates toward zero and Dafny's is Euclidean. They agree here because every cell a face loop visits has x ≥ 0 and y ≥ 0.

## Model

| member | source | states |
|---|---|---|
| `Grid.IndexInRange` | open/core/tilings/tiling.cpp:176-179 | The index `x + y*cols + 1` of any cell inside the grid lies in [1, rows*cols]. |
| `Grid.CellOfIndex` | open/core/tilings/tiling.cpp:160-169 | The row-major vertex pass puts cell (y, x) at line `x + y*cols + 1`. Reading line k back as `((k-1)/cols, (k-1)%cols)` gives that cell again. |
| `Grid.IndexOfCell` | open/core/tilings/tiling.cpp:160-169 | Every line k in [1, rows*cols] is the vertex of an in-grid cell, and that cell's index is k. So the vertex lines and the grid cells correspond one to one. |
| `Grid.IndexInjective` | open/core/tilings/tiling.cpp:176-179 | Two in-grid cells have the same index exactly when they are the same cell. |
| `Shapes.TableCovered` | open/core/tilings/tiling.cpp:172-827 | For every face loop of every pattern, the loop's margins cover every polygon it can emit. From any visited cell, each offset lands inside the grid. |
| `Shapes.SquareCovered` | open/core/tilings/tiling.cpp:172-181 | square visits y in [0, rows-1) and x in [0, cols-1). Its quad's offsets stay inside the grid. |
| `Shapes.TriangleCovered` | open/core/tilings/tiling.cpp:205-217 | triangle's two triangles stay inside the grid from every cell of [0, rows-1) x [0, cols-1). |
| `Shapes.HexagonCovered` | open/core/tilings/tiling.cpp:241-256 | hexagon's hexagon spans rows y..y+2. The loop stops at rows-2, which keeps it inside the grid. |
| `Shapes.Semi1Covered` | open/core/tilings/tiling.cpp:280-314 | semi1's triangles and its hexagon reach one cell in every direction. The loop's one-cell margin on all four sides keeps them inside the grid. |
| `Shapes.Semi2Covered` | open/core/tilings/tiling.cpp:338-369 | semi2's octagon (dx in [-1, 2], dy in [-1, 2]) fits the first loop's margins [1, rows-2) x [1, cols-2). Its square fits the second loop's margins. |
| `Shapes.Semi3Covered` | open/core/tilings/tiling.cpp:392-411 | semi3's quad and both triangles stay inside the grid from every cell of [0, rows-1) x [0, cols-1). |
| `Shapes.Semi4Covered` | open/core/tilings/tiling.cpp:438-467 | semi4's polygons (dx in [-1, 1], dy in [0, 2]) fit the loop's margins y in [0, rows-2), x in [1, cols-1). |
| `Shapes.Semi5Covered` | open/core/tilings/tiling.cpp:492-535 | semi5's quads and triangles (dx in [-1, 1], dy in [0, 1]) fit the loop's margins y in [0, rows-1), x in [1, cols-1). |
| `Shapes.Semi6Covered` | open/core/tilings/tiling.cpp:581-615 | semi6's dodecagon (dx in [0, 3], dy in [-1, 4]) and its triangles fit the loop's margins y in [1, rows-4), x in [0, cols-3). |
| `Shapes.Semi7Covered` | open/core/tilings/tiling.cpp:661-710 | Every semi7 polygon (dx in [-2, 2], dy in [-2, 3]) fits the loop's margins y in [2, rows-3), x in [2, cols-2). |
| `Shapes.Semi8Covered` | open/core/tilings/tiling.cpp:772-827 | Every semi8 polygon (dx in [-3, 3], dy in [-3, 4]) fits the loop's margins y in [3, rows-4), x in [3, cols-3). |
| `Shapes.Semi8DodecagonCovered` | open/core/tilings/tiling.cpp:810-824 | The semi8 dodecagon, the widest polygon of all, fits the margins (3, 4, 3, 3) of its loop. |
| `Shapes.TableArities` | open/core/tilings/tiling.cpp:172-827 | Every polygon a face loop can emit has 3, 4, 6, 8 or 12 vertices. |
| `Shapes.TableDistinct` | open/core/tilings/tiling.cpp:172-827 | No polygon of any pattern lists the same offset twice. This includes the octagon and both dodecagons. |
| `Emission.FacesMembers` | open/core/tilings/tiling.cpp:172-827 | The row-major walk writes a face exactly when some face loop of the pattern emits it at some cell that loop visits. This holds in both directions. |
| `Emission.SweepFacesMembers` | open/core/tilings/tiling.cpp:172-827 | A single face loop writes a face exactly when some cell inside the loop's margins emits that face. |
| `Emission.EmittedShape` | open/core/tilings/tiling.cpp:172-827 | Every written face is a polygon of its loop's table. That polygon is placed at a visited cell, and the loop's margins cover it. |
| `Emission.FacesInRange` | open/core/tilings/tiling.cpp:172-827 | For every pattern and every grid size, every face index lies in [1, rows*cols]. |
| `Emission.FaceArities` | open/core/tilings/tiling.cpp:172-827 | Every written face is a triangle, quad, hexagon, octagon or dodecagon. |
| `Emission.FaceIndicesDistinct` | open/core/tilings/tiling.cpp:172-827 | No written face repeats a vertex index. |
| `Emission.DegenerateGridHasNoFaces` | open/core/tilings/tiling.cpp:172-774 | Every face loop stops at least one row and one column short of the edge. So a grid at most one row high or one column wide gets no faces from any pattern. |
| `Patterns.UniformAt` | open/core/tilings/tiling.cpp:172-181 | In a row-major walk where every cell emits n faces, face j of cell (y, x) comes after n faces for each earlier cell: n*((y-y0)*(x1-x0) + (x-x0)) + j. |
| `Patterns.SquareFaceCount` | open/core/tilings/tiling.cpp:172-181 | square writes exactly (rows-1)*(cols-1) faces. |
| `Patterns.SquareFaceAt` | open/core/tilings/tiling.cpp:172-181 | The face at position y*(cols-1) + x is the quad of cell (y, x): i(x,y), i(x+1,y), i(x+1,y+1), i(x,y+1). |
| `Patterns.TriangleFaceCount` | open/core/tilings/tiling.cpp:205-217 | triangle writes exactly 2*(rows-1)*(cols-1) faces. |
| `Patterns.TriangleFacesAt` | open/core/tilings/tiling.cpp:205-217 | Cell (y, x) writes faces 2k and 2k+1, where k = y*(cols-1) + x. Face 2k is i(x,y), i(x+1,y), i(x,y+1); face 2k+1 is i(x+1,y), i(x+1,y+1), i(x,y+1). |
| `Patterns.TriangleTwoByTwo` | open/core/tilings/tiling.cpp:205-217 | On a 2-by-2 grid, triangle writes exactly the faces 1 2 3 and 2 4 3. |
| `Patterns.HexagonWritten` | open/core/tilings/tiling.cpp:241-256 | Every face hexagon writes is the hexagon of a visited cell (y in [0, rows-2), x in [0, cols-1)) whose x and y have the same parity. |
| `Patterns.HexagonPlaced` | open/core/tilings/tiling.cpp:241-256 | For a visited cell, its hexagon is among the written faces exactly when x and y have the same parity. This holds in both directions. |
| `Patterns.HexagonFaces` | open/core/tilings/tiling.cpp:241-256 | The hexagon of a visited cell is written exactly when x and y have the same parity, and nothing else is written. |
| `Patterns.Semi1Cases` | open/core/tilings/tiling.cpp:284-311 | With i = (x + 3y) mod 7:<br>- i in {1, 3}: nothing.<br>- i = 0: the first triangle.<br>- i in {2, 5, 6}: both triangles, in order.<br>- i = 4: the second triangle, then the hexagon. |
| `Patterns.Semi3CellFaces` | open/core/tilings/tiling.cpp:396-410 | A semi3 cell (y, x) writes exactly its unit quad i(x,y), i(x+1,y), i(x+1,y+1), i(x,y+1) when y is even. When y is odd it writes exactly its lower triangle i(x,y), i(x+1,y), i(x,y+1), then its upper triangle i(x+1,y), i(x+1,y+1), i(x,y+1). |
| `Patterns.Semi3SameCell` | open/core/tilings/tiling.cpp:398-410 | Every semi3 polygon ends on vertex i(x, y+1). So two placed semi3 polygons that coincide belong to the same cell. |
| `Patterns.Semi3Written` | open/core/tilings/tiling.cpp:392-411 | Every face semi3 writes is the quad of an even-row cell, or one of the two triangles of an odd-row cell, of [0, rows-1) x [0, cols-1). |
| `Patterns.Semi3Placed` | open/core/tilings/tiling.cpp:392-411 | Take a visited cell and one of semi3's three polygons placed there. It is written exactly when the row's parity selects it: the quad on even rows, the triangles on odd rows. This holds in both directions. |
| `Patterns.Semi3Faces` | open/core/tilings/tiling.cpp:392-411 | For every visited cell, its quad is written exactly when y is even, and each of its two triangles exactly when y is odd. Nothing else is written. |
| `Patterns.Semi3RowSize` | open/core/tilings/tiling.cpp:392-411 | Row y of semi3 writes cols-1 faces when y is even and 2*(cols-1) when y is odd. |
| `Patterns.Semi3RowsCount` | open/core/tilings/tiling.cpp:392-411 | Over its first h rows, semi3 writes cols-1 faces per even row and 2*(cols-1) per odd row: (cols-1)*(h + h/2) faces in all. |
| `Patterns.Semi3FaceCount` | open/core/tilings/tiling.cpp:392-411 | semi3 writes exactly (cols-1)*((rows-1) + (rows-1)/2) faces. |
| `Tiling.ParsePattern` | open/core/tilings/tiling.cpp:136-148 | A recognised name is the exact, case-sensitive name of the pattern it selects. A name is rejected exactly when it is none of the eleven. |
| `Tiling.ParseName` | open/core/tilings/tiling.cpp:136-146 | Each pattern's name selects that pattern, and no two patterns share a name. |
| `Tiling.WriteVertices` | open/core/tilings/tiling.cpp:160-169 | The vertex pass writes VertexCount(rows, cols) vertex lines: rows*cols when both sides are positive and none otherwise. Each line is for an in-grid cell. Line k (1-based) belongs to cell ((k-1)/cols, (k-1)%cols), whose index is k. |
| `Tiling.WriteCell` | open/core/tilings/tiling.cpp:174-827 | One visit writes the polygons the cell's residues select, in the order of the `if`s. |
| `Tiling.WriteRow` | open/core/tilings/tiling.cpp:174-827 | The inner loop writes the faces of columns [x0, x1) of one row, left to right. |
| `Tiling.WriteSweep` | open/core/tilings/tiling.cpp:172-827 | A face loop writes the faces of its rows, top to bottom, inside its margins. |
| `Tiling.WriteFaces` | open/core/tilings/tiling.cpp:171-827 | The face pass runs the face loops in turn and writes exactly `Faces`. Every index it writes is in [1, rows*cols]. |
| `Tiling.StreamLayout` | open/core/tilings/tiling.cpp:153-827 | Vertex lines followed by one face line per face give the generator's layout. Every face line comes after every vertex line, and line rows*cols + i holds face i. A face index that names a grid vertex still names a written vertex line. |
| `Tiling.Generate` | open/core/tilings/tiling.cpp:153-827 | A generator writes rows*cols vertex lines in row-major order. After them come exactly the pattern's faces, in loop order. Every face index names a written vertex. |
| `Tiling.GeneratePattern` | open/core/tilings/tiling.cpp:131-149 | A known name runs that pattern's generator and writes every vertex line, then the pattern's faces in order, with every face index naming a written vertex. An unknown name writes nothing. |

## Left out

- Vertex coordinates: the generators compute single-precision float positions, including the `y%4`/`x%4` offset tables of semi6 to semi8. The model keeps only which cell each vertex line belongs to.
- Text output: the `v … 0.0` and `f …` line syntax and the stream itself. Faces are sequences of indices and lines are a datatype.
- `main` and `printHelp`: argument count, `atoi`, size validation and opening the file are command-line glue. `GeneratePattern` accepts any integers. A non-positive side gives no vertices and, by `Emission.DegenerateGridHasNoFaces`, no faces.
- The `Error: unknown pattern.` message on standard error: only the empty output is modelled.
- Grid.Index: uses unbounded integers. The C++ `int` arithmetic would overflow once rows*cols exceeds 2^31 - 1, and the model does not show that.
- Patterns semi2 and semi4 to semi8 have no lemmas giving face positions or counts. Their faces are described by the case tables in `Shapes`. Only the all-pattern theorems of `Emission` are proved about them.
