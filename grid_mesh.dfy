/**
 * The integer part of the surface generator: a rectangular patch of
 * uCells x vCells quads. Its vertices are the grid points (r, c),
 * 0 <= r <= vCells, 0 <= c <= uCells, pushed row by row; its index buffer
 * holds two triangles per cell; and its index type is chosen once from the
 * vertex count. A vertex is named by its grid coordinate: where it lies in
 * space is float arithmetic on the axis vectors and is not modelled.
 */
module GridMesh {

  /** The vertex in row r and column c of the grid. */
  datatype GridPoint = GridPoint(r: nat, c: nat)

  /** The element type of the index buffer: unsigned 16-bit or unsigned 32-bit indices. */
  datatype IndexWidth = UShort | UInt

  /** The generated geometry: its vertex array, index type and triangle list. */
  datatype Mesh = Mesh(vertices: seq<GridPoint>, indexWidth: IndexWidth, indices: seq<nat>)

  /** The largest index a 16-bit index buffer can hold. */
  const MaxUShortIndex: nat := 0xFFFF

  function NumVertices(uCells: nat, vCells: nat): nat {
    (uCells + 1) * (vCells + 1)
  }

  /** The position of grid point (r, c) in the vertex array. */
  function VertexId(uCells: nat, r: nat, c: nat): nat {
    c + r * (uCells + 1)
  }

  /** The grid point stored at position k of the vertex array. */
  function GridPointAt(uCells: nat, k: nat): GridPoint {
    GridPoint(k / (uCells + 1), k % (uCells + 1))
  }

  /** The index type is chosen by shifting the vertex count right by 16 bits. */
  function IndexWidthFor(numVertices: nat): (w: IndexWidth)
    ensures w == UShort <==> numVertices <= MaxUShortIndex
  {
    if numVertices / 0x1_0000 == 0 then UShort else UInt
  }

  // ---------------------------------------------------------------------------
  // Vertex enumeration
  // ---------------------------------------------------------------------------

  /** Columns 0 .. n-1 of row r, in the order the inner loop pushes them. */
  function RowPoints(r: nat, n: nat): seq<GridPoint>
  {
    if n == 0 then [] else RowPoints(r, n - 1) + [GridPoint(r, n - 1)]
  }

  /** Rows 0 .. rows-1 of the grid, each of columns 0 .. uCells, in the order the loops push them. */
  function GridVertices(uCells: nat, rows: nat): seq<GridPoint>
  {
    if rows == 0 then [] else GridVertices(uCells, rows - 1) + RowPoints(rows - 1, uCells + 1)
  }

  lemma {:induction false} RowPointsAt(r: nat, n: nat, c: nat)
    requires c < n
    ensures |RowPoints(r, n)| == n && RowPoints(r, n)[c] == GridPoint(r, c)
  {
    if c < n - 1 {
      RowPointsAt(r, n - 1, c);
    } else if n > 1 {
      RowPointsAt(r, n - 1, 0);
    }
  }

  lemma {:induction false} GridVerticesLength(uCells: nat, rows: nat)
    ensures |GridVertices(uCells, rows)| == rows * (uCells + 1)
  {
    if rows > 0 {
      GridVerticesLength(uCells, rows - 1);
      RowPointsAt(rows - 1, uCells + 1, 0);
      assert (rows - 1) * (uCells + 1) + (uCells + 1) == rows * (uCells + 1);
    }
  }

  /** The vertex pushed at step c + r*(uCells+1) is grid point (r, c). */
  lemma {:induction false} GridVerticesAt(uCells: nat, rows: nat, r: nat, c: nat)
    requires r < rows && c <= uCells
    ensures VertexId(uCells, r, c) < |GridVertices(uCells, rows)|
    ensures GridVertices(uCells, rows)[VertexId(uCells, r, c)] == GridPoint(r, c)
  {
    GridVerticesLength(uCells, rows - 1);
    RowPointsAt(rows - 1, uCells + 1, c);
    var before := GridVertices(uCells, rows - 1);
    if r == rows - 1 {
      assert VertexId(uCells, r, c) == |before| + c;
    } else {
      GridVerticesAt(uCells, rows - 1, r, c);
    }
  }

  lemma MulMonotonic(a: nat, b: nat, d: nat)
    requires a <= b
    ensures a * d <= b * d
  {
  }

  /** Division by the row length undoes VertexId. */
  lemma DivModUnique(k: nat, d: nat, q: nat, m: nat)
    requires 0 <= m < d && k == q * d + m
    ensures k / d == q && k % d == m
  {
    var q', m' := k / d, k % d;
    assert k == q' * d + m';
    if q' < q {
      MulMonotonic(q' + 1, q, d);
      assert false;
    } else if q < q' {
      MulMonotonic(q + 1, q', d);
      assert false;
    }
  }

  /** GridPointAt and VertexId are inverse to each other on the grid. */
  lemma GridPointAtInvertsVertexId(uCells: nat, r: nat, c: nat)
    requires c <= uCells
    ensures GridPointAt(uCells, VertexId(uCells, r, c)) == GridPoint(r, c)
  {
    DivModUnique(VertexId(uCells, r, c), uCells + 1, r, c);
  }

  lemma VertexIdInvertsGridPointAt(uCells: nat, k: nat)
    ensures GridPointAt(uCells, k).c <= uCells
    ensures VertexId(uCells, GridPointAt(uCells, k).r, GridPointAt(uCells, k).c) == k
  {
  }

  /** Position k of the first `rows` rows holds GridPointAt(uCells, k). */
  lemma GridVerticesEnumerate(uCells: nat, rows: nat, k: nat)
    requires k < |GridVertices(uCells, rows)|
    ensures GridVertices(uCells, rows)[k] == GridPointAt(uCells, k)
  {
    GridVerticesLength(uCells, rows);
    var p := GridPointAt(uCells, k);
    VertexIdInvertsGridPointAt(uCells, k);
    if p.r >= rows {
      MulMonotonic(rows, p.r, uCells + 1);
      assert false;
    }
    GridVerticesAt(uCells, rows, p.r, p.c);
  }

  // ---------------------------------------------------------------------------
  // Triangulation
  // ---------------------------------------------------------------------------

  /** The six indices of cell (r, c): triangles (p0, p2, p1) and (p2, p3, p1). */
  function CellIndices(uCells: nat, r: nat, c: nat): seq<nat>
  {
    var p0 := VertexId(uCells, r, c);
    var p1 := p0 + (uCells + 1);
    var p2 := p0 + 1;
    var p3 := p1 + 1;
    [p0, p2, p1, p2, p3, p1]
  }

  /** Where the indices of cell (r, c) start in the index buffer. */
  function CellOffset(uCells: nat, r: nat, c: nat): nat {
    6 * (r * uCells + c)
  }

  /** Cells 0 .. n-1 of row r, in the order the inner loop emits them. */
  function RowCells(uCells: nat, r: nat, n: nat): seq<nat>
  {
    if n == 0 then [] else RowCells(uCells, r, n - 1) + CellIndices(uCells, r, n - 1)
  }

  /** Rows 0 .. rows-1 of cells, each of columns 0 .. uCells-1, in the order the loops emit them. */
  function Triangulation(uCells: nat, rows: nat): seq<nat>
  {
    if rows == 0 then [] else Triangulation(uCells, rows - 1) + RowCells(uCells, rows - 1, uCells)
  }

  lemma {:induction false} RowCellsLength(uCells: nat, r: nat, n: nat)
    ensures |RowCells(uCells, r, n)| == 6 * n
  {
    if n > 0 {
      RowCellsLength(uCells, r, n - 1);
    }
  }

  /** The index list has length 6 * uCells * rows. */
  lemma {:induction false} TriangulationLength(uCells: nat, rows: nat)
    ensures |Triangulation(uCells, rows)| == 6 * uCells * rows
  {
    if rows > 0 {
      TriangulationLength(uCells, rows - 1);
      RowCellsLength(uCells, rows - 1, uCells);
      assert 6 * uCells * (rows - 1) + 6 * uCells == 6 * uCells * rows;
    }
  }

  lemma {:induction false} RowCellsAt(uCells: nat, r: nat, n: nat, c: nat)
    requires c < n
    ensures 6 * c + 6 <= |RowCells(uCells, r, n)|
    ensures RowCells(uCells, r, n)[6 * c .. 6 * c + 6] == CellIndices(uCells, r, c)
  {
    RowCellsLength(uCells, r, n - 1);
    var before := RowCells(uCells, r, n - 1);
    if c == n - 1 {
      assert before + CellIndices(uCells, r, c) == RowCells(uCells, r, n);
    } else {
      RowCellsAt(uCells, r, n - 1, c);
      assert RowCells(uCells, r, n)[..|before|] == before;
    }
  }

  lemma CellOffsetBounds(uCells: nat, rows: nat, r: nat, c: nat)
    requires r < rows && c < uCells
    ensures CellOffset(uCells, r, c) == 6 * uCells * r + 6 * c
    ensures CellOffset(uCells, r, c) + 6 <= 6 * uCells * (r + 1) <= 6 * uCells * rows
  {
    assert 6 * uCells * (r + 1) == 6 * uCells * r + 6 * uCells;
    MulMonotonic(r + 1, rows, 6 * uCells);
    assert 6 * uCells * (r + 1) == (r + 1) * (6 * uCells);
    assert 6 * uCells * rows == rows * (6 * uCells);
  }

  /** Cell (r, c) contributes exactly its six indices at offset 6 * (r * uCells + c). */
  lemma {:induction false} TriangulationCellAt(uCells: nat, rows: nat, r: nat, c: nat)
    requires r < rows && c < uCells
    ensures CellOffset(uCells, r, c) + 6 <= |Triangulation(uCells, rows)|
    ensures Triangulation(uCells, rows)[CellOffset(uCells, r, c) .. CellOffset(uCells, r, c) + 6]
            == CellIndices(uCells, r, c)
  {
    TriangulationLength(uCells, rows - 1);
    RowCellsAt(uCells, rows - 1, uCells, c);
    CellOffsetBounds(uCells, rows, r, c);
    var before := Triangulation(uCells, rows - 1);
    var row := RowCells(uCells, rows - 1, uCells);
    var off := CellOffset(uCells, r, c);
    assert Triangulation(uCells, rows) == before + row;
    if r == rows - 1 {
      assert off == |before| + 6 * c;
      assert (before + row)[off .. off + 6] == row[6 * c .. 6 * c + 6];
    } else {
      TriangulationCellAt(uCells, rows - 1, r, c);
      CellOffsetBounds(uCells, rows - 1, r, c);
      assert (before + row)[off .. off + 6] == before[off .. off + 6];
    }
  }

  /** Every element of s is below n. */
  ghost predicate AllBelow(s: seq<nat>, n: nat) {
    forall i :: 0 <= i < |s| ==> s[i] < n
  }

  lemma {:induction false} RowCellsBounded(uCells: nat, r: nat, n: nat)
    requires n <= uCells
    ensures AllBelow(RowCells(uCells, r, n), (r + 2) * (uCells + 1))
  {
    if n > 0 {
      RowCellsBounded(uCells, r, n - 1);
      RowCellsLength(uCells, r, n - 1);
      var c := n - 1;
      // p3 is the largest index of the cell and stays inside rows r and r + 1
      assert VertexId(uCells, r, c) + (uCells + 1) + 1 <= uCells + (r + 1) * (uCells + 1);
      assert (r + 1) * (uCells + 1) + (uCells + 1) == (r + 2) * (uCells + 1);
      var s := RowCells(uCells, r, n);
      forall i | 0 <= i < |s| ensures s[i] < (r + 2) * (uCells + 1) {
        if i >= 6 * c {
          assert s[i] == CellIndices(uCells, r, c)[i - 6 * c];
        } else {
          assert s[i] == RowCells(uCells, r, c)[i];
        }
      }
    }
  }

  /** Every index of the first `rows` rows of cells addresses a vertex of a grid with rows + 1 rows. */
  lemma {:induction false} TriangulationBounded(uCells: nat, rows: nat)
    ensures AllBelow(Triangulation(uCells, rows), NumVertices(uCells, rows))
  {
    if rows > 0 {
      TriangulationBounded(uCells, rows - 1);
      RowCellsBounded(uCells, rows - 1, uCells);
      assert NumVertices(uCells, rows - 1) <= NumVertices(uCells, rows);
      assert (rows - 1 + 2) * (uCells + 1) == NumVertices(uCells, rows);
      var before := Triangulation(uCells, rows - 1);
      var s := Triangulation(uCells, rows);
      forall i | 0 <= i < |s| ensures s[i] < NumVertices(uCells, rows) {
        if i >= |before| {
          assert s[i] == RowCells(uCells, rows - 1, uCells)[i - |before|];
        } else {
          assert s[i] == before[i];
        }
      }
    }
  }

  /** Triangle t of an index list: its three consecutive indices. */
  function Triangle(s: seq<nat>, t: nat): (nat, nat, nat)
    requires 3 * t + 2 < |s|
  {
    (s[3 * t], s[3 * t + 1], s[3 * t + 2])
  }

  /** A triangle two of whose corners are the same vertex. */
  predicate Degenerate(tri: (nat, nat, nat)) {
    tri.0 == tri.1 || tri.1 == tri.2 || tri.0 == tri.2
  }

  ghost predicate NoDegenerateTriangles(s: seq<nat>) {
    forall t :: 0 <= t < |s| / 3 ==> !Degenerate(Triangle(s, t))
  }

  lemma NoDegenerateConcat(a: seq<nat>, b: seq<nat>)
    requires |a| % 3 == 0 && NoDegenerateTriangles(a) && NoDegenerateTriangles(b)
    ensures NoDegenerateTriangles(a + b)
  {
    var s := a + b;
    var n := |a| / 3;
    assert |a| == 3 * n;
    assert |s| / 3 == n + |b| / 3;
    forall t | 0 <= t < |s| / 3 ensures !Degenerate(Triangle(s, t)) {
      if t < n {
        assert 3 * t + 2 < |a|;
        assert Triangle(s, t) == Triangle(a, t);
      } else {
        assert 3 * (t - n) + 2 < |b|;
        assert Triangle(s, t) == Triangle(b, t - n);
      }
    }
  }

  /** The two triangles of a cell have three distinct corners each. */
  lemma CellNonDegenerate(uCells: nat, r: nat, c: nat)
    requires uCells >= 1
    ensures NoDegenerateTriangles(CellIndices(uCells, r, c))
  {
    var cell := CellIndices(uCells, r, c);
    forall t | 0 <= t < |cell| / 3 ensures !Degenerate(Triangle(cell, t)) {
      assert t == 0 || t == 1;
    }
  }

  lemma {:induction false} RowCellsNonDegenerate(uCells: nat, r: nat, n: nat)
    requires uCells >= 1
    ensures NoDegenerateTriangles(RowCells(uCells, r, n))
  {
    if n > 0 {
      RowCellsNonDegenerate(uCells, r, n - 1);
      RowCellsLength(uCells, r, n - 1);
      assert 6 * (n - 1) == 3 * (2 * (n - 1));
      CellNonDegenerate(uCells, r, n - 1);
      NoDegenerateConcat(RowCells(uCells, r, n - 1), CellIndices(uCells, r, n - 1));
    }
  }

  /** The index list is made of whole triangles. */
  lemma TriangulationWholeTriangles(uCells: nat, rows: nat)
    ensures |Triangulation(uCells, rows)| % 3 == 0
  {
    TriangulationLength(uCells, rows);
    assert 6 * uCells * rows == 3 * (2 * uCells * rows);
  }

  /** No emitted triangle repeats a vertex; without columns no triangle is emitted at all. */
  lemma {:induction false} TriangulationNonDegenerate(uCells: nat, rows: nat)
    ensures NoDegenerateTriangles(Triangulation(uCells, rows))
  {
    if rows > 0 {
      var before := Triangulation(uCells, rows - 1);
      var row := RowCells(uCells, rows - 1, uCells);
      TriangulationNonDegenerate(uCells, rows - 1);
      TriangulationWholeTriangles(uCells, rows - 1);
      if uCells >= 1 {
        RowCellsNonDegenerate(uCells, rows - 1, uCells);
      }
      NoDegenerateConcat(before, row);
      assert Triangulation(uCells, rows) == before + row;
    }
  }

  /** A 1 x 1 grid is two triangles over vertices 0 .. 3. */
  lemma OneCellGrid()
    ensures Triangulation(1, 1) == [0, 1, 2, 1, 3, 2]
  {
  }

  /** 255 x 255 cells make exactly 65536 vertices and need 32-bit indices; 255 x 254 make 65280 and fit 16 bits. */
  lemma IndexWidthThreshold()
    ensures NumVertices(255, 255) == 65536 && IndexWidthFor(NumVertices(255, 255)) == UInt
    ensures NumVertices(255, 254) == 65280 && IndexWidthFor(NumVertices(255, 254)) == UShort
  {
  }

  /** The 32-bit choice is conservative at the threshold: a 255 x 255 grid gets 32-bit
      indices although its largest index, 65535, would fit 16 bits. */
  lemma WideIndicesAtExactlyMaxVertices()
    ensures IndexWidthFor(NumVertices(255, 255)) == UInt
    ensures forall i :: 0 <= i < |Triangulation(255, 255)| ==> Triangulation(255, 255)[i] <= MaxUShortIndex
  {
    TriangulationBounded(255, 255);
  }

  // ---------------------------------------------------------------------------
  // Mesh construction
  // ---------------------------------------------------------------------------

  /** The vertex loop: rows outer, columns inner, one grid point pushed per step. */
  method EnumerateVertices(uCells: nat, vCells: nat) returns (vertices: seq<GridPoint>)
    ensures vertices == GridVertices(uCells, vCells + 1)
  {
    vertices := [];
    var r := 0;
    while r <= vCells
      invariant r <= vCells + 1
      invariant vertices == GridVertices(uCells, r)
    {
      var c := 0;
      while c <= uCells
        invariant c <= uCells + 1
        invariant vertices == GridVertices(uCells, r) + RowPoints(r, c)
      {
        vertices := vertices + [GridPoint(r, c)];
        c := c + 1;
      }
      r := r + 1;
    }
  }

  /** The six element appends for cell (r, c). */
  method AddCell(indices: seq<nat>, uCells: nat, r: nat, c: nat) returns (result: seq<nat>)
    ensures result == indices + CellIndices(uCells, r, c)
  {
    var p0 := c + r * (uCells + 1);
    var p1 := p0 + (uCells + 1);
    var p2 := p0 + 1;
    var p3 := p1 + 1;
    result := indices;
    result := result + [p0];
    result := result + [p2];
    result := result + [p1];
    result := result + [p2];
    result := result + [p3];
    result := result + [p1];
  }

  /** The triangulation loop: rows outer, columns inner, one cell per step. */
  method Triangulate(uCells: nat, vCells: nat) returns (indices: seq<nat>)
    ensures indices == Triangulation(uCells, vCells)
  {
    indices := [];
    var r := 0;
    while r < vCells
      invariant r <= vCells
      invariant indices == Triangulation(uCells, r)
    {
      var c := 0;
      while c < uCells
        invariant c <= uCells
        invariant indices == Triangulation(uCells, r) + RowCells(uCells, r, c)
      {
        indices := AddCell(indices, uCells, r, c);
        c := c + 1;
      }
      r := r + 1;
    }
  }

  /** The integer part of building the surface: vertices row by row, the index type, then the cells. */
  method CreateMesh(uCells: nat, vCells: nat) returns (mesh: Mesh)
    ensures mesh.vertices == GridVertices(uCells, vCells + 1) && mesh.indices == Triangulation(uCells, vCells)
    ensures |mesh.vertices| == NumVertices(uCells, vCells)
    ensures forall r: nat, c: nat :: r <= vCells && c <= uCells ==>
              VertexId(uCells, r, c) < |mesh.vertices| && mesh.vertices[VertexId(uCells, r, c)] == GridPoint(r, c)
    ensures forall k :: 0 <= k < |mesh.vertices| ==> mesh.vertices[k] == GridPointAt(uCells, k)
    ensures mesh.indexWidth == UShort <==> NumVertices(uCells, vCells) <= MaxUShortIndex
    ensures |mesh.indices| == 6 * uCells * vCells
    ensures forall r: nat, c: nat :: r < vCells && c < uCells ==>
              CellOffset(uCells, r, c) + 6 <= |mesh.indices| &&
              mesh.indices[CellOffset(uCells, r, c) .. CellOffset(uCells, r, c) + 6] == CellIndices(uCells, r, c)
    ensures forall i :: 0 <= i < |mesh.indices| ==> mesh.indices[i] < NumVertices(uCells, vCells)
    ensures mesh.indexWidth == UShort ==> forall i :: 0 <= i < |mesh.indices| ==> mesh.indices[i] <= MaxUShortIndex
    ensures NoDegenerateTriangles(mesh.indices)
  {
    var numVertices := (uCells + 1) * (vCells + 1);
    var vertices := EnumerateVertices(uCells, vCells);
    var width := IndexWidthFor(numVertices);
    var indices := Triangulate(uCells, vCells);
    mesh := Mesh(vertices, width, indices);

    GridVerticesLength(uCells, vCells + 1);
    assert (vCells + 1) * (uCells + 1) == NumVertices(uCells, vCells);
    forall r: nat, c: nat | r <= vCells && c <= uCells
      ensures VertexId(uCells, r, c) < |vertices| && vertices[VertexId(uCells, r, c)] == GridPoint(r, c)
    {
      GridVerticesAt(uCells, vCells + 1, r, c);
    }
    forall k | 0 <= k < |vertices| ensures vertices[k] == GridPointAt(uCells, k) {
      GridVerticesEnumerate(uCells, vCells + 1, k);
    }
    TriangulationLength(uCells, vCells);
    forall r: nat, c: nat | r < vCells && c < uCells
      ensures CellOffset(uCells, r, c) + 6 <= |indices| &&
              indices[CellOffset(uCells, r, c) .. CellOffset(uCells, r, c) + 6] == CellIndices(uCells, r, c)
    {
      TriangulationCellAt(uCells, vCells, r, c);
    }
    TriangulationBounded(uCells, vCells);
    TriangulationNonDegenerate(uCells, vCells);
  }
}
