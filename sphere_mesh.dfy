/** The index buffer of the sphere mesh (js/init-buffers.js).  The vertices
    form (parallels + 2) rows of (meridians + 1) vertices each; vertex number
    m + p * (meridians + 1) is the m-th vertex of row p.  Every quad cell
    (p, m), for p in [0, parallels] and m in [0, meridians), is cut into two
    triangles along its diagonal from bottom-left to top-right. */
module SphereMesh {

  /** The length `6 * meridians * (parallels + 1)` of the index array. */
  function IndexCount(meridians: nat, parallels: nat): nat
  {
    6 * meridians * (parallels + 1)
  }

  /** The number of vertices the position array is sized for,
      `(meridians + 1) * (parallels + 2)`. */
  function VertexTotal(meridians: nat, parallels: nat): nat
  {
    (meridians + 1) * (parallels + 2)
  }

  /** The six indices of the cell whose bottom-left corner is vertex
      `bottomLeft`: the bottom triangle (bottomLeft, bottomRight, topRight),
      then the top triangle (bottomLeft, topLeft, topRight). */
  function Cell(meridians: nat, bottomLeft: nat): (r: seq<int>)
    ensures |r| == 6
  {
    var bottomRight := bottomLeft + 1;
    var topLeft := bottomLeft + meridians + 1;
    var topRight := topLeft + 1;
    [bottomLeft, bottomRight, topRight, bottomLeft, topLeft, topRight]
  }

  /** The first vertex of vertex row p: each row holds `parallelSkip` =
      meridians + 1 vertices. */
  function RowBase(meridians: nat, p: nat): nat
  {
    if p == 0 then 0 else RowBase(meridians, p - 1) + meridians + 1
  }

  /** The j-th of the six indices of cell (p, m), whose bottom-left corner is
      vertex m + p * (meridians + 1). */
  function CellEntry(meridians: nat, p: nat, m: nat, j: nat): nat
    requires j < 6
  {
    Cell(meridians, m + p * (meridians + 1))[j]
  }

  /** The indices of the first m cells of the row of cells whose first
      bottom-left corner is vertex `base`, left to right. */
  function Row(meridians: nat, base: nat, m: nat): (r: seq<int>)
    ensures |r| == 6 * m
  {
    if m == 0 then [] else Row(meridians, base, m - 1) + Cell(meridians, base + m - 1)
  }

  /** The indices of the first `rows` rows of cells, bottom row first: what
      the nested loops of `generateSphereIndices` write, in order. */
  function Grid(meridians: nat, rows: nat): seq<int>
  {
    if rows == 0 then [] else Grid(meridians, rows - 1) + Row(meridians, RowBase(meridians, rows - 1), meridians)
  }

  /** Row p of the vertices starts at vertex p * (meridians + 1). */
  lemma {:induction false} RowBaseValue(meridians: nat, p: nat)
    ensures RowBase(meridians, p) == p * (meridians + 1)
  {
    if p > 0 {
      RowBaseValue(meridians, p - 1);
    }
  }

  /** Each row of cells contributes 6 * meridians indices. */
  lemma {:induction false} GridLength(meridians: nat, rows: nat)
    ensures |Grid(meridians, rows)| == 6 * (rows * meridians)
  {
    if rows > 0 {
      GridLength(meridians, rows - 1);
      NextRow(rows - 1, meridians);
    }
  }

  /** The index stored at position k, in closed form: position k belongs to
      cell number k / 6 (cells are numbered row by row) and is its
      (k % 6)-th entry. */
  function IndexAt(meridians: nat, parallels: nat, k: nat): nat
    requires 0 < meridians
  {
    var cell := k / 6;
    CellEntry(meridians, cell / meridians, cell % meridians, k % 6)
  }

  /** `generateSphereIndices`: allocates the array and fills it through the
      pre-incremented cursor `idx`, cell by cell and row by row.  Position k
      ends up holding `IndexAt(meridians, parallels, k)`. */
  method GenerateSphereIndices(meridians: nat, parallels: nat) returns (indices: array<int>)
    ensures indices.Length == IndexCount(meridians, parallels)
    ensures indices[..] == Grid(meridians, parallels + 1)
  {
    indices := new int[6 * meridians * (parallels + 1)];
    FillRows(indices, meridians, parallels);
  }

  /** The outer loop of `generateSphereIndices`, row by row. */
  method FillRows(indices: array<int>, meridians: nat, parallels: nat)
    requires indices.Length == IndexCount(meridians, parallels)
    modifies indices
    ensures indices[..] == Grid(meridians, parallels + 1)
  {
    var parallelSkip := meridians + 1;
    var idx := -1;
    var p := 0;
    while p < parallels + 1
      invariant 0 <= p <= parallels + 1
      invariant idx == |Grid(meridians, p)| - 1
      invariant idx < indices.Length && indices[..idx + 1] == Grid(meridians, p)
    {
      RowsFit(meridians, parallels, p);
      idx := FillRow(indices, meridians, parallelSkip, p, idx, Grid(meridians, p));
      p := p + 1;
    }
    GridLength(meridians, parallels + 1);
    AllCells(meridians, parallels);
    assert indices[..] == indices[..idx + 1];
  }

  /** One pass of the outer loop: the cells of row p, left to right. */
  method FillRow(indices: array<int>, meridians: nat, parallelSkip: nat, p: nat, idx: int, ghost prefix: seq<int>)
    returns (next: int)
    requires parallelSkip == meridians + 1
    requires idx == |prefix| - 1 && |prefix| + 6 * meridians <= indices.Length
    requires indices[..idx + 1] == prefix
    modifies indices
    ensures next == idx + 6 * meridians
    ensures indices[..next + 1] == prefix + Row(meridians, RowBase(meridians, p), meridians)
  {
    next := idx;
    ghost var base := RowBase(meridians, p);
    RowStart(meridians, parallelSkip, p);
    var m := 0;
    while m < meridians
      invariant 0 <= m <= meridians
      invariant next == idx + 6 * m
      invariant indices[..next + 1] == prefix + Row(meridians, base, m)
    {
      var bottomLeft := m + p * parallelSkip;
      var bottomRight := bottomLeft + 1;
      var topLeft := bottomLeft + parallelSkip;
      var topRight := topLeft + 1;
      next := WriteCell(indices, next, bottomLeft, bottomRight, topLeft, topRight);
      assert [bottomLeft, bottomRight, topRight, bottomLeft, topLeft, topRight] == Cell(meridians, base + m);
      AppendAssoc(prefix, Row(meridians, base, m), Cell(meridians, base + m));
      m := m + 1;
    }
  }


  /** The six `indices[++idx] = ...` assignments of one cell: the bottom
      triangle, then the top triangle. */
  method WriteCell(indices: array<int>, idx: int, bottomLeft: int, bottomRight: int, topLeft: int, topRight: int)
    returns (next: int)
    requires -1 <= idx && idx + 6 < indices.Length
    modifies indices
    ensures next == idx + 6
    ensures indices[..next + 1] == old(indices[..idx + 1]) + [bottomLeft, bottomRight, topRight, bottomLeft, topLeft, topRight]
  {
    next := idx;
    next := next + 1;
    indices[next] := bottomLeft;
    next := next + 1;
    indices[next] := bottomRight;
    next := next + 1;
    indices[next] := topRight;

    next := next + 1;
    indices[next] := bottomLeft;
    next := next + 1;
    indices[next] := topLeft;
    next := next + 1;
    indices[next] := topRight;
  }

  /** `initBuffers`: the index buffer together with the `vertexCount` that the
      draw call is given. */
  method InitBuffers(meridians: nat, parallels: nat) returns (indices: array<int>, vertexCount: int)
    ensures vertexCount == indices.Length
    ensures 0 < meridians ==>
      forall k :: 0 <= k < indices.Length ==> indices[k] == IndexAt(meridians, parallels, k)
  {
    indices := GenerateSphereIndices(meridians, parallels);
    vertexCount := 6 * meridians * (parallels + 1);
    if 0 < meridians {
      GridClosedForm(meridians, parallels);
    }
  }

  // The loops agree with the closed form.

  /** Entry j of row p's first m cells is slot start + j of the buffer, where
      start = 6 * (p * meridians) is the number of slots of the rows below. */
  lemma {:induction false} RowIndexAt(meridians: nat, parallels: nat, p: nat, m: nat, j: nat, start: nat)
    requires m <= meridians && j < 6 * m && start == 6 * (p * meridians)
    ensures Row(meridians, RowBase(meridians, p), m)[j] == IndexAt(meridians, parallels, start + j)
  {
    var last := 6 * (m - 1);
    if j < last {
      RowIndexAt(meridians, parallels, p, m - 1, j, start);
    } else {
      RowBaseValue(meridians, p);
      assert Row(meridians, RowBase(meridians, p), m)[j] == CellEntry(meridians, p, m - 1, j - last);
      CellSlot(meridians, parallels, p, m - 1, j - last);
      assert start + j == 6 * (p * meridians + (m - 1)) + (j - last);
    }
  }


  /** The whole buffer agrees with the closed form. */
  lemma GridClosedForm(meridians: nat, parallels: nat)
    requires 0 < meridians
    ensures forall k :: 0 <= k < |Grid(meridians, parallels + 1)| ==>
      Grid(meridians, parallels + 1)[k] == IndexAt(meridians, parallels, k)
  {
    forall k | 0 <= k < |Grid(meridians, parallels + 1)|
      ensures Grid(meridians, parallels + 1)[k] == IndexAt(meridians, parallels, k)
    {
      GridIndexAt(meridians, parallels, parallels + 1, k);
    }
  }

  /** Slot k of the buffer the loops fill holds `IndexAt(meridians, parallels, k)`. */
  lemma {:induction false} GridIndexAt(meridians: nat, parallels: nat, rows: nat, k: nat)
    requires 0 < meridians && k < |Grid(meridians, rows)|
    ensures Grid(meridians, rows)[k] == IndexAt(meridians, parallels, k)
  {
    if k < |Grid(meridians, rows - 1)| {
      GridIndexAt(meridians, parallels, rows - 1, k);
    } else {
      LastRowIndexAt(meridians, parallels, rows, k);
    }
  }

  /** The slots of the last row of a grid. */
  lemma LastRowIndexAt(meridians: nat, parallels: nat, rows: nat, k: nat)
    requires 0 < rows && |Grid(meridians, rows - 1)| <= k < |Grid(meridians, rows)|
    ensures Grid(meridians, rows)[k] == IndexAt(meridians, parallels, k)
  {
    var prev := Grid(meridians, rows - 1);
    GridLength(meridians, rows - 1);
    RowIndexAt(meridians, parallels, rows - 1, meridians, k - |prev|, |prev|);
  }


  lemma RowStart(meridians: nat, parallelSkip: nat, p: nat)
    requires parallelSkip == meridians + 1
    ensures p * parallelSkip == RowBase(meridians, p)
  {
    RowBaseValue(meridians, p);
  }

  lemma AppendAssoc(a: seq<int>, b: seq<int>, c: seq<int>)
    ensures (a + b) + c == a + (b + c)
  {
  }

  // Arithmetic helpers.

  /** Rows 0 to p of the cells fit in the array. */
  lemma RowsFit(meridians: nat, parallels: nat, p: nat)
    requires p <= parallels
    ensures |Grid(meridians, p + 1)| <= IndexCount(meridians, parallels)
  {
    GridLength(meridians, p + 1);
    MulMonotone(p + 1, parallels + 1, meridians);
    AllCells(meridians, parallels);
  }


  lemma NextRow(p: nat, meridians: nat)
    ensures (p + 1) * meridians == p * meridians + meridians
  {
  }

  lemma AllCells(meridians: nat, parallels: nat)
    ensures 6 * ((parallels + 1) * meridians) == IndexCount(meridians, parallels)
  {
  }

  lemma MulMonotone(x: nat, y: nat, z: nat)
    requires x <= y
    ensures x * z <= y * z
  {
  }

  /** Division by a positive divisor has exactly one quotient and remainder. */
  lemma DivModUnique(n: nat, d: nat, q: nat, r: nat)
    requires 0 < d && r < d && n == q * d + r
    ensures n / d == q && n % d == r
  {
    var q', r' := n / d, n % d;
    assert q' * d + r' == q * d + r;
    if q' < q {
      MulMonotone(q' + 1, q, d);
      assert false;
    } else if q < q' {
      MulMonotone(q + 1, q', d);
      assert false;
    }
  }

  // Properties of the layout.

  /** Slot 6 * (p * meridians + m) + j holds the j-th index of cell (p, m):
      the six entries of a cell are stored together, cells in row order. */
  lemma {:induction false} CellLayout(meridians: nat, parallels: nat, p: nat, m: nat)
    requires m < meridians
    ensures forall j :: 0 <= j < 6 ==>
      IndexAt(meridians, parallels, 6 * (p * meridians + m) + j) == CellEntry(meridians, p, m, j)
  {
    forall j | 0 <= j < 6
      ensures IndexAt(meridians, parallels, 6 * (p * meridians + m) + j) == CellEntry(meridians, p, m, j)
    {
      CellSlot(meridians, parallels, p, m, j);
    }
  }

  lemma CellSlot(meridians: nat, parallels: nat, p: nat, m: nat, j: nat)
    requires m < meridians && j < 6
    ensures IndexAt(meridians, parallels, 6 * (p * meridians + m) + j) == CellEntry(meridians, p, m, j)
  {
    var k := 6 * (p * meridians + m) + j;
    DivModUnique(k, 6, p * meridians + m, j);
    DivModUnique(p * meridians + m, meridians, p, m);
  }

  /** Every slot belongs to a cell of the mesh: the cell of slot k has a row
      in [0, parallels] and a column in [0, meridians). */
  lemma {:induction false} SlotCell(meridians: nat, parallels: nat, k: nat)
    requires 0 < meridians && k < IndexCount(meridians, parallels)
    ensures (k / 6) / meridians <= parallels && (k / 6) % meridians < meridians
  {
    var cell := k / 6;
    var p := cell / meridians;
    assert cell < meridians * (parallels + 1) by {
      assert k < 6 * (meridians * (parallels + 1));
    }
    if p > parallels {
      MulMonotone(parallels + 1, p, meridians);
      assert false;
    }
  }

  /** Every index names a vertex of the position array. */
  lemma {:induction false} CellEntryInBounds(meridians: nat, parallels: nat, p: nat, m: nat, j: nat)
    requires p <= parallels && m < meridians && j < 6
    ensures CellEntry(meridians, p, m, j) < VertexTotal(meridians, parallels)
  {
    var bl := m + p * (meridians + 1);
    calc {
      CellEntry(meridians, p, m, j);
    <=
      bl + meridians + 2;
    <=
      meridians - 1 + p * (meridians + 1) + meridians + 2;
      (p + 1) * (meridians + 1) + meridians;
    < { MulMonotone(p + 1, parallels + 1, meridians + 1); }
      (parallels + 2) * (meridians + 1);
    }
  }

  /** Every stored index lies in [0, (meridians + 1) * (parallels + 2)). */
  lemma {:induction false} IndexInBounds(meridians: nat, parallels: nat, k: nat)
    requires 0 < meridians && k < IndexCount(meridians, parallels)
    ensures IndexAt(meridians, parallels, k) < VertexTotal(meridians, parallels)
  {
    SlotCell(meridians, parallels, k);
    CellEntryInBounds(meridians, parallels, (k / 6) / meridians, (k / 6) % meridians, k % 6);
  }

  /** The bound is tight: the last vertex is used, as the top-right corner
      of the last cell of the last row. */
  lemma {:induction false} MaxIndexAttained(meridians: nat, parallels: nat)
    requires 0 < meridians
    ensures exists k :: (0 <= k < IndexCount(meridians, parallels)
      && IndexAt(meridians, parallels, k) == VertexTotal(meridians, parallels) - 1)
  {
    var k := 6 * (parallels * meridians + (meridians - 1)) + 2;
    RowsFit(meridians, parallels, parallels);
    GridLength(meridians, parallels);
    CellSlot(meridians, parallels, parallels, meridians - 1, 2);
    LastTopRight(meridians, parallels);
  }

  lemma LastTopRight(meridians: nat, parallels: nat)
    requires 0 < meridians
    ensures CellEntry(meridians, parallels, meridians - 1, 2) == VertexTotal(meridians, parallels) - 1
  {
    calc {
      CellEntry(meridians, parallels, meridians - 1, 2);
      meridians - 1 + parallels * (meridians + 1) + meridians + 2;
      (parallels + 2) * (meridians + 1) - 1;
    }
  }

  /** Cell (p, m) starts in vertex row p, and its bottom-right corner stays
      in that row. */
  lemma CellRow(meridians: nat, p: nat, m: nat)
    requires m < meridians
    ensures CellEntry(meridians, p, m, 1) < (p + 1) * (meridians + 1)
    ensures CellEntry(meridians, p, m, 0) / (meridians + 1) == p
  {
    DivModUnique(m + p * (meridians + 1), meridians + 1, p, m);
  }

  /** The corners of cell (p, m): bottomRight follows bottomLeft, the top
      corners sit one vertex row (meridians + 1 vertices) higher, the two
      triangles share the diagonal bottomLeft - topRight, and neither
      triangle is degenerate. */
  lemma CellShape(meridians: nat, p: nat, m: nat)
    requires m < meridians
    ensures CellEntry(meridians, p, m, 4) == CellEntry(meridians, p, m, 0) + (meridians + 1)
    ensures CellEntry(meridians, p, m, 2) == CellEntry(meridians, p, m, 1) + (meridians + 1)
    ensures CellEntry(meridians, p, m, 0) == CellEntry(meridians, p, m, 3)
    ensures CellEntry(meridians, p, m, 2) == CellEntry(meridians, p, m, 5)
    ensures CellEntry(meridians, p, m, 0) < CellEntry(meridians, p, m, 1) < CellEntry(meridians, p, m, 2)
    ensures CellEntry(meridians, p, m, 3) < CellEntry(meridians, p, m, 4) < CellEntry(meridians, p, m, 5)
  {
  }

  /** With the default 128 x 64 mesh every index fits in the 16-bit unsigned
      integers of the `Uint16Array` the buffer is uploaded as. */
  lemma {:induction false} DefaultMeshFitsUint16(k: nat)
    requires k < IndexCount(128, 64)
    ensures IndexAt(128, 64, k) < 65536
  {
    IndexInBounds(128, 64, k);
    assert VertexTotal(128, 64) == 8514;
  }
}
