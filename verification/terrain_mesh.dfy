/** The triangle indices of AddIndices and AddTriangleIndices. Every cell
    (x, z) with x < Width - 1 and z < Height - 1 contributes two triangles
    over its four corner vertices; land and water receive the same indices. */
module TerrainMesh {
  import opened TerrainGrid
  import opened TerrainVertices

  /** AddTriangleIndices: the triangles (tl, tr, bl) and (tr, br, bl), which
      share the diagonal tr-bl and between them use every corner. */
  function Triangles(tl: int, tr: int, bl: int, br: int): (r: seq<int>)
    ensures |r| == 6 && r[0] == tl && r[4] == br
    ensures r[1] == r[3] == tr && r[2] == r[5] == bl
  {
    [tl, tr, bl, tr, br, bl]
  }

  /** The six indices of cell (x, z), its corners taken in row-major order. */
  function Quad(x: int, z: int, h: int): seq<int> {
    Triangles(CellKey(x, z, h), CellKey(x + 1, z, h), CellKey(x, z + 1, h), CellKey(x + 1, z + 1, h))
  }

  /** The indices of the first n cells in loop order: cell c is (c / (h - 1), c % (h - 1)). */
  function Prefix(n: nat, h: int): (r: seq<int>)
    requires h > 1
    ensures |r| == 6 * n
  {
    seq(6 * n, j requires 0 <= j < 6 * n => Quad((j / 6) / (h - 1), (j / 6) % (h - 1), h)[j % 6])
  }

  /** Number of cells that get triangles: (Width - 1) * (Height - 1) when the
      map is at least two cells each way, and none otherwise. */
  function CellCount(w: int, h: int): nat {
    if w > 1 && h > 1 then
      MulMonotone(0, w - 1, h - 1);
      (w - 1) * (h - 1)
    else 0
  }

  /** The index sequence the loops of AddIndices emit for each surface. */
  function Topology(w: int, h: int): (r: seq<int>)
    ensures |r| == 6 * CellCount(w, h)
  {
    if w > 1 && h > 1 then
      MulMonotone(0, w - 1, h - 1);
      Prefix((w - 1) * (h - 1), h)
    else []
  }

  /** Appending cell (x, z) to the cells before it extends the prefix by one cell. */
  lemma PrefixStep(x: int, z: int, h: int)
    requires h > 1 && x >= 0 && 0 <= z < h - 1
    ensures x * (h - 1) + z >= 0
    ensures Prefix(x * (h - 1) + z, h) + Quad(x, z, h) == Prefix(x * (h - 1) + z + 1, h)
  {
    MulMonotone(0, x, h - 1);
    var n := x * (h - 1) + z;
    var a, b := Prefix(n, h), Prefix(n + 1, h);
    forall j | 0 <= j < |b|
      ensures (a + Quad(x, z, h))[j] == b[j]
    {
      if j >= 6 * n {
        DivModUnique(j, 6, n, j - 6 * n);
        DivModUnique(n, h - 1, x, z);
      }
    }
    assert a + Quad(x, z, h) == b;
  }

  /** AddIndices: both surfaces receive, cell by cell in loop order, the six
      indices of the cell's two triangles. */
  method AddIndices(w: int, h: int) returns (land: seq<int>, water: seq<int>)
    ensures land == Topology(w, h) && water == Topology(w, h)
  {
    land, water := [], [];
    var x := 0;
    while x < w - 1
      invariant 0 <= x <= if w > 1 then w - 1 else 0
      invariant h > 1 ==> x * (h - 1) >= 0 && land == Prefix(x * (h - 1), h)
      invariant h <= 1 ==> land == []
      invariant water == land
    {
      var z := 0;
      while z < h - 1
        invariant 0 <= z && (h > 1 ==> z <= h - 1)
        invariant h > 1 ==> land == Prefix(x * (h - 1) + z, h)
        invariant h <= 1 ==> land == []
        invariant water == land
      {
        var topLeft := x * h + z;
        var topRight := (x + 1) * h + z;
        var bottomLeft := x * h + (z + 1);
        var bottomRight := (x + 1) * h + (z + 1);
        PrefixStep(x, z, h);
        assert Triangles(topLeft, topRight, bottomLeft, bottomRight) == Quad(x, z, h);
        land := land + Triangles(topLeft, topRight, bottomLeft, bottomRight);
        water := water + Triangles(topLeft, topRight, bottomLeft, bottomRight);
        z := z + 1;
      }
      assert h > 1 ==> x * (h - 1) + (h - 1) == (x + 1) * (h - 1);
      x := x + 1;
    }
  }

  /** Each surface gets 6 * (Width - 1) * (Height - 1) indices on any map at
      least one cell wide each way, and none on a smaller one. */
  lemma IndexCount(w: int, h: int)
    ensures w >= 1 && h >= 1 ==> |Topology(w, h)| == 6 * (w - 1) * (h - 1)
    ensures |Topology(w, h)| == 6 * CellCount(w, h)
  {
    if w == 1 || h == 1 {
      assert (w - 1) * (h - 1) == 0;
    }
  }

  /** Cell (x, z) owns positions 6 * (x * (h - 1) + z) .. + 5 of the index
      sequence, which hold its two triangles. */
  lemma CellIndices(w: int, h: int, x: int, z: int, k: int)
    requires 0 <= x < w - 1 && 0 <= z < h - 1 && 0 <= k < 6
    ensures 0 <= 6 * (x * (h - 1) + z) + k < |Topology(w, h)|
    ensures Topology(w, h)[6 * (x * (h - 1) + z) + k] == Quad(x, z, h)[k]
  {
    var n := CellKey(x, z, h - 1);
    var m := (w - 1) * (h - 1);
    assert 0 <= n < m && n / (h - 1) == x && n % (h - 1) == z by {
      KeyOfCell(x, z, w - 1, h - 1);
    }
    assert Topology(w, h) == Prefix(m, h);
    assert 6 * n + k < 6 * m && Prefix(m, h)[6 * n + k] == Quad(x, z, h)[k] by {
      PrefixAt(m, h, n, k);
    }
  }

  /** Position 6 * n + k of the prefix is corner k of cell n. */
  lemma PrefixAt(m: nat, h: int, n: int, k: int)
    requires h > 1 && 0 <= n < m && 0 <= k < 6
    ensures 6 * n + k < 6 * m
    ensures Prefix(m, h)[6 * n + k] == Quad(n / (h - 1), n % (h - 1), h)[k]
  {
    DivModUnique(6 * n + k, 6, n, k);
  }

  /** Position j of the index sequence belongs to cell (c / (h - 1), c % (h - 1))
      with c = j / 6, and that cell lies inside the grid of cells. */
  lemma OwnerCell(w: int, h: int, j: int)
    requires w > 1 && h > 1 && 0 <= j < |Topology(w, h)|
    ensures var c := j / 6;
            && 0 <= c / (h - 1) < w - 1 && 0 <= c % (h - 1) < h - 1
            && Topology(w, h)[j] == Quad(c / (h - 1), c % (h - 1), h)[j % 6]
  {
    var c := j / 6;
    assert 0 <= c < (w - 1) * (h - 1);
    CellOfKey(c, w - 1, h - 1);
  }

  /** The corners of a cell inside the grid of cells are vertices of the map:
      each triangle index lies in [0, Width * Height) and decodes back to its
      corner. */
  lemma QuadCorners(w: int, h: int, x: int, z: int)
    requires 0 <= x < w - 1 && 0 <= z < h - 1
    ensures forall k :: 0 <= k < 6 ==> 0 <= Quad(x, z, h)[k] < w * h
    ensures var q := Quad(x, z, h);
            && q[0] / h == x && q[0] % h == z
            && q[1] / h == x + 1 && q[1] % h == z
            && q[2] / h == x && q[2] % h == z + 1
            && q[4] / h == x + 1 && q[4] % h == z + 1
  {
    KeyOfCell(x, z, w, h);
    KeyOfCell(x + 1, z, w, h);
    KeyOfCell(x, z + 1, w, h);
    KeyOfCell(x + 1, z + 1, w, h);
  }

  /** On a map of width and height at least 2 every index lies in [0, Width * Height). */
  lemma IndicesInRange(w: int, h: int)
    ensures forall j :: 0 <= j < |Topology(w, h)| ==> 0 <= Topology(w, h)[j] < w * h
  {
    forall j | 0 <= j < |Topology(w, h)|
      ensures 0 <= Topology(w, h)[j] < w * h
    {
      OwnerCell(w, h, j);
      var c := j / 6;
      QuadCorners(w, h, c / (h - 1), c % (h - 1));
    }
  }

  /** The three corners of each triangle are distinct vertices: the two
      triangles of a cell share the edge tr-bl and are never degenerate
      once the map is at least 2 high. */
  lemma TrianglesNonDegenerate(x: int, z: int, h: int)
    requires h >= 2
    ensures var q := Quad(x, z, h);
            && q[0] != q[1] && q[1] != q[2] && q[0] != q[2]
            && q[3] != q[4] && q[4] != q[5] && q[3] != q[5]
            && q[1] == q[3] && q[2] == q[5]
  {
    assert (x + 1) * h == x * h + h;
  }

  /** On a map of height 1 the second corner of a cell's first triangle
      coincides with its third, so no non-degenerate mesh exists there; the
      loops emit nothing in that case. */
  lemma HeightOneEmitsNothing(w: int)
    ensures Topology(w, 1) == []
    ensures forall x, z :: Quad(x, z, 1)[1] == Quad(x, z, 1)[2]
  {
  }

  /** Every triangle index of a cell selects, in the key-sorted vertex array,
      the vertex of the corresponding corner. */
  lemma TrianglesSelectCorners(bag: seq<Vertex>, ys: Grid, w: int, h: int, x: int, z: int)
    requires IsGrid(ys, w, h) && 0 <= x < w - 1 && 0 <= z < h - 1
    requires multiset(bag) == multiset(Cells(ys, w, h))
    ensures var sorted, q := SortByKey(bag, h), Quad(x, z, h);
            && |sorted| == w * h
            && (forall k :: 0 <= k < 6 ==> 0 <= q[k] < |sorted|)
            && sorted[q[0]].x == x && sorted[q[0]].z == z
            && sorted[q[1]].x == x + 1 && sorted[q[1]].z == z
            && sorted[q[2]].x == x && sorted[q[2]].z == z + 1
            && sorted[q[4]].x == x + 1 && sorted[q[4]].z == z + 1
  {
    var sorted, q := SortByKey(bag, h), Quad(x, z, h);
    SortedCells(bag, ys, w, h);
    QuadCorners(w, h, x, z);
    CornerAt(sorted, w * h, h, q[0], x, z);
    CornerAt(sorted, w * h, h, q[1], x + 1, z);
    CornerAt(sorted, w * h, h, q[2], x, z + 1);
    CornerAt(sorted, w * h, h, q[4], x + 1, z + 1);
  }

  lemma CornerAt(sorted: seq<Vertex>, n: int, h: int, c: int, x: int, z: int)
    requires |sorted| == n && h > 0
    requires forall i :: 0 <= i < n ==> sorted[i].x == i / h && sorted[i].z == i % h
    requires 0 <= c < n && c / h == x && c % h == z
    ensures sorted[c].x == x && sorted[c].z == z
  {
  }

  /** The cell of each position of the key-sorted vertex array. */
  lemma SortedCells(bag: seq<Vertex>, ys: Grid, w: int, h: int)
    requires IsGrid(ys, w, h) && w >= 0 && h > 0
    requires multiset(bag) == multiset(Cells(ys, w, h))
    ensures |SortByKey(bag, h)| == w * h
    ensures forall i :: 0 <= i < w * h ==> SortByKey(bag, h)[i].x == i / h && SortByKey(bag, h)[i].z == i % h
  {
    SortRestoresRowMajor(bag, ys, w, h);
  }
}
