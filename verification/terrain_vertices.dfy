/** The vertex records of the two-argument GenerateVertices and their
    re-sorting in CreateMeshes. Heights are reals computed from input grids
    (the noise itself is not modelled). The parallel loop adds one record per
    cell to an unordered bag; any order of that bag is re-sorted by the key
    x * Height + z, which restores the row-major order. */
module TerrainVertices {
  import opened TerrainGrid

  /** A grid of heights indexed [x][z]. */
  type Grid = seq<seq<real>>

  predicate IsGrid(g: Grid, w: int, h: int) {
    |g| == w && forall x :: 0 <= x < |g| ==> |g[x]| == h
  }

  /** A float quotient num / den kept exact (the texture coordinate divides by
      Width - 1 or Height - 1, which is 0 on a map one cell wide). */
  datatype Ratio = Ratio(num: int, den: int)

  /** A vertex position (x, y, z) with its texture coordinate (u, v). */
  datatype Vertex = Vertex(x: int, y: real, z: int, u: Ratio, v: Ratio)

  /** The record for cell (x, z) at height y. */
  function CellVertex(x: int, z: int, y: real, w: int, h: int): Vertex {
    Vertex(x, y, z, Ratio(x, w - 1), Ratio(z, h - 1))
  }

  /** The sort key of CreateMeshes. */
  function Key(v: Vertex, h: int): int {
    CellKey(v.x, v.z, h)
  }

  /** The record of the cell whose key is i. */
  function CellAt(ys: Grid, i: int, w: int, h: int): (r: Vertex)
    requires IsGrid(ys, w, h) && 0 <= i < w * h && h > 0
    ensures Key(r, h) == i && 0 <= r.x < w && 0 <= r.z < h
    ensures r == CellVertex(r.x, r.z, ys[r.x][r.z], w, h)
  {
    CellOfKey(i, w, h);
    CellVertex(i / h, i % h, ys[i / h][i % h], w, h)
  }

  /** One record per cell of the map, listed in key order. */
  function Cells(ys: Grid, w: int, h: int): (r: seq<Vertex>)
    requires IsGrid(ys, w, h) && w >= 0 && h >= 0
    ensures |r| == w * h
    ensures h > 0 ==> forall i :: 0 <= i < |r| ==>
              && Key(r[i], h) == i && 0 <= r[i].x < w && 0 <= r[i].z < h
              && r[i] == CellVertex(r[i].x, r[i].z, ys[r[i].x][r[i].z], w, h)
    ensures forall x, z :: 0 <= x < w && 0 <= z < h ==>
              0 <= CellKey(x, z, h) < |r| && r[CellKey(x, z, h)] == CellVertex(x, z, ys[x][z], w, h)
  {
    if h == 0 then []
    else
      MulMonotone(0, w, h);
      var r := seq(w * h, i requires 0 <= i < w * h => CellAt(ys, i, w, h));
      assert forall x, z :: 0 <= x < w && 0 <= z < h ==>
               0 <= CellKey(x, z, h) < |r| && r[CellKey(x, z, h)] == CellVertex(x, z, ys[x][z], w, h) by {
        forall x, z | 0 <= x < w && 0 <= z < h
          ensures 0 <= CellKey(x, z, h) < |r| && r[CellKey(x, z, h)] == CellVertex(x, z, ys[x][z], w, h)
        {
          KeyOfCell(x, z, w, h);
        }
      }
      r
  }

  /** Land height of a cell: the (falloff-adjusted) noise times HeightScale. */
  function LandHeights(noise: Grid, heightScale: real, w: int, h: int): (r: Grid)
    requires IsGrid(noise, w, h) && h >= 0
    ensures IsGrid(r, w, h)
    ensures forall x, z :: 0 <= x < w && 0 <= z < h ==> r[x][z] == noise[x][z] * heightScale
  {
    seq(w, x requires 0 <= x < w => seq(h, z requires 0 <= z < h => noise[x][z] * heightScale))
  }

  /** Water height of a cell: 20 less the ocean-floor height. */
  function WaterHeights(oceanFloor: Grid, w: int, h: int): (r: Grid)
    requires IsGrid(oceanFloor, w, h) && h >= 0
    ensures IsGrid(r, w, h)
    ensures forall x, z :: 0 <= x < w && 0 <= z < h ==> r[x][z] == 20.0 - oceanFloor[x][z]
  {
    seq(w, x requires 0 <= x < w => seq(h, z requires 0 <= z < h => 20.0 - oceanFloor[x][z]))
  }

  /** The two-argument GenerateVertices: one land and one water record per
      cell, sharing the cell's x, z and texture coordinate; the land record
      sits at the scaled noise height and the water record at 20 less the
      ocean floor. Listed here in key order; the bag the parallel loop fills
      is any permutation of this. */
  function GenerateVertices(noise: Grid, oceanFloor: Grid, heightScale: real, w: int, h: int): (r: (seq<Vertex>, seq<Vertex>))
    requires IsGrid(noise, w, h) && IsGrid(oceanFloor, w, h) && w >= 0 && h >= 0
    ensures |r.0| == w * h && |r.1| == w * h
    ensures h > 0 ==> forall i :: 0 <= i < w * h ==>
              var x, z := r.0[i].x, r.0[i].z;
              && Key(r.0[i], h) == i && 0 <= x < w && 0 <= z < h
              && r.0[i] == CellVertex(x, z, noise[x][z] * heightScale, w, h)
              && r.1[i] == CellVertex(x, z, 20.0 - oceanFloor[x][z], w, h)
  {
    (Cells(LandHeights(noise, heightScale, w, h), w, h), Cells(WaterHeights(oceanFloor, w, h), w, h))
  }

  /** Every cell of the map has its record at the position of its key, so
      each cell is listed exactly once. */
  lemma CellsCoverGrid(ys: Grid, w: int, h: int, x: int, z: int)
    requires IsGrid(ys, w, h) && 0 <= x < w && 0 <= z < h
    ensures 0 <= CellKey(x, z, h) < |Cells(ys, w, h)|
    ensures Cells(ys, w, h)[CellKey(x, z, h)] == CellVertex(x, z, ys[x][z], w, h)
    ensures forall i :: 0 <= i < |Cells(ys, w, h)| && Cells(ys, w, h)[i].x == x && Cells(ys, w, h)[i].z == z ==>
              i == CellKey(x, z, h)
  {
    KeyOfCell(x, z, w, h);
  }

  // ---------------------------------------------------------------------------
  // OrderBy(x * Height + z): a stable sort by key
  // ---------------------------------------------------------------------------

  ghost predicate SortedByKey(s: seq<Vertex>, h: int) {
    forall i, j :: 0 <= i < j < |s| ==> Key(s[i], h) <= Key(s[j], h)
  }

  ghost predicate DistinctKeys(s: seq<Vertex>, h: int) {
    forall i, j :: 0 <= i < j < |s| ==> Key(s[i], h) != Key(s[j], h)
  }

  /** Inserts `v` after every element whose key is not larger. */
  function Insert(v: Vertex, s: seq<Vertex>, h: int): (r: seq<Vertex>)
    ensures multiset(r) == multiset(s) + multiset{v}
    ensures SortedByKey(s, h) ==> SortedByKey(r, h)
    decreases |s|
  {
    if |s| == 0 then [v]
    else if Key(v, h) < Key(s[0], h) then
      assert SortedByKey(s, h) ==> SortedByKey([v] + s, h) by {
        if SortedByKey(s, h) {
          ConsSorted(v, s, h);
        }
      }
      [v] + s
    else
      var rest := Insert(v, s[1..], h);
      assert multiset([s[0]] + rest) == multiset(s) + multiset{v} by {
        assert s == [s[0]] + s[1..];
      }
      assert SortedByKey(s, h) ==> SortedByKey([s[0]] + rest, h) by {
        if SortedByKey(s, h) {
          assert SortedByKey(s[1..], h);
          HeadBelowRest(v, s, rest, h);
          ConsSorted(s[0], rest, h);
        }
      }
      [s[0]] + rest
  }

  /** Putting an element whose key bounds every key of a sorted sequence in
      front of it keeps the sequence sorted. */
  lemma ConsSorted(a: Vertex, s: seq<Vertex>, h: int)
    requires SortedByKey(s, h)
    requires forall j :: 0 <= j < |s| ==> Key(a, h) <= Key(s[j], h)
    ensures SortedByKey([a] + s, h)
  {
    var r := [a] + s;
    forall i, j | 0 <= i < j < |r| ensures Key(r[i], h) <= Key(r[j], h) {
      assert r[j] == s[j - 1];
      if i > 0 {
        assert r[i] == s[i - 1];
      }
    }
  }

  /** The head of a sorted sequence is a lower bound of any arrangement of
      its tail and an element whose key is not smaller. */
  lemma HeadBelowRest(v: Vertex, s: seq<Vertex>, rest: seq<Vertex>, h: int)
    requires |s| > 0 && SortedByKey(s, h) && Key(s[0], h) <= Key(v, h)
    requires multiset(rest) == multiset(s[1..]) + multiset{v}
    ensures forall j :: 0 <= j < |rest| ==> Key(s[0], h) <= Key(rest[j], h)
  {
    forall j | 0 <= j < |rest| ensures Key(s[0], h) <= Key(rest[j], h) {
      assert rest[j] in multiset(rest);
      if rest[j] != v {
        assert rest[j] in multiset(s[1..]);
        var k :| 0 <= k < |s[1..]| && s[1..][k] == rest[j];
        assert s[k + 1] == rest[j];
      }
    }
  }

  /** Insertion sort taking the elements left to right, so equal keys keep their
      order (OrderBy is stable). */
  function SortByKey(s: seq<Vertex>, h: int): (r: seq<Vertex>)
    ensures multiset(r) == multiset(s) && |r| == |s|
    ensures SortedByKey(r, h)
    decreases |s|
  {
    if |s| == 0 then []
    else
      var init := s[..|s| - 1];
      assert s == init + [s[|s| - 1]];
      var r := Insert(s[|s| - 1], SortByKey(init, h), h);
      assert |r| == |multiset(r)| == |multiset(s)| == |s|;
      r
  }

  /** Equal multisets with equal heads have equal tails. */
  lemma TailMultisets(a: seq<Vertex>, b: seq<Vertex>)
    requires |a| > 0 && |b| > 0 && a[0] == b[0] && multiset(a) == multiset(b)
    ensures multiset(a[1..]) == multiset(b[1..])
  {
    assert a == [a[0]] + a[1..] && b == [b[0]] + b[1..];
    assert multiset(a[1..]) == multiset(a) - multiset{a[0]};
    assert multiset(b[1..]) == multiset(b) - multiset{b[0]};
  }

  /** Two key-sorted sequences with the same elements are equal when the keys of
      one of them are distinct. */
  lemma {:induction false} SortedUnique(a: seq<Vertex>, b: seq<Vertex>, h: int)
    requires SortedByKey(a, h) && SortedByKey(b, h) && DistinctKeys(a, h)
    requires multiset(a) == multiset(b)
    ensures a == b
    decreases |a|
  {
    assert |a| == |multiset(a)| == |multiset(b)| == |b|;
    if |a| > 0 {
      assert b[0] in multiset(a);
      var j :| 0 <= j < |a| && a[j] == b[0];
      assert a[0] in multiset(b);
      var k :| 0 <= k < |b| && b[k] == a[0];
      assert j == 0;
      TailMultisets(a, b);
      SortedUnique(a[1..], b[1..], h);
      assert a == [a[0]] + a[1..] && b == [b[0]] + b[1..];
    }
  }

  /** In loop order the record at position i has key i. */
  lemma CellKeys(ys: Grid, w: int, h: int)
    requires IsGrid(ys, w, h) && w >= 0 && h > 0
    ensures forall i :: 0 <= i < |Cells(ys, w, h)| ==> Key(Cells(ys, w, h)[i], h) == i
    ensures SortedByKey(Cells(ys, w, h), h) && DistinctKeys(Cells(ys, w, h), h)
  {
    var e := Cells(ys, w, h);
    forall i | 0 <= i < |e| ensures Key(e[i], h) == i {
      assert e[i].x == i / h && e[i].z == i % h;
    }
  }

  /** Whatever order the parallel loop leaves the records in, sorting by key
      gives back the loop-order sequence: position i holds cell (i / h, i % h). */
  lemma SortRestoresRowMajor(bag: seq<Vertex>, ys: Grid, w: int, h: int)
    requires IsGrid(ys, w, h) && w >= 0 && h > 0
    requires multiset(bag) == multiset(Cells(ys, w, h))
    ensures SortByKey(bag, h) == Cells(ys, w, h)
    ensures forall i :: 0 <= i < |bag| ==>
              SortByKey(bag, h)[i].x == i / h && SortByKey(bag, h)[i].z == i % h
  {
    CellKeys(ys, w, h);
    SortedUnique(Cells(ys, w, h), SortByKey(bag, h), h);
    assert |bag| == |Cells(ys, w, h)| by {
      assert |multiset(bag)| == |multiset(Cells(ys, w, h))|;
    }
  }
}
