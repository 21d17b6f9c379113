/** The integer skeleton of the terrain grid: cell (x, z) of a Width x Height
    map is linearised row-major as x * Height + z, the key the vertex sort
    orders by and the index the triangle emitter refers to. */
module TerrainGrid {

  /** Linear index of cell (x, z) in a map of height `h`. */
  function CellKey(x: int, z: int, h: int): int {
    x * h + z
  }

  lemma MulAtLeast(d: int, h: int)
    requires h > 0 && d >= 1
    ensures d * h >= h
  {
    assert d * h == (d - 1) * h + h;
    assert (d - 1) * h >= 0;
  }

  /** Euclidean quotient and remainder are determined by n = q * h + r with
      0 <= r < h. */
  lemma DivModUnique(n: int, h: int, q: int, r: int)
    requires h > 0 && 0 <= r < h && n == q * h + r
    ensures n / h == q && n % h == r
  {
    var q', r' := n / h, n % h;
    assert n == q' * h + r' && 0 <= r' < h;
    var d := q - q';
    assert d * h == r' - r by {
      assert q * h - q' * h == (q - q') * h;
    }
    if d >= 1 {
      MulAtLeast(d, h);
    } else if d <= -1 {
      MulAtLeast(-d, h);
    }
  }

  /** Multiplying by a positive height keeps order. */
  lemma MulMonotone(a: int, b: int, h: int)
    requires a <= b && h >= 0
    ensures a * h <= b * h
  {
    assert b * h - a * h == (b - a) * h;
  }

  /** The key of a cell inside the map lies in [0, w * h), and the cell is
      recovered from its key by quotient and remainder. */
  lemma KeyOfCell(x: int, z: int, w: int, h: int)
    requires 0 <= x < w && 0 <= z < h
    ensures 0 <= CellKey(x, z, h) < w * h
    ensures CellKey(x, z, h) / h == x && CellKey(x, z, h) % h == z
  {
    DivModUnique(CellKey(x, z, h), h, x, z);
    MulMonotone(x + 1, w, h);
    assert (x + 1) * h == x * h + h;
    MulMonotone(0, x, h);
  }

  /** Every index in [0, w * h) is the key of exactly one cell of the map,
      namely (i / h, i % h). */
  lemma CellOfKey(i: int, w: int, h: int)
    requires 0 <= i < w * h && h > 0
    ensures 0 <= i / h < w && 0 <= i % h < h
    ensures CellKey(i / h, i % h, h) == i
    ensures forall x, z :: 0 <= z < h && CellKey(x, z, h) == i ==> x == i / h && z == i % h
  {
    var q := i / h;
    assert i == q * h + i % h;
    if q < 0 {
      MulMonotone(q, -1, h);
    }
    if q >= w {
      MulMonotone(w, q, h);
    }
    forall x, z | 0 <= z < h && CellKey(x, z, h) == i
      ensures x == i / h && z == i % h
    {
      DivModUnique(i, h, x, z);
    }
  }
}
