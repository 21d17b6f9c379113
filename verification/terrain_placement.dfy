/** Where PositionTerrainAndWater puts the meshes, and the circular bounds
    test IsWithinMapBounds. Positions are real; the offsets are computed with
    C# integer division, which truncates toward zero. */
module TerrainPlacement {
  import opened Reals

  datatype Vec3 = Vec3(x: real, y: real, z: real)

  /** The terrain mesh, its collision shape and the water mesh. */
  datatype Placement = Placement(terrain: Vec3, collision: Vec3, water: Vec3)

  /** n / 2 in C#: the quotient truncated toward zero. */
  function Half(n: int): (r: int)
    ensures n >= 0 ==> 0 <= n - 2 * r <= 1
    ensures n < 0 ==> 0 <= 2 * r - n <= 1
  {
    if n >= 0 then n / 2 else -((-n) / 2)
  }

  /** PositionTerrainAndWater: the terrain is moved by (-(Width / 2), 0,
      -(Height / 2)); the collision shape keeps its x and z and is put at
      height 0; the water takes the terrain's x and z at height -10. */
  function PositionTerrainAndWater(w: int, h: int, collision: Vec3): (p: Placement)
    ensures p.terrain.y == 0.0 && p.collision.y == 0.0 && p.water.y == -10.0
    ensures p.collision.x == collision.x && p.collision.z == collision.z
    ensures p.water.x == p.terrain.x && p.water.z == p.terrain.z
    ensures w >= 0 ==> p.terrain.x == -((w / 2) as real)
    ensures h >= 0 ==> p.terrain.z == -((h / 2) as real)
  {
    var terrain := Vec3(-(Half(w) as real), 0.0, -(Half(h) as real));
    Placement(terrain, Vec3(collision.x, 0.0, collision.z), Vec3(terrain.x, -10.0, terrain.z))
  }

  /** The vertex columns 0 .. Width - 1, moved by the terrain offset, are
      centred on the origin to within half a unit: the midpoint of the first
      and last column lies in [-1/2, 0]. The same holds for the rows. */
  lemma TerrainCentred(w: int, h: int, collision: Vec3)
    requires w >= 1 && h >= 1
    ensures var t := PositionTerrainAndWater(w, h, collision).terrain;
            && -1.0 <= 2.0 * t.x + (w - 1) as real <= 0.0
            && -1.0 <= 2.0 * t.z + (h - 1) as real <= 0.0
  {
  }

  function Min(a: int, b: int): (m: int)
    ensures m <= a && m <= b && (m == a || m == b)
  {
    if a <= b then a else b
  }

  /** The radius of the playable disc: half the shorter side less 20. */
  function BoundRadius(w: int, h: int): real {
    (Min(w, h) as real) / 2.0 - 20.0
  }

  /** Squared planar distance of (px, pz) from the map centre (Width / 2, Height / 2). */
  function DistanceSquared(w: int, h: int, px: real, pz: real): (d2: real)
    ensures d2 >= 0.0
  {
    var dx := px - (w as real) / 2.0;
    var dz := pz - (h as real) / 2.0;
    dx * dx + dz * dz
  }

  /** IsWithinMapBounds. The source compares the square root of the squared
      distance with the radius; a non-negative root is at most the radius
      exactly when the radius is non-negative and the square is at most the
      radius squared, which is what this predicate checks. Only a map whose
      shorter side is at least 40 has any position inside. */
  function IsWithinMapBounds(w: int, h: int, px: real, pz: real): (inside: bool)
    ensures inside ==> Min(w, h) >= 40
  {
    var b := BoundRadius(w, h);
    b >= 0.0 && DistanceSquared(w, h, px, pz) <= b * b
  }

  /** For the distance d (any non-negative root of the squared distance) the
      test holds exactly when d is at most the radius. */
  lemma WithinIsDistanceAtMostRadius(w: int, h: int, px: real, pz: real, d: real)
    requires d >= 0.0 && d * d == DistanceSquared(w, h, px, pz)
    ensures IsWithinMapBounds(w, h, px, pz) <==> d <= BoundRadius(w, h)
  {
    var b := BoundRadius(w, h);
    if d <= b {
      assert b * b - d * d == (b - d) * (b + d);
      NonNegativeProduct(b - d, b + d);
      assert IsWithinMapBounds(w, h, px, pz);
    } else if b >= 0.0 {
      var u, v := d - b, d + b;
      PositiveProduct(u, v);
      assert u * v == d * d - b * b;
      assert DistanceSquared(w, h, px, pz) > b * b;
    }
  }

  /** The centre is inside exactly when the shorter side is at least 40. */
  lemma CentreWithin(w: int, h: int)
    ensures IsWithinMapBounds(w, h, (w as real) / 2.0, (h as real) / 2.0) <==> Min(w, h) >= 40
  {
  }

  /** On a map whose shorter side is under 40 no position is inside. */
  lemma SmallMapHasNoInside(w: int, h: int)
    requires Min(w, h) < 40
    ensures forall px: real, pz: real :: !IsWithinMapBounds(w, h, px, pz)
  {
  }

  /** The boundary circle itself is inside: a point exactly one radius from
      the centre along x passes the test, and any point further along x fails. */
  lemma BoundaryIsInclusive(w: int, h: int, beyond: real)
    requires Min(w, h) >= 40 && beyond > 0.0
    ensures var b := BoundRadius(w, h);
            && IsWithinMapBounds(w, h, (w as real) / 2.0 + b, (h as real) / 2.0)
            && !IsWithinMapBounds(w, h, (w as real) / 2.0 + b + beyond, (h as real) / 2.0)
  {
    var b := BoundRadius(w, h);
    var cx, cz := (w as real) / 2.0, (h as real) / 2.0;
    var e, v := b + beyond, 2.0 * b + beyond;
    assert DistanceSquared(w, h, cx + b, cz) == b * b;
    assert IsWithinMapBounds(w, h, cx + b, cz);
    var d2 := DistanceSquared(w, h, cx + e, cz);
    assert d2 == e * e;
    PositiveProduct(beyond, v);
    assert e * e - b * b == beyond * v;
    assert d2 > b * b;
  }
}
